/** The order of `suite-order.ts` read off the rows themselves: which of two rows stands first, and why. */
module SuiteOrderByRow {
  import opened Options
  import opened SiblingOrder
  import opened SuiteRows
  import opened SuiteOrder
  import opened SuiteOrderLaws
  import opened ParentForest

  /** The smaller `sort_order`, and of equal ones the smaller `created_at`; a missing time is 0. */
  predicate First(a: Row, b: Row) {
    var atA := match a.createdAt case None => 0 case Some(time) => time;
    var atB := match b.createdAt case None => 0 case Some(time) => time;
    a.sortOrder < b.sortOrder || (a.sortOrder == b.sortOrder && atA <= atB)
  }

  lemma {:induction false} SortedFirst(xs: seq<Row>, i: nat, j: nat)
    requires i < j < |StableSort(xs)|
    ensures First(StableSort(xs)[i], StableSort(xs)[j])
  {
    StableSortSorts(xs);
    assert NotAfter(RankOf(StableSort(xs)[i]), RankOf(StableSort(xs)[j]));
  }

  // ---- Items ----

  /** Rows that name the same folder stand in sibling order. */
  ghost predicate SiblingsInOrder(xs: seq<Row>) {
    forall i, j :: 0 <= i < j < |xs| && xs[i].within == xs[j].within ==> First(xs[i], xs[j])
  }

  ghost predicate AllWithin(xs: seq<Row>, k: Key) {
    forall x :: x in xs ==> x.within == k
  }

  /** No row of one list names the folder of a row of the other. */
  ghost predicate Apart(xs: seq<Row>, ys: seq<Row>) {
    forall x, y :: x in xs && y in ys ==> x.within != y.within
  }

  lemma {:induction false} JoinApart(xs: seq<Row>, ys: seq<Row>)
    requires SiblingsInOrder(xs) && SiblingsInOrder(ys) && Apart(xs, ys)
    ensures SiblingsInOrder(xs + ys)
  {
    var zs := xs + ys;
    assert forall i, j :: 0 <= i < |xs| && 0 <= j < |ys| ==> xs[i].within != ys[j].within;
    forall i, j | 0 <= i < j < |zs| && zs[i].within == zs[j].within
      ensures First(zs[i], zs[j])
    {
      if j < |xs| {
        assert First(xs[i], xs[j]);
      } else if i >= |xs| {
        assert First(ys[i - |xs|], ys[j - |xs|]);
      }
    }
  }

  lemma {:induction false} SelectedInOrder(items: seq<Row>, t: Test)
    ensures SiblingsInOrder(StableSort(Filter(items, t)))
    ensures forall x :: x in StableSort(Filter(items, t)) ==> x in items && Passes(t, x)
  {
    var xs := StableSort(Filter(items, t));
    forall i, j | 0 <= i < j < |xs|
      ensures First(xs[i], xs[j])
    {
      SortedFirst(Filter(items, t), i, j);
    }
    forall x | x in xs
      ensures x in items && Passes(t, x)
    {
      StableSortMember(Filter(items, t), x);
      FilterMember(items, t, x);
    }
  }

  lemma {:induction false} GroupInOrder(items: seq<Row>, ids: set<Id>, f: Id)
    requires f in ids
    ensures SiblingsInOrder(GroupOf(GroupsOf(items, ids), Some(f))) && AllWithin(GroupOf(GroupsOf(items, ids), Some(f)), Some(f))
  {
    GroupsOfAll(items, ids, Some(f));
    SelectedInOrder(items, InFolder(Some(f)));
  }

  lemma {:induction false} FolderItems(items: seq<Row>, ids: set<Id>, fs: seq<Row>)
    requires DistinctIds(fs) && IdsOf(fs) <= ids
    ensures var xs := ItemsIn(GroupsOf(items, ids), fs);
            SiblingsInOrder(xs) && forall x :: x in xs ==> x.within.Some? && x.within.value in IdsOf(fs)
  {
    if fs == [] {
    } else {
      var f, rest := fs[0], fs[1..];
      assert forall g :: g in rest ==> g in fs && g.id != f.id;
      FolderItems(items, ids, rest);
      assert f in fs;
      GroupInOrder(items, ids, f.id);
      JoinApart(GroupOf(GroupsOf(items, ids), Some(f.id)), ItemsIn(GroupsOf(items, ids), rest));
    }
  }

  lemma {:induction false} ThreeApart(own: seq<Row>, walked: seq<Row>, last: seq<Row>, ids: set<Id>)
    requires SiblingsInOrder(own) && SiblingsInOrder(walked) && SiblingsInOrder(last) && AllWithin(own, None)
    requires forall x :: x in walked ==> x.within.Some? && x.within.value in ids
    requires forall x :: x in last ==> x.within.Some? && x.within.value !in ids
    ensures SiblingsInOrder(own + walked + last)
  {
    JoinApart(own, walked);
    JoinApart(own + walked, last);
  }

  lemma {:induction false} PartsInOrder(items: seq<Row>, ids: set<Id>, fs: seq<Row>)
    requires DistinctIds(fs) && IdsOf(fs) == ids
    ensures SiblingsInOrder(ItemsOf(items, None) + ItemsIn(GroupsOf(items, ids), fs) + DanglingItems(items, ids))
  {
    FolderItems(items, ids, fs);
    SelectedInOrder(items, InFolder(None));
    SelectedInOrder(items, Dangling(ids));
    ThreeApart(ItemsOf(items, None), ItemsIn(GroupsOf(items, ids), fs), DanglingItems(items, ids), ids);
  }

  /** Of two items in one place of the tree the first by `sort_order`, then by `created_at`, runs first, on any parents. */
  lemma {:induction false} ItemsRunInSiblingOrder(items: seq<Row>, folders: seq<Row>, i: nat, j: nat)
    requires i < j < |ItemOrder(items, folders)|
    requires ItemOrder(items, folders)[i].within == ItemOrder(items, folders)[j].within
    ensures First(ItemOrder(items, folders)[i], ItemOrder(items, folders)[j])
  {
    FullWalkMeetsAll(folders);
    PartsInOrder(items, IdsOf(folders), FullWalk(folders).out);
  }

  /** Where a place of the tree comes: the root, then the folders as listed, then whatever is none of them. */
  function PlaceOf(fs: seq<Row>, k: Key): nat {
    if k.None? then 0
    else if fs == [] then 1
    else if fs[0].id == k.value then 1
    else 1 + PlaceOf(fs[1..], k)
  }

  ghost predicate PlacesRise(fs: seq<Row>, xs: seq<Row>) {
    forall i, j :: 0 <= i < j < |xs| ==> PlaceOf(fs, xs[i].within) <= PlaceOf(fs, xs[j].within)
  }

  lemma {:induction false} PlaceBounds(fs: seq<Row>, k: Key)
    requires k.Some?
    ensures 1 <= PlaceOf(fs, k) <= 1 + |fs|
    ensures k.value !in IdsOf(fs) ==> PlaceOf(fs, k) == 1 + |fs|
    ensures k.value in IdsOf(fs) ==> PlaceOf(fs, k) <= |fs| && fs[PlaceOf(fs, k) - 1].id == k.value
  {
    if fs == [] {
    } else {
      PlaceBounds(fs[1..], k);
      assert forall f :: f in fs <==> f == fs[0] || f in fs[1..];
    }
  }

  lemma {:induction false} FirstIsNew(fs: seq<Row>)
    requires fs != [] && DistinctIds(fs)
    ensures DistinctIds(fs[1..]) && IdsOf(fs[1..]) <= IdsOf(fs) && fs[0].id in IdsOf(fs) && fs[0].id !in IdsOf(fs[1..])
  {
    assert forall g :: g in fs[1..] ==> g in fs && g.id != fs[0].id;
    assert fs[0] in fs;
  }

  lemma {:induction false} FolderItemsRise(items: seq<Row>, ids: set<Id>, fs: seq<Row>)
    requires DistinctIds(fs) && IdsOf(fs) <= ids
    ensures PlacesRise(fs, ItemsIn(GroupsOf(items, ids), fs))
  {
    if fs == [] {
    } else {
      FirstIsNew(fs);
      FolderItemsRise(items, ids, fs[1..]);
      OneMoreFolderRises(items, ids, fs[0], fs[1..]);
      assert fs == [fs[0]] + fs[1..];
    }
  }

  lemma {:induction false} OneMoreFolderRises(items: seq<Row>, ids: set<Id>, f: Row, rest: seq<Row>)
    requires DistinctIds(rest) && IdsOf(rest) <= ids && f.id in ids && f.id !in IdsOf(rest)
    requires PlacesRise(rest, ItemsIn(GroupsOf(items, ids), rest))
    ensures PlacesRise([f] + rest, GroupOf(GroupsOf(items, ids), Some(f.id)) + ItemsIn(GroupsOf(items, ids), rest))
  {
    FolderItems(items, ids, rest);
    GroupInOrder(items, ids, f.id);
    RiseBehind(f, rest, GroupOf(GroupsOf(items, ids), Some(f.id)), ItemsIn(GroupsOf(items, ids), rest));
  }

  lemma {:induction false} RiseBehind(f: Row, rest: seq<Row>, own: seq<Row>, others: seq<Row>)
    requires AllWithin(own, Some(f.id)) && PlacesRise(rest, others)
    requires forall x :: x in others ==> x.within.Some? && x.within.value != f.id
    ensures PlacesRise([f] + rest, own + others)
  {
    var fs, xs := [f] + rest, own + others;
    assert fs[1..] == rest;
    forall i, j | 0 <= i < j < |xs|
      ensures PlaceOf(fs, xs[i].within) <= PlaceOf(fs, xs[j].within)
    {
      if i < |own| {
        assert own[i] in own;
        assert j < |own| ==> own[j] in own;
        assert j >= |own| ==> others[j - |own|] in others;
      } else {
        assert others[i - |own|] in others && others[j - |own|] in others;
      }
    }
  }

  /** Items run by the place they are in: the root's, each folder's in the order of the folders, the dangling ones. */
  lemma {:induction false} ItemsRunByFolder(items: seq<Row>, folders: seq<Row>, i: nat, j: nat)
    requires i < j < |ItemOrder(items, folders)|
    ensures var fs := FullWalk(folders).out;
            PlaceOf(fs, ItemOrder(items, folders)[i].within) <= PlaceOf(fs, ItemOrder(items, folders)[j].within)
  {
    FullWalkMeetsAll(folders);
    PartsRise(items, IdsOf(folders), FullWalk(folders).out, i, j);
  }

  lemma {:induction false} PartsRise(items: seq<Row>, ids: set<Id>, fs: seq<Row>, i: nat, j: nat)
    requires DistinctIds(fs) && IdsOf(fs) == ids
    requires i < j < |ItemsOf(items, None) + ItemsIn(GroupsOf(items, ids), fs) + DanglingItems(items, ids)|
    ensures var xs := ItemsOf(items, None) + ItemsIn(GroupsOf(items, ids), fs) + DanglingItems(items, ids);
            PlaceOf(fs, xs[i].within) <= PlaceOf(fs, xs[j].within)
  {
    FolderItems(items, ids, fs);
    FolderItemsRise(items, ids, fs);
    SelectedInOrder(items, InFolder(None));
    SelectedInOrder(items, Dangling(ids));
    RiseInThree(fs, ItemsOf(items, None), ItemsIn(GroupsOf(items, ids), fs), DanglingItems(items, ids), i, j);
  }

  lemma {:induction false} RiseInThree(fs: seq<Row>, own: seq<Row>, walked: seq<Row>, last: seq<Row>, i: nat, j: nat)
    requires AllWithin(own, None) && PlacesRise(fs, walked)
    requires forall x :: x in walked ==> x.within.Some?
    requires forall x :: x in last ==> x.within.Some? && x.within.value !in IdsOf(fs)
    requires i < j < |own + walked + last|
    ensures PlaceOf(fs, (own + walked + last)[i].within) <= PlaceOf(fs, (own + walked + last)[j].within)
  {
    var xs := own + walked + last;
    if i < |own| {
      assert own[i] in own;
    } else if j < |own| + |walked| {
      assert xs[i] == walked[i - |own|] && xs[j] == walked[j - |own|];
    } else {
      assert xs[j] == last[j - |own| - |walked|];
      assert xs[j] in last;
      PlaceBounds(fs, xs[j].within);
      assert i < |own| + |walked| ==> xs[i] == walked[i - |own|] && xs[i] in walked;
      assert i >= |own| + |walked| ==> xs[i] == last[i - |own| - |walked|] && xs[i] in last;
      PlaceBounds(fs, xs[i].within);
    }
  }

  // ---- Folders ----

  /** The lists are in sibling order. */
  ghost predicate ListsInOrder(lists: Lists) {
    forall k, i, j :: 0 <= i < j < |GroupOf(lists, k)| ==> First(GroupOf(lists, k)[i], GroupOf(lists, k)[j])
  }

  ghost predicate InFirst(fs: seq<Row>) {
    forall i, j :: 0 <= i < j < |fs| ==> First(fs[i], fs[j])
  }

  /** Children of one parent stand in sibling order. */
  ghost predicate KidsInOrder(p: Parents, xs: seq<Row>) {
    forall i, j :: 0 <= i < j < |xs| && xs[i].id in p && xs[j].id in p && p[xs[i].id] == p[xs[j].id] ==> First(xs[i], xs[j])
  }

  lemma {:induction false} JoinKids(p: Parents, xs: seq<Row>, ys: seq<Row>)
    requires KidsInOrder(p, xs) && KidsInOrder(p, ys)
    requires forall x, y :: x in xs && y in ys && x.id in p && y.id in p && p[x.id] == p[y.id] ==> First(x, y)
    ensures KidsInOrder(p, xs + ys)
  {
    var zs := xs + ys;
    forall i, j | 0 <= i < j < |zs| && zs[i].id in p && zs[j].id in p && p[zs[i].id] == p[zs[j].id]
      ensures First(zs[i], zs[j])
    {
      if j < |xs| {
        assert First(xs[i], xs[j]);
      } else if i >= |xs| {
        assert First(ys[i - |xs|], ys[j - |xs|]);
      } else {
        assert xs[i] in xs && ys[j - |xs|] in ys;
      }
    }
  }

  /** A row of these blocks is one of the list or hangs under a row of them. */
  ghost predicate HangsIn(p: Parents, k: Key, fs: seq<Row>, x: Row) {
    x.id in p && if p[x.id] == k then x in fs else p[x.id].Some? && p[x.id].value in Subtrees(p, fs)
  }

  lemma {:induction false} BlocksHang(lists: Lists, p: Parents, k: Key, fs: seq<Row>)
    requires Shape(lists, p) && Tiled(lists, p) && forall f :: f in fs ==> f.id in p && p[f.id] == k
    ensures forall x :: x in Blocks(lists, p, k, fs) ==> HangsIn(p, k, fs, x)
    decreases Under(p, k), 1, |fs|
  {
    if fs == [] {
      assert Blocks(lists, p, k, fs) == [];
    } else {
      SubtreeUnder(p, fs[0].id);
      BlockHangs(lists, p, fs[0]);
      BlocksHang(lists, p, k, fs[1..]);
      forall x | x in Blocks(lists, p, k, fs)
        ensures HangsIn(p, k, fs, x)
      {
        if x in Block(lists, p, fs[0]) {
          NotUnderItself(p, fs[0], k);
        } else {
          assert HangsIn(p, k, fs[1..], x);
        }
      }
    }
  }

  lemma {:induction false} NotUnderItself(p: Parents, f: Row, k: Key)
    requires Acyclic(p) && f.id in p && p[f.id] == k
    ensures k.Some? ==> k.value !in Subtree(p, f.id)
  {
    if k.Some? {
      ParentNotBelow(p, f.id);
    }
  }

  /** A row of one block is its head or hangs under a row of the block. */
  lemma {:induction false} BlockHangs(lists: Lists, p: Parents, f: Row)
    requires Shape(lists, p) && Tiled(lists, p) && f.id in p
    ensures forall x :: x in Block(lists, p, f) ==> x == f || (x.id in p && p[x.id].Some? && p[x.id].value in Subtree(p, f.id))
    decreases Subtree(p, f.id), 0, 0
  {
    BelowSelf(p, f.id);
    assert Under(p, Some(f.id)) < Subtree(p, f.id);
    var kids := GroupOf(lists, Some(f.id));
    BlocksHang(lists, p, Some(f.id), kids);
    forall x | x in Blocks(lists, p, Some(f.id), kids)
      ensures x.id in p && p[x.id].Some? && p[x.id].value in Subtree(p, f.id)
    {
      assert HangsIn(p, Some(f.id), kids, x);
    }
  }

  lemma {:induction false} JoinLater(p: Parents, k: Key, f: Row, rest: seq<Row>, own: seq<Row>, others: seq<Row>)
    requires KidsInOrder(p, own) && KidsInOrder(p, others) && f.id in p && p[f.id] == k
    requires forall x :: x in own ==> x == f || (x.id in p && p[x.id].Some? && p[x.id].value in Subtree(p, f.id))
    requires forall y :: y in others ==> HangsIn(p, k, rest, y)
    requires Subtree(p, f.id) !! Subtrees(p, rest) && (k.Some? ==> k.value !in Subtree(p, f.id))
    requires forall y :: y in rest ==> First(f, y)
    ensures KidsInOrder(p, own + others)
  {
    forall x, y | x in own && y in others && x.id in p && y.id in p && p[x.id] == p[y.id]
      ensures First(x, y)
    {
      assert HangsIn(p, k, rest, y);
    }
    JoinKids(p, own, others);
  }

  lemma {:induction false} BlocksInOrder(lists: Lists, p: Parents, k: Key, fs: seq<Row>)
    requires Shape(lists, p) && Tiled(lists, p) && ListsInOrder(lists)
    requires DistinctIds(fs) && InFirst(fs) && forall f :: f in fs ==> f.id in p && p[f.id] == k
    ensures KidsInOrder(p, Blocks(lists, p, k, fs))
    decreases Under(p, k), 1, |fs|
  {
    if fs == [] {
      assert Blocks(lists, p, k, fs) == [];
    } else {
      var f, rest := fs[0], fs[1..];
      SubtreeUnder(p, f.id);
      BlockInOrder(lists, p, f);
      BlocksInOrder(lists, p, k, rest);
      BlockHangs(lists, p, f);
      BlocksHang(lists, p, k, rest);
      RestDisjoint(p, f, rest);
      NotUnderItself(p, f, k);
      assert forall y :: y in rest ==> First(f, y);
      JoinLater(p, k, f, rest, Block(lists, p, f), Blocks(lists, p, k, rest));
    }
  }

  lemma {:induction false} BlockInOrder(lists: Lists, p: Parents, f: Row)
    requires Shape(lists, p) && Tiled(lists, p) && ListsInOrder(lists) && f.id in p
    ensures KidsInOrder(p, Block(lists, p, f))
    decreases Subtree(p, f.id), 0, 0
  {
    BelowSelf(p, f.id);
    assert Under(p, Some(f.id)) < Subtree(p, f.id);
    var kids := GroupOf(lists, Some(f.id));
    BlocksInOrder(lists, p, Some(f.id), kids);
    BlocksHang(lists, p, Some(f.id), kids);
    NotUnderItself(p, f, p[f.id]);
    forall y | y in Blocks(lists, p, Some(f.id), kids)
      ensures y.id in p && p[y.id] != p[f.id]
    {
      assert HangsIn(p, Some(f.id), kids, y);
    }
    JoinKids(p, [f], Blocks(lists, p, Some(f.id), kids));
  }

  predicate AtRoot(f: Row, ids: set<Id>) {
    f.within.None? || f.within.value == "" || f.within.value !in ids
  }

  /** The tree is that of the rows' `parent_id`; a folder whose parent is not listed is a root. */
  lemma {:induction false} ParentsRead(folders: seq<Row>, f: Row)
    requires DistinctIds(folders) && f in folders
    ensures f.id in ParentsIn(folders)
    ensures ParentsIn(folders)[f.id] == if AtRoot(f, IdsOf(folders)) then None else f.within
  {
    var p := ParentsIn(folders);
    assert f.id in p;
    var g :| g in folders && g.id == f.id && p[f.id] == ListKey(IdsOf(folders), g);
    assert g == f;
  }

  lemma {:induction false} SuiteListsInOrder(folders: seq<Row>)
    ensures ListsInOrder(ListsOf(folders))
  {
    var lists := ListsOf(folders);
    ListsOfAll(folders);
    forall k, i, j | 0 <= i < j < |GroupOf(lists, k)|
      ensures First(GroupOf(lists, k)[i], GroupOf(lists, k)[j])
    {
      SortedFirst(Filter(folders, UnderList(IdsOf(folders), k)), i, j);
    }
  }

  lemma {:induction false} TreeInOrder(folders: seq<Row>)
    requires DistinctIds(folders) && Acyclic(ParentsIn(folders))
    ensures KidsInOrder(ParentsIn(folders), FolderOrder(folders))
  {
    FolderOrderIsTree(folders);
    ListsAreTiled(folders);
    SuiteListsInOrder(folders);
    BlocksInOrder(ListsOf(folders), ParentsIn(folders), None, GroupOf(ListsOf(folders), None));
  }

  lemma {:induction false} OrderedFolder(folders: seq<Row>, i: nat)
    requires DistinctIds(folders) && i < |FolderOrder(folders)|
    ensures FolderOrder(folders)[i] in folders
  {
    FoldersConserved(folders);
    assert FolderOrder(folders)[i] in multiset(FolderOrder(folders));
  }

  /** Of two folders of one parent, or of two roots, the first by `sort_order`, then by `created_at`, stands first. */
  lemma {:induction false} FoldersStandInSiblingOrder(folders: seq<Row>, i: nat, j: nat)
    requires DistinctIds(folders) && Acyclic(ParentsIn(folders)) && i < j < |FolderOrder(folders)|
    requires var a, b := FolderOrder(folders)[i], FolderOrder(folders)[j];
             a.within == b.within || (AtRoot(a, IdsOf(folders)) && AtRoot(b, IdsOf(folders)))
    ensures First(FolderOrder(folders)[i], FolderOrder(folders)[j])
  {
    OrderedFolder(folders, i);
    OrderedFolder(folders, j);
    ParentsRead(folders, FolderOrder(folders)[i]);
    ParentsRead(folders, FolderOrder(folders)[j]);
    TreeInOrder(folders);
  }

  /** A folder stands behind its parent, with nothing between the two but what hangs under that parent. */
  lemma {:induction false} FoldersStandUnderParent(folders: seq<Row>, i: nat, j: nat)
    requires DistinctIds(folders) && Acyclic(ParentsIn(folders)) && i < |FolderOrder(folders)| && j < |FolderOrder(folders)|
    requires FolderOrder(folders)[j].within == Some(FolderOrder(folders)[i].id) && FolderOrder(folders)[i].id != ""
    ensures i < j
    ensures forall m :: i < m < j ==> Below(ParentsIn(folders), FolderOrder(folders)[m].id, FolderOrder(folders)[i].id)
  {
    var out, p := FolderOrder(folders), ParentsIn(folders);
    OrderedFolder(folders, i);
    OrderedFolder(folders, j);
    ParentsRead(folders, out[j]);
    FoldersConserved(folders);
    PermutedDistinct(out, folders);
    var before, block, after := BlockOf(folders, out[i].id);
    BelowSelf(p, out[i].id);
    BelowParent(p, out[j].id, out[i].id);
    ParentNotBelow(p, out[j].id);
    assert out[|before|] == block[0];
    InBlock(out, before, block, after, out[j].id, j);
    forall m | i < m < j
      ensures Below(p, out[m].id, out[i].id)
    {
      assert out[m] == block[m - |before|];
      assert out[m].id in IdsOf(block);
    }
  }

  lemma {:induction false} BlockOf(folders: seq<Row>, d: Id) returns (before: seq<Row>, block: seq<Row>, after: seq<Row>)
    requires DistinctIds(folders) && Acyclic(ParentsIn(folders)) && d in IdsOf(folders)
    ensures FolderOrder(folders) == before + block + after
    ensures block != [] && block[0].id == d && IdsOf(block) == Subtree(ParentsIn(folders), d)
  {
    SubtreeIsContiguous(folders, d);
    before, block, after :| FolderOrder(folders) == before + block + after
                            && block != [] && block[0].id == d && IdsOf(block) == Subtree(ParentsIn(folders), d);
  }

  lemma {:induction false} InBlock(out: seq<Row>, before: seq<Row>, block: seq<Row>, after: seq<Row>, id: Id, j: nat)
    requires out == before + block + after && DistinctIds(out) && id in IdsOf(block)
    requires j < |out| && out[j].id == id
    ensures |before| <= j < |before| + |block|
  {
    var g :| g in block && g.id == id;
    var n :| 0 <= n < |block| && block[n] == g;
    assert out[|before| + n] == g;
  }
}
