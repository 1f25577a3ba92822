/** What the order of `suite-order.ts` is worth: nothing is lost or run twice, whatever the parents
    are, and on a proper tree it is the depth-first rule the module documents. */
module SuiteOrderLaws {
  import opened Options
  import opened SiblingOrder
  import opened SuiteRows
  import opened SuiteOrder
  import opened ParentForest

  // ---- Every row exactly once, on any parents ----

  lemma {:induction false} GroupsOfAll(items: seq<Row>, ids: set<Id>, k: Key)
    requires k.None? || k.value in ids
    ensures GroupOf(GroupsOf(items, ids), k) == ItemsOf(items, k)
  {
  }

  /** How often an item occurs among the groups of distinct folders. */
  lemma {:induction false} GroupsCount(items: seq<Row>, ids: set<Id>, fs: seq<Row>, x: Row)
    requires DistinctIds(fs) && IdsOf(fs) <= ids
    ensures multiset(ItemsIn(GroupsOf(items, ids), fs))[x] ==
            if Passes(InFolders(IdsOf(fs)), x) then multiset(items)[x] else 0
  {
    if fs == [] {
    } else {
      var f, rest := fs[0], fs[1..];
      assert forall g :: g in fs <==> g == f || g in rest;
      assert IdsOf(fs) == {f.id} + IdsOf(rest);
      assert forall g :: g in rest ==> g.id != f.id;
      assert f.id !in IdsOf(rest);
      GroupsCount(items, ids, rest, x);
      GroupCount(items, ids, f.id, x);
    }
  }

  lemma {:induction false} ListCount(items: seq<Row>, t: Test, x: Row)
    ensures multiset(StableSort(Filter(items, t)))[x] == if Passes(t, x) then multiset(items)[x] else 0
  {
    StableSortSorts(Filter(items, t));
    FilterCount(items, t, x);
  }

  lemma {:induction false} GroupCount(items: seq<Row>, ids: set<Id>, f: Id, x: Row)
    requires f in ids
    ensures multiset(GroupOf(GroupsOf(items, ids), Some(f)))[x] == if x.within == Some(f) then multiset(items)[x] else 0
  {
    GroupsOfAll(items, ids, Some(f));
    ListCount(items, InFolder(Some(f)), x);
  }

  lemma {:induction false} VisitedCount(items: seq<Row>, ids: set<Id>, fs: seq<Row>, x: Row)
    requires DistinctIds(fs) && IdsOf(fs) == ids
    ensures multiset(ItemsIn(GroupsOf(items, ids), fs))[x] ==
            if x.within.Some? && x.within.value in ids then multiset(items)[x] else 0
  {
    GroupsCount(items, ids, fs, x);
  }

  lemma {:induction false} WalkedCount(items: seq<Row>, folders: seq<Row>, x: Row)
    ensures multiset(ItemsIn(GroupsOf(items, IdsOf(folders)), FullWalk(folders).out))[x] ==
            if x.within.Some? && x.within.value in IdsOf(folders) then multiset(items)[x] else 0
  {
    FullWalkMeetsAll(folders);
    VisitedCount(items, IdsOf(folders), FullWalk(folders).out, x);
  }

  lemma {:induction false} DanglingCount(items: seq<Row>, ids: set<Id>, x: Row)
    ensures multiset(DanglingItems(items, ids))[x] ==
            if x.within.Some? && x.within.value != "" && x.within.value !in ids then multiset(items)[x] else 0
  {
    ListCount(items, Dangling(ids), x);
  }

  lemma {:induction false} RootCount(items: seq<Row>, x: Row)
    ensures multiset(ItemsOf(items, None))[x] == if x.within == None then multiset(items)[x] else 0
  {
    ListCount(items, InFolder(None), x);
  }

  /** Nothing runs twice, and what does not run at all is exactly the items whose `folder_id` is ""
      when no folder has that id, even with dangling or cyclic parents or repeated folder ids. */
  lemma {:induction false} ItemsConserved(items: seq<Row>, folders: seq<Row>, x: Row)
    ensures multiset(ItemOrder(items, folders))[x] ==
            if x.within == Some("") && "" !in IdsOf(folders) then 0 else multiset(items)[x]
  {
    RootCount(items, x);
    WalkedCount(items, folders, x);
    DanglingCount(items, IdsOf(folders), x);
    ItemOrderCount(items, folders, x);
  }

  lemma {:induction false} ItemOrderCount(items: seq<Row>, folders: seq<Row>, x: Row)
    ensures multiset(ItemOrder(items, folders))[x] ==
            multiset(ItemsOf(items, None))[x]
            + multiset(ItemsIn(GroupsOf(items, IdsOf(folders)), FullWalk(folders).out))[x]
            + multiset(DanglingItems(items, IdsOf(folders)))[x]
  {
  }

  lemma {:induction false} CountsToPermutation(out: seq<Row>, items: seq<Row>, placeless: bool)
    requires forall x :: multiset(out)[x] == if x.within == Some("") && placeless then 0 else multiset(items)[x]
    ensures multiset(out) == multiset(items) <==> !placeless || forall it :: it in items ==> it.within != Some("")
  {
    if multiset(out) == multiset(items) && placeless {
      forall it | it in items
        ensures it.within != Some("")
      {
        assert multiset(items)[it] > 0;
      }
    }
  }

  /** The run holds every item exactly once if and only if no item has an empty, unmatched `folder_id`. */
  lemma {:induction false} PermutationIff(items: seq<Row>, folders: seq<Row>)
    ensures multiset(ItemOrder(items, folders)) == multiset(items) <==>
            "" in IdsOf(folders) || forall it :: it in items ==> it.within != Some("")
  {
    var out, placeless := ItemOrder(items, folders), "" !in IdsOf(folders);
    forall x: Row
      ensures multiset(out)[x] == if x.within == Some("") && placeless then 0 else multiset(items)[x]
    {
      ItemsConserved(items, folders, x);
    }
    CountsToPermutation(out, items, placeless);
  }

  lemma {:induction false} FirstCounts(rows: seq<Row>)
    ensures rows == [] || multiset(rows)[rows[0]] > 0
  {
  }

  /** An item in a folder named by the empty string is in no run at all. */
  lemma {:induction false} ItemOfEmptyFolderIsLost()
    ensures ItemOrder([Row("i", Some(""), 0, None)], []) == []
  {
    var items := [Row("i", Some(""), 0, None)];
    forall x
      ensures multiset(ItemOrder(items, []))[x] == 0
    {
      ItemsConserved(items, [], x);
    }
    FirstCounts(ItemOrder(items, []));
  }

  /** A walk only meets rows of the lists it is given. */
  lemma {:induction false} WalkRows(lists: Lists, ids: set<Id>, rows: set<Row>, fs: seq<Row>, seen: set<Id>)
    requires Within(lists, ids) && forall f :: f in fs ==> f.id in ids && f in rows
    requires forall k, f :: f in GroupOf(lists, k) ==> f in rows
    ensures forall f :: f in Walk(lists, ids, fs, seen).out ==> f in rows
    decreases ids - seen, |fs|
  {
    if fs == [] {
    } else {
      var f := fs[0];
      if f.id in seen {
        WalkRows(lists, ids, rows, fs[1..], seen);
      } else {
        assert f.id in ids - seen;
        WalkRows(lists, ids, rows, GroupOf(lists, Some(f.id)), seen + {f.id});
        var below := Walk(lists, ids, GroupOf(lists, Some(f.id)), seen + {f.id});
        assert ids - below.seen < ids - seen;
        WalkRows(lists, ids, rows, fs[1..], below.seen);
      }
    }
  }

  lemma {:induction false} DistinctOnce(fs: seq<Row>, x: Row)
    requires DistinctIds(fs)
    ensures multiset(fs)[x] == if x in fs then 1 else 0
  {
    if fs == [] {
    } else {
      DistinctOnce(fs[1..], x);
      assert fs == [fs[0]] + fs[1..];
      assert forall g :: g in fs[1..] ==> g.id != fs[0].id;
    }
  }

  lemma {:induction false} SameIdSameRow(rows: seq<Row>, x: Row, y: Row)
    requires DistinctIds(rows) && x in rows && y in rows && x.id == y.id
    ensures x == y
  {
  }

  lemma {:induction false} TwiceCounts(rows: seq<Row>, i: nat, j: nat)
    requires i < j < |rows| && rows[i] == rows[j]
    ensures multiset(rows)[rows[i]] >= 2
  {
    assert rows == rows[..j] + rows[j..];
    assert rows[i] in rows[..j] && rows[j] in rows[j..];
    assert multiset(rows)[rows[i]] == multiset(rows[..j])[rows[i]] + multiset(rows[j..])[rows[i]];
  }

  /** A permutation of rows with distinct ids has distinct ids, and the same ones. */
  lemma {:induction false} PermutedDistinct(a: seq<Row>, b: seq<Row>)
    requires multiset(a) == multiset(b) && DistinctIds(b)
    ensures DistinctIds(a) && IdsOf(a) == IdsOf(b)
  {
    assert forall x :: x in a <==> x in multiset(a);
    assert forall x :: x in b <==> x in multiset(b);
    forall i, j | 0 <= i < j < |a|
      ensures a[i].id != a[j].id
    {
      if a[i].id == a[j].id {
        SameIdSameRow(b, a[i], a[j]);
        TwiceCounts(a, i, j);
        DistinctOnce(b, a[i]);
      }
    }
  }

  lemma {:induction false} FilterDistinct(fs: seq<Row>, t: Test)
    requires DistinctIds(fs)
    ensures DistinctIds(Filter(fs, t))
  {
    if fs == [] {
    } else {
      FilterDistinct(fs[1..], t);
      forall g
        ensures g in Filter(fs[1..], t) ==> g.id != fs[0].id
      {
        FilterMember(fs[1..], t, g);
      }
    }
  }

  lemma {:induction false} UnseenAfter(a: seq<Row>, b: seq<Row>, seen: set<Id>)
    requires DistinctIds(a) && IdsOf(a) == seen
    requires DistinctIds(b) && forall f :: f in b ==> f.id !in seen
    ensures DistinctIds(a + b)
  {
    assert forall f :: f in a ==> f.id in IdsOf(a);
  }

  lemma {:induction false} RootWalkRows(folders: seq<Row>)
    ensures Within(ListsOf(folders), IdsOf(folders))
    ensures forall f :: f in RootWalk(ListsOf(folders), IdsOf(folders)).out ==> f in folders
  {
    ListsOfAll(folders);
    var lists := ListsOf(folders);
    var rows := set f | f in folders;
    forall k
      ensures forall f :: f in GroupOf(lists, k) ==> f in rows
    {
      ChildrenMembers(folders, k);
    }
    WalkRows(lists, IdsOf(folders), rows, GroupOf(lists, None), {});
  }

  lemma {:induction false} SameOnce(a: seq<Row>, b: seq<Row>)
    requires DistinctIds(a) && DistinctIds(b)
    requires forall x :: x in a <==> x in b
    ensures multiset(a) == multiset(b)
  {
    forall x
      ensures multiset(a)[x] == multiset(b)[x]
    {
      DistinctOnce(a, x);
      DistinctOnce(b, x);
    }
  }

  /** `orderSuiteFolders` returns every folder exactly once, cycles included. */
  lemma {:induction false} FoldersConserved(folders: seq<Row>)
    requires DistinctIds(folders)
    ensures multiset(FolderOrder(folders)) == multiset(folders)
  {
    FolderOrderParts(folders);
    RootWalkRows(folders);
    var v := RootWalk(ListsOf(folders), IdsOf(folders));
    WalkVisits(ListsOf(folders), IdsOf(folders), GroupOf(ListsOf(folders), None), {});
    RestComplete(folders, v.out, v.seen);
  }

  lemma {:induction false} RestComplete(folders: seq<Row>, a: seq<Row>, seen: set<Id>)
    requires DistinctIds(folders) && DistinctIds(a) && IdsOf(a) == seen && forall f :: f in a ==> f in folders
    ensures multiset(a + Filter(folders, Unseen(seen))) == multiset(folders)
  {
    var b := Filter(folders, Unseen(seen));
    FilterDistinct(folders, Unseen(seen));
    forall f
      ensures f in b <==> f in folders && f.id !in seen
    {
      FilterMember(folders, Unseen(seen), f);
    }
    UnseenAfter(a, b, seen);
    forall x | x in folders && x.id in seen
      ensures x in a
    {
      var y :| y in a && y.id == x.id;
    }
    SameOnce(a + b, folders);
  }

  // ---- The documented rule on a proper tree ----

  /** Each folder id with the parent whose list holds it. */
  ghost function ParentsIn(folders: seq<Row>): Parents
    requires DistinctIds(folders)
  {
    map f | f in folders :: f.id := ListKey(IdsOf(folders), f)
  }

  /** The lists hold children only, each once. */
  ghost predicate Shape(lists: Lists, p: Parents) {
    && Acyclic(p)
    && (forall k, f :: f in GroupOf(lists, k) ==> f.id in p && p[f.id] == k)
    && (forall k :: DistinctIds(GroupOf(lists, k)))
  }

  /** The lists hold every child. */
  ghost predicate Complete(lists: Lists, p: Parents) {
    forall f :: f in p ==> exists r :: r in GroupOf(lists, p[f]) && r.id == f
  }

  /** The rows beneath a list's owner. */
  ghost function Under(p: Parents, k: Key): set<Id> {
    if k.None? then p.Keys else Subtree(p, k.value) - {k.value}
  }

  lemma {:induction false} SubtreeUnder(p: Parents, f: Id)
    requires Acyclic(p) && f in p
    ensures f in Subtree(p, f)
    ensures Subtree(p, f) <= Under(p, p[f])
  {
    BelowSelf(p, f);
    if p[f].Some? {
      ParentNotBelow(p, f);
      forall d | d in Subtree(p, f)
        ensures d in Under(p, p[f])
      {
        BelowParent(p, f, p[f].value);
        BelowSelf(p, p[f].value);
        BelowTransitive(p, d, f, p[f].value);
      }
    }
  }

  /** A folder, then its subtree: a folder's own block. */
  ghost function Block(lists: Lists, p: Parents, f: Row): seq<Row>
    requires Shape(lists, p) && f.id in p
    decreases Subtree(p, f.id), 0, 0
  {
    BelowSelf(p, f.id);
    assert Under(p, Some(f.id)) < Subtree(p, f.id);
    [f] + Blocks(lists, p, Some(f.id), GroupOf(lists, Some(f.id)))
  }

  /** The blocks of a list of siblings, in order. */
  ghost function Blocks(lists: Lists, p: Parents, k: Key, fs: seq<Row>): seq<Row>
    requires Shape(lists, p) && forall f :: f in fs ==> f.id in p && p[f.id] == k
    decreases Under(p, k), 1, |fs|
  {
    if fs == [] then []
    else
      SubtreeUnder(p, fs[0].id);
      Block(lists, p, fs[0]) + Blocks(lists, p, k, fs[1..])
  }

  ghost function Subtrees(p: Parents, fs: seq<Row>): set<Id> {
    if fs == [] then {} else Subtree(p, fs[0].id) + Subtrees(p, fs[1..])
  }

  lemma {:induction false} InSubtrees(p: Parents, fs: seq<Row>, d: Id)
    ensures d in Subtrees(p, fs) <==> exists f :: f in fs && d in Subtree(p, f.id)
  {
    if fs == [] {
    } else {
      InSubtrees(p, fs[1..], d);
      assert forall f :: f in fs <==> f == fs[0] || f in fs[1..];
    }
  }

  lemma {:induction false} KidsBelow(p: Parents, f: Id, kids: seq<Row>)
    requires Acyclic(p) && forall c :: c in kids ==> c.id in p && p[c.id] == Some(f)
    ensures Subtrees(p, kids) <= Subtree(p, f) - {f}
  {
    if kids == [] {
    } else {
      SubtreeUnder(p, kids[0].id);
      KidsBelow(p, f, kids[1..]);
    }
  }

  lemma {:induction false} BelowKids(lists: Lists, p: Parents, f: Id, d: Id)
    requires Complete(lists, p) && f in p && d in Subtree(p, f) && d != f
    ensures d in Subtrees(p, GroupOf(lists, Some(f)))
  {
    var k: nat :| Ancestor(p, d, k) == Some(f);
    var c := BelowChild(p, d, f, k);
    var r :| r in GroupOf(lists, p[c]) && r.id == c;
    assert d in Subtree(p, r.id);
    InSubtrees(p, GroupOf(lists, Some(f)), d);
  }

  /** A subtree is its root and its children's subtrees. */
  lemma {:induction false} SubtreeParts(lists: Lists, p: Parents, f: Id)
    requires Shape(lists, p) && Complete(lists, p) && f in p
    ensures Subtree(p, f) == {f} + Subtrees(p, GroupOf(lists, Some(f)))
    ensures f !in Subtrees(p, GroupOf(lists, Some(f)))
  {
    BelowSelf(p, f);
    KidsBelow(p, f, GroupOf(lists, Some(f)));
    forall d | d in Subtree(p, f) && d != f
      ensures d in Subtrees(p, GroupOf(lists, Some(f)))
    {
      BelowKids(lists, p, f, d);
    }
  }

  /** Every subtree is its root and its children's subtrees. */
  ghost predicate Tiled(lists: Lists, p: Parents) {
    forall f :: f in p ==>
      && Subtree(p, f) == {f} + Subtrees(p, GroupOf(lists, Some(f)))
      && f !in Subtrees(p, GroupOf(lists, Some(f)))
  }

  /** On a proper tree the guarded walk is the unguarded preorder. */
  lemma {:induction false} WalkIsBlocks(lists: Lists, p: Parents, k: Key, fs: seq<Row>, seen: set<Id>)
    requires Shape(lists, p) && Tiled(lists, p) && Within(lists, p.Keys) && DistinctIds(fs)
    requires forall f :: f in fs ==> f.id in p && p[f.id] == k
    requires Subtrees(p, fs) !! seen
    ensures Walk(lists, p.Keys, fs, seen) == Visit(Blocks(lists, p, k, fs), seen + Subtrees(p, fs))
    decreases Under(p, k), |fs|
  {
    if fs == [] {
      assert Subtrees(p, fs) == {};
    } else {
      var f, rest := fs[0], fs[1..];
      RestDisjoint(p, f, rest);
      WalkIsBlock(lists, p, k, f, seen);
      var mid := seen + Subtree(p, f.id);
      assert Subtrees(p, rest) !! mid;
      WalkIsBlocks(lists, p, k, rest, mid);
      assert mid + Subtrees(p, rest) == seen + Subtrees(p, fs);
      assert fs == [f] + rest;
      WalkStep(lists, p.Keys, f, rest, seen);
    }
  }

  /** The walk below one folder: its own block, its own subtree. */
  lemma {:induction false} WalkIsBlock(lists: Lists, p: Parents, k: Key, f: Row, seen: set<Id>)
    requires Shape(lists, p) && Tiled(lists, p) && Within(lists, p.Keys)
    requires f.id in p && p[f.id] == k
    requires Subtree(p, f.id) !! seen
    ensures f.id !in seen
    ensures var below := Walk(lists, p.Keys, GroupOf(lists, Some(f.id)), seen + {f.id});
            [f] + below.out == Block(lists, p, f) && below.seen == seen + Subtree(p, f.id)
    decreases Under(p, k), 0
  {
    var kids := GroupOf(lists, Some(f.id));
    SubtreeUnder(p, f.id);
    assert Under(p, Some(f.id)) < Under(p, k);
    WalkIsBlocks(lists, p, Some(f.id), kids, seen + {f.id});
    assert seen + {f.id} + Subtrees(p, kids) == seen + Subtree(p, f.id);
  }

  lemma {:induction false} RestDisjoint(p: Parents, f: Row, rest: seq<Row>)
    requires Acyclic(p) && f.id in p && forall g :: g in rest ==> g.id in p && p[g.id] == p[f.id] && g.id != f.id
    ensures Subtree(p, f.id) !! Subtrees(p, rest)
  {
    if rest == [] {
    } else {
      SiblingsDisjoint(p, f.id, rest[0].id);
      RestDisjoint(p, f, rest[1..]);
    }
  }

  // ---- A suite's own lists are such a tree ----

  lemma {:induction false} InsertedDistinct(x: Row, xs: seq<Row>)
    requires DistinctIds(xs) && forall y :: y in xs ==> y.id != x.id
    ensures DistinctIds(Inserted(x, xs))
  {
    if xs == [] || NotAfter(RankOf(x), RankOf(xs[0])) {
    } else {
      InsertedDistinct(x, xs[1..]);
      InsertedSame(x, xs[1..]);
      assert forall y :: y in Inserted(x, xs[1..]) ==> y.id != xs[0].id;
    }
  }

  lemma {:induction false} SortDistinct(xs: seq<Row>)
    requires DistinctIds(xs)
    ensures DistinctIds(StableSort(xs))
  {
    if xs == [] {
    } else {
      SortDistinct(xs[1..]);
      forall y
        ensures y in StableSort(xs[1..]) ==> y.id != xs[0].id
      {
        StableSortMember(xs[1..], y);
      }
      InsertedDistinct(xs[0], StableSort(xs[1..]));
    }
  }

  lemma {:induction false} ListsAreShape(folders: seq<Row>)
    requires DistinctIds(folders) && Acyclic(ParentsIn(folders))
    ensures Shape(ListsOf(folders), ParentsIn(folders))
    ensures Complete(ListsOf(folders), ParentsIn(folders))
  {
    var lists, p := ListsOf(folders), ParentsIn(folders);
    ListsOfAll(folders);
    forall k
      ensures forall f :: f in GroupOf(lists, k) ==> f.id in p && p[f.id] == k
      ensures DistinctIds(GroupOf(lists, k))
    {
      ChildrenMembers(folders, k);
      FilterDistinct(folders, UnderList(IdsOf(folders), k));
      SortDistinct(Filter(folders, UnderList(IdsOf(folders), k)));
    }
    forall f | f in p
      ensures exists r :: r in GroupOf(lists, p[f]) && r.id == f
    {
      var r :| r in folders && r.id == f;
      ChildrenMember(folders, p[f], r);
    }
  }

  lemma {:induction false} ListsAreTiled(folders: seq<Row>)
    requires DistinctIds(folders) && Acyclic(ParentsIn(folders))
    ensures Shape(ListsOf(folders), ParentsIn(folders)) && Tiled(ListsOf(folders), ParentsIn(folders))
    ensures ParentsIn(folders).Keys == IdsOf(folders)
  {
    var lists, p := ListsOf(folders), ParentsIn(folders);
    ListsAreShape(folders);
    forall f | f in p
      ensures Subtree(p, f) == {f} + Subtrees(p, GroupOf(lists, Some(f)))
      ensures f !in Subtrees(p, GroupOf(lists, Some(f)))
    {
      SubtreeParts(lists, p, f);
    }
  }

  lemma {:induction false} UnderSomeRoot(lists: Lists, p: Parents, d: Id)
    requires Shape(lists, p) && Complete(lists, p) && Acyclic(p) && d in p
    requires forall f :: f in p && p[f].Some? ==> p[f].value in p
    ensures d in Subtrees(p, GroupOf(lists, None))
  {
    var n: nat :| Ancestor(p, d, n) == None;
    var r := RootAbove(p, d, n);
    var row :| row in GroupOf(lists, p[r]) && row.id == r;
    assert d in Subtree(p, row.id);
    InSubtrees(p, GroupOf(lists, None), d);
  }

  lemma {:induction false} RootsCoverAll(lists: Lists, p: Parents)
    requires Shape(lists, p) && Complete(lists, p) && Acyclic(p)
    requires forall f :: f in p && p[f].Some? ==> p[f].value in p
    ensures Subtrees(p, GroupOf(lists, None)) == p.Keys
  {
    forall d | d in p
      ensures d in Subtrees(p, GroupOf(lists, None))
    {
      UnderSomeRoot(lists, p, d);
    }
    SubtreesAreRows(p, GroupOf(lists, None));
  }

  lemma {:induction false} RootsCover(folders: seq<Row>)
    requires DistinctIds(folders) && Acyclic(ParentsIn(folders))
    ensures Subtrees(ParentsIn(folders), GroupOf(ListsOf(folders), None)) == IdsOf(folders)
  {
    ListsAreShape(folders);
    RootsCoverAll(ListsOf(folders), ParentsIn(folders));
  }

  lemma {:induction false} SubtreesAreRows(p: Parents, fs: seq<Row>)
    ensures Subtrees(p, fs) <= p.Keys
  {
    if fs == [] {
    } else {
      SubtreesAreRows(p, fs[1..]);
    }
  }

  /** The suite's folders as blocks: each root and its subtree, roots in sibling order. */
  ghost function TreeOrder(folders: seq<Row>): seq<Row>
    requires DistinctIds(folders) && Acyclic(ParentsIn(folders))
  {
    ListsAreShape(folders);
    Blocks(ListsOf(folders), ParentsIn(folders), None, GroupOf(ListsOf(folders), None))
  }

  lemma {:induction false} WalkAllSeen(lists: Lists, ids: set<Id>, fs: seq<Row>)
    requires Within(lists, ids) && forall f :: f in fs ==> f.id in ids
    ensures Walk(lists, ids, fs, ids) == Visit([], ids)
  {
    if fs == [] {
    } else {
      WalkAllSeen(lists, ids, fs[1..]);
    }
  }

  lemma {:induction false} NothingUnseen(folders: seq<Row>)
    ensures Filter(folders, Unseen(IdsOf(folders))) == []
  {
    assert forall f :: f in folders ==> f.id in IdsOf(folders);
    FilterNone(folders, Unseen(IdsOf(folders)));
  }

  lemma {:induction false} RootWalkOver(lists: Lists, p: Parents)
    requires Shape(lists, p) && Tiled(lists, p) && Within(lists, p.Keys)
    requires Subtrees(p, GroupOf(lists, None)) == p.Keys
    ensures RootWalk(lists, p.Keys) == Visit(Blocks(lists, p, None, GroupOf(lists, None)), p.Keys)
  {
    WalkIsBlocks(lists, p, None, GroupOf(lists, None), {});
  }

  lemma {:induction false} RootWalkIsTree(folders: seq<Row>)
    requires DistinctIds(folders) && Acyclic(ParentsIn(folders))
    ensures Within(ListsOf(folders), IdsOf(folders))
    ensures RootWalk(ListsOf(folders), IdsOf(folders)) == Visit(TreeOrder(folders), IdsOf(folders))
  {
    ListsOfAll(folders);
    ListsAreTiled(folders);
    RootsCover(folders);
    RootWalkOver(ListsOf(folders), ParentsIn(folders));
  }

  /** With acyclic parents `orderSuiteFolders` is the plain preorder of the tree. */
  lemma {:induction false} FolderOrderIsTree(folders: seq<Row>)
    requires DistinctIds(folders) && Acyclic(ParentsIn(folders))
    ensures FolderOrder(folders) == TreeOrder(folders)
  {
    FolderOrderParts(folders);
    RootWalkIsTree(folders);
    NothingUnseen(folders);
    var ids := IdsOf(folders);
    AppendNothing(FolderOrder(folders), RootWalk(ListsOf(folders), ids).out, Filter(folders, Unseen(ids)));
  }

  lemma {:induction false} AppendNothing(c: seq<Row>, a: seq<Row>, b: seq<Row>)
    requires c == a + b && b == []
    ensures c == a
  {
  }

  lemma {:induction false} FullWalkIsTree(folders: seq<Row>)
    requires DistinctIds(folders) && Acyclic(ParentsIn(folders))
    ensures FullWalk(folders).out == TreeOrder(folders)
  {
    FullWalkParts(folders);
    RootWalkIsTree(folders);
    WalkAllSeen(ListsOf(folders), IdsOf(folders), folders);
  }

  // ---- The documented rule ----

  /** "The level's own requests run first, then each child folder, whole": one folder. */
  ghost function Level(lists: Lists, p: Parents, groups: Lists, f: Row): seq<Row>
    requires Shape(lists, p) && f.id in p
    decreases Subtree(p, f.id), 0, 0
  {
    BelowSelf(p, f.id);
    assert Under(p, Some(f.id)) < Subtree(p, f.id);
    GroupOf(groups, Some(f.id)) + Levels(lists, p, groups, Some(f.id), GroupOf(lists, Some(f.id)))
  }

  ghost function Levels(lists: Lists, p: Parents, groups: Lists, k: Key, fs: seq<Row>): seq<Row>
    requires Shape(lists, p) && forall f :: f in fs ==> f.id in p && p[f.id] == k
    decreases Under(p, k), 1, |fs|
  {
    if fs == [] then []
    else
      SubtreeUnder(p, fs[0].id);
      Level(lists, p, groups, fs[0]) + Levels(lists, p, groups, k, fs[1..])
  }

  lemma {:induction false} LevelsAreItems(lists: Lists, p: Parents, groups: Lists, k: Key, fs: seq<Row>)
    requires Shape(lists, p) && forall f :: f in fs ==> f.id in p && p[f.id] == k
    ensures Levels(lists, p, groups, k, fs) == ItemsIn(groups, Blocks(lists, p, k, fs))
    decreases Under(p, k), 1, |fs|
  {
    if fs == [] {
    } else {
      SubtreeUnder(p, fs[0].id);
      LevelIsItems(lists, p, groups, fs[0]);
      LevelsAreItems(lists, p, groups, k, fs[1..]);
      ItemsInAppend(groups, Block(lists, p, fs[0]), Blocks(lists, p, k, fs[1..]));
    }
  }

  lemma {:induction false} LevelIsItems(lists: Lists, p: Parents, groups: Lists, f: Row)
    requires Shape(lists, p) && f.id in p
    ensures Level(lists, p, groups, f) == ItemsIn(groups, Block(lists, p, f))
    decreases Subtree(p, f.id), 0, 0
  {
    BelowSelf(p, f.id);
    assert Under(p, Some(f.id)) < Subtree(p, f.id);
    var kids := Blocks(lists, p, Some(f.id), GroupOf(lists, Some(f.id)));
    LevelsAreItems(lists, p, groups, Some(f.id), GroupOf(lists, Some(f.id)));
    assert ([f] + kids)[1..] == kids;
  }

  /** The order the module documents: the root's items, each root folder's level, then the dangling items. */
  ghost function DocumentedOrder(items: seq<Row>, folders: seq<Row>): seq<Row>
    requires DistinctIds(folders) && Acyclic(ParentsIn(folders))
  {
    ListsAreShape(folders);
    var lists, p, ids := ListsOf(folders), ParentsIn(folders), IdsOf(folders);
    ItemsOf(items, None) + Levels(lists, p, GroupsOf(items, ids), None, GroupOf(lists, None)) + DanglingItems(items, ids)
  }

  /** With acyclic parents `orderSuiteItems`, for all its `seen` bookkeeping, is that rule. */
  lemma {:induction false} ItemOrderIsDocumented(items: seq<Row>, folders: seq<Row>)
    requires DistinctIds(folders) && Acyclic(ParentsIn(folders))
    ensures ItemOrder(items, folders) == DocumentedOrder(items, folders)
  {
    FullWalkIsTree(folders);
    ListsAreShape(folders);
    LevelsAreItems(ListsOf(folders), ParentsIn(folders), GroupsOf(items, IdsOf(folders)), None, GroupOf(ListsOf(folders), None));
  }

  // ---- A folder's subtree is one contiguous block ----

  lemma {:induction false} BlocksIds(lists: Lists, p: Parents, k: Key, fs: seq<Row>)
    requires Shape(lists, p) && Tiled(lists, p) && forall f :: f in fs ==> f.id in p && p[f.id] == k
    ensures IdsOf(Blocks(lists, p, k, fs)) == Subtrees(p, fs)
    decreases Under(p, k), 1, |fs|
  {
    if fs == [] {
      assert Blocks(lists, p, k, fs) == [];
    } else {
      SubtreeUnder(p, fs[0].id);
      BlockIds(lists, p, fs[0]);
      BlocksIds(lists, p, k, fs[1..]);
      var a, b := Block(lists, p, fs[0]), Blocks(lists, p, k, fs[1..]);
      assert forall g :: g in a + b <==> g in a || g in b;
      assert IdsOf(a + b) == IdsOf(a) + IdsOf(b);
    }
  }

  lemma {:induction false} BlockIds(lists: Lists, p: Parents, f: Row)
    requires Shape(lists, p) && Tiled(lists, p) && f.id in p
    ensures IdsOf(Block(lists, p, f)) == Subtree(p, f.id)
    decreases Subtree(p, f.id), 0, 0
  {
    BelowSelf(p, f.id);
    assert Under(p, Some(f.id)) < Subtree(p, f.id);
    var kids := Blocks(lists, p, Some(f.id), GroupOf(lists, Some(f.id)));
    BlocksIds(lists, p, Some(f.id), GroupOf(lists, Some(f.id)));
    assert [f] + kids + [] == [f] + kids;
    IdsOfBlock(f, kids, []);
  }

  lemma {:induction false} InOwnBlock(own: seq<Row>, f: Row, kids: seq<Row>, b: seq<Row>, m: seq<Row>, a: seq<Row>, rest: seq<Row>)
    requires own == [f] + kids && kids == b + m + a
    ensures own + rest == ([f] + b) + m + (a + rest)
  {
  }

  lemma {:induction false} InLaterBlock(own: seq<Row>, b: seq<Row>, m: seq<Row>, a: seq<Row>, rest: seq<Row>)
    requires rest == b + m + a
    ensures own + rest == (own + b) + m + a
  {
  }

  /** Where folder `d` starts: what comes before its block and after it. */
  lemma {:induction false} FindBlock(lists: Lists, p: Parents, k: Key, fs: seq<Row>, d: Id)
    returns (before: seq<Row>, row: Row, after: seq<Row>)
    requires Shape(lists, p) && Tiled(lists, p) && forall f :: f in fs ==> f.id in p && p[f.id] == k
    requires d in Subtrees(p, fs)
    ensures row.id == d && d in p
    ensures Blocks(lists, p, k, fs) == before + Block(lists, p, row) + after
    decreases Under(p, k), |fs|
  {
    var f, rest := fs[0], fs[1..];
    var own, others := Block(lists, p, f), Blocks(lists, p, k, rest);
    SubtreeUnder(p, f.id);
    assert Blocks(lists, p, k, fs) == own + others;
    var b, a;
    if d == f.id {
      before, row, after := [], f, others;
      assert [] + own == own;
    } else if d in Subtree(p, f.id) {
      var kids := Blocks(lists, p, Some(f.id), GroupOf(lists, Some(f.id)));
      assert own == [f] + kids;
      assert Under(p, Some(f.id)) < Under(p, k);
      b, row, a := FindBlock(lists, p, Some(f.id), GroupOf(lists, Some(f.id)), d);
      before, after := [f] + b, a + others;
      InOwnBlock(own, f, kids, b, Block(lists, p, row), a, others);
    } else {
      b, row, after := FindBlock(lists, p, k, rest, d);
      before := own + b;
      InLaterBlock(own, b, Block(lists, p, row), after, others);
    }
  }

  /** Each folder's whole subtree, and nothing else, stands in one piece behind it. */
  lemma {:induction false} SubtreeIsContiguous(folders: seq<Row>, d: Id)
    requires DistinctIds(folders) && Acyclic(ParentsIn(folders)) && d in IdsOf(folders)
    ensures exists before: seq<Row>, block: seq<Row>, after: seq<Row> ::
              && FolderOrder(folders) == before + block + after
              && block != [] && block[0].id == d
              && IdsOf(block) == Subtree(ParentsIn(folders), d)
  {
    var lists, p := ListsOf(folders), ParentsIn(folders);
    FolderOrderIsTree(folders);
    ListsAreTiled(folders);
    RootsCover(folders);
    var before, row, after := FindBlock(lists, p, None, GroupOf(lists, None), d);
    BlockIds(lists, p, row);
    var block := Block(lists, p, row);
    assert FolderOrder(folders) == before + block + after;
  }
}
