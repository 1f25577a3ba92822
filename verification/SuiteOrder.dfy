/** `suite-order.ts`: the one definition of a test suite's execution order, safe on dangling
    and cyclic parents. */
module SuiteOrder {
  import opened Options
  import opened SiblingOrder
  import opened Sequences
  import opened SuiteRows

  function IdsOf(folders: seq<Row>): set<Id> {
    set f | f in folders :: f.id
  }

  function Children(folders: seq<Row>, k: Key): seq<Row> {
    StableSort(Filter(folders, UnderList(IdsOf(folders), k)))
  }

  function ItemsOf(items: seq<Row>, k: Key): seq<Row> {
    StableSort(Filter(items, InFolder(k)))
  }

  function DanglingItems(items: seq<Row>, ids: set<Id>): seq<Row> {
    StableSort(Filter(items, Dangling(ids)))
  }

  lemma {:induction false} ChildrenMember(folders: seq<Row>, k: Key, f: Row)
    ensures f in Children(folders, k) <==> f in folders && ListKey(IdsOf(folders), f) == k
  {
    var t := UnderList(IdsOf(folders), k);
    StableSortMember(Filter(folders, t), f);
    FilterMember(folders, t, f);
  }

  lemma {:induction false} ChildrenMembers(folders: seq<Row>, k: Key)
    ensures forall f :: f in Children(folders, k) <==> f in folders && ListKey(IdsOf(folders), f) == k
  {
    forall f {
      ChildrenMember(folders, k, f);
    }
  }

  /** Every list the walk can ask for: the root's and each folder's. */
  ghost function ListsOf(folders: seq<Row>): Lists {
    map k | k in {None} + (set id | id in IdsOf(folders) :: Some(id)) :: Children(folders, k)
  }

  lemma {:induction false} ListsOfAll(folders: seq<Row>)
    ensures forall k :: GroupOf(ListsOf(folders), k) == Children(folders, k)
    ensures Within(ListsOf(folders), IdsOf(folders))
  {
    forall k
      ensures GroupOf(ListsOf(folders), k) == Children(folders, k)
      ensures forall f :: f in Children(folders, k) ==> f.id in IdsOf(folders)
    {
      ChildrenMembers(folders, k);
      if k.Some? && k.value !in IdsOf(folders) {
        FilterNone(folders, UnderList(IdsOf(folders), k));
      }
    }
  }

  /** The folders in the lists are folders of the suite. */
  ghost predicate Within(lists: Lists, ids: set<Id>) {
    forall k, f :: f in GroupOf(lists, k) ==> f.id in ids
  }

  // ---- The walk: folders in visiting order, and the ids seen ----

  datatype Visit = Visit(out: seq<Row>, seen: set<Id>)

  /** What walking the list `fs` visits when `seen` was seen before. */
  ghost function Walk(lists: Lists, ids: set<Id>, fs: seq<Row>, seen: set<Id>): (v: Visit)
    requires Within(lists, ids) && forall f :: f in fs ==> f.id in ids
    ensures seen <= v.seen
    decreases ids - seen, |fs|
  {
    if fs == [] then Visit([], seen)
    else
      var f := fs[0];
      if f.id in seen then Walk(lists, ids, fs[1..], seen)
      else
        assert f.id in ids - seen;
        var below := Walk(lists, ids, GroupOf(lists, Some(f.id)), seen + {f.id});
        assert ids - below.seen < ids - seen;
        var rest := Walk(lists, ids, fs[1..], below.seen);
        Visit([f] + below.out + rest.out, rest.seen)
  }

  /** One turn of the loop over a list. */
  lemma {:induction false} WalkStep(lists: Lists, ids: set<Id>, f: Row, rest: seq<Row>, seen: set<Id>)
    requires Within(lists, ids) && f.id in ids && forall g :: g in rest ==> g.id in ids
    ensures f.id !in seen ==> ids - (seen + {f.id}) < ids - seen
    ensures Walk(lists, ids, [f] + rest, seen) ==
            if f.id in seen then Walk(lists, ids, rest, seen)
            else
              var below := Walk(lists, ids, GroupOf(lists, Some(f.id)), seen + {f.id});
              var after := Walk(lists, ids, rest, below.seen);
              Visit([f] + below.out + after.out, after.seen)
  {
    assert ([f] + rest)[1..] == rest;
    assert f.id !in seen ==> f.id in ids - seen;
  }

  ghost predicate DistinctIds(fs: seq<Row>) {
    forall i, j :: 0 <= i < j < |fs| ==> fs[i].id != fs[j].id
  }

  /** A walk visits exactly the ids it adds to `seen`, each once, and everything it was given. */
  lemma {:induction false} WalkVisits(lists: Lists, ids: set<Id>, fs: seq<Row>, seen: set<Id>)
    requires Within(lists, ids) && forall f :: f in fs ==> f.id in ids
    ensures var v := Walk(lists, ids, fs, seen);
            && DistinctIds(v.out)
            && IdsOf(v.out) == v.seen - seen
            && v.seen <= seen + ids
            && (forall f :: f in fs ==> f.id in v.seen)
    decreases ids - seen, |fs|
  {
    if fs == [] {
    } else {
      var f, v := fs[0], Walk(lists, ids, fs, seen);
      if f.id in seen {
        WalkVisits(lists, ids, fs[1..], seen);
      } else {
        assert f.id in ids - seen;
        var below := Walk(lists, ids, GroupOf(lists, Some(f.id)), seen + {f.id});
        WalkVisits(lists, ids, GroupOf(lists, Some(f.id)), seen + {f.id});
        var rest := Walk(lists, ids, fs[1..], below.seen);
        assert ids - below.seen < ids - seen;
        WalkVisits(lists, ids, fs[1..], below.seen);
        JoinVisits(f, below.out, rest.out, seen, below.seen);
      }
      assert forall g :: g in fs ==> g == f || g in fs[1..];
    }
  }

  lemma {:induction false} JoinVisits(f: Row, a: seq<Row>, b: seq<Row>, seen: set<Id>, mid: set<Id>)
    requires f.id !in seen && seen + {f.id} <= mid
    requires DistinctIds(a) && IdsOf(a) == mid - (seen + {f.id})
    requires DistinctIds(b) && IdsOf(b) !! mid
    ensures DistinctIds([f] + a + b)
    ensures IdsOf([f] + a + b) == IdsOf(b) + (mid - seen)
  {
    assert forall g :: g in a ==> g.id in IdsOf(a);
    assert forall g :: g in b ==> g.id in IdsOf(b);
    IdsOfBlock(f, a, b);
  }

  lemma {:induction false} IdsOfBlock(f: Row, a: seq<Row>, b: seq<Row>)
    ensures IdsOf([f] + a + b) == {f.id} + IdsOf(a) + IdsOf(b)
  {
    var all := [f] + a + b;
    assert forall g :: g in all <==> g == f || g in a || g in b;
    forall id
      ensures id in IdsOf(all) <==> id in {f.id} + IdsOf(a) + IdsOf(b)
    {
      if g :| g in all && g.id == id {
      }
      assert f in all;
    }
  }

  /** Only the lists' contents matter. */
  lemma {:induction false} WalkSameLists(a: Lists, b: Lists, ids: set<Id>, fs: seq<Row>, seen: set<Id>)
    requires Within(a, ids) && Within(b, ids) && forall f :: f in fs ==> f.id in ids
    requires forall k :: GroupOf(a, k) == GroupOf(b, k)
    ensures Walk(a, ids, fs, seen) == Walk(b, ids, fs, seen)
    decreases ids - seen, |fs|
  {
    if fs == [] {
    } else {
      var f := fs[0];
      if f.id in seen {
        WalkSameLists(a, b, ids, fs[1..], seen);
      } else {
        assert f.id in ids - seen;
        WalkSameLists(a, b, ids, GroupOf(a, Some(f.id)), seen + {f.id});
        var below := Walk(a, ids, GroupOf(a, Some(f.id)), seen + {f.id});
        assert ids - below.seen < ids - seen;
        WalkSameLists(a, b, ids, fs[1..], below.seen);
      }
    }
  }

  /** The walk from the suite root. */
  ghost function RootWalk(lists: Lists, ids: set<Id>): Visit
    requires Within(lists, ids)
  {
    Walk(lists, ids, GroupOf(lists, None), {})
  }

  /** `orderSuiteFolders`: the root walk, then the folders it never reached. */
  ghost function FolderOrder(folders: seq<Row>): seq<Row> {
    ListsOfAll(folders);
    var v := RootWalk(ListsOf(folders), IdsOf(folders));
    v.out + Filter(folders, Unseen(v.seen))
  }

  /** Every folder `orderSuiteItems` walks, in order: the root walk, then whatever a cycle kept from it. */
  ghost function FullWalk(folders: seq<Row>): Visit {
    ListsOfAll(folders);
    var lists, ids := ListsOf(folders), IdsOf(folders);
    var v := RootWalk(lists, ids);
    var w := Walk(lists, ids, folders, v.seen);
    Visit(v.out + w.out, w.seen)
  }

  /** The root's items and each folder's. */
  ghost function GroupsOf(items: seq<Row>, ids: set<Id>): Lists {
    map k | k in {None} + (set id | id in ids :: Some(id)) :: ItemsOf(items, k)
  }

  function ItemsIn(groups: Lists, fs: seq<Row>): seq<Row> {
    if fs == [] then [] else GroupOf(groups, Some(fs[0].id)) + ItemsIn(groups, fs[1..])
  }

  /** `orderSuiteItems`: the root's items, each walked folder's items, the dangling ones. */
  ghost function ItemOrder(items: seq<Row>, folders: seq<Row>): seq<Row> {
    var ids := IdsOf(folders);
    ItemsOf(items, None) + ItemsIn(GroupsOf(items, ids), FullWalk(folders).out) + DanglingItems(items, ids)
  }

  // ---- The loops of `suite-order.ts` ----

  class FolderWalker {
    const ids: set<Id>
    const childrenOf: Lists
    var out: seq<Row>
    var seen: set<Id>

    constructor (ids: set<Id>, childrenOf: Lists)
      ensures this.ids == ids && this.childrenOf == childrenOf && out == [] && seen == {}
    {
      this.ids, this.childrenOf, out, seen := ids, childrenOf, [], {};
    }

    method WalkFrom(parent: Key)
      requires Within(childrenOf, ids)
      modifies this
      ensures var v := Walk(childrenOf, ids, GroupOf(childrenOf, parent), old(seen));
              out == old(out) + v.out && seen == v.seen
      decreases ids - seen
    {
      var list := GroupOf(childrenOf, parent);
      ghost var v := Walk(childrenOf, ids, list, seen);
      assert list[0..] == list;
      for i := 0 to |list|
        invariant old(seen) <= seen
        invariant var w := Walk(childrenOf, ids, list[i..], seen);
                  out + w.out == old(out) + v.out && w.seen == v.seen
      {
        assert list[i..] == [list[i]] + list[i + 1..];
        WalkStep(childrenOf, ids, list[i], list[i + 1..], seen);
        if list[i].id in seen {
          continue;
        }
        ghost var after := out + Walk(childrenOf, ids, list[i..], seen).out;
        seen := seen + {list[i].id};
        out := out + [list[i]];
        WalkFrom(Some(list[i].id));
        assert out + Walk(childrenOf, ids, list[i + 1..], seen).out == after;
      }
    }
  }

  /** The grouping loops build the lists the specification walks. */
  lemma {:induction false} SameWalks(childrenOf: Lists, folders: seq<Row>)
    requires forall k :: GroupOf(childrenOf, k) == Children(folders, k)
    requires Within(childrenOf, IdsOf(folders))
    ensures Within(ListsOf(folders), IdsOf(folders))
    ensures RootWalk(childrenOf, IdsOf(folders)) == RootWalk(ListsOf(folders), IdsOf(folders))
    ensures var seen := RootWalk(childrenOf, IdsOf(folders)).seen;
            Walk(childrenOf, IdsOf(folders), folders, seen) == Walk(ListsOf(folders), IdsOf(folders), folders, seen)
  {
    ListsOfAll(folders);
    var ids := IdsOf(folders);
    WalkSameLists(childrenOf, ListsOf(folders), ids, GroupOf(childrenOf, None), {});
    WalkSameLists(childrenOf, ListsOf(folders), ids, folders, RootWalk(childrenOf, ids).seen);
  }

  /** Walking `lists` is walking the suite's lists. */
  ghost predicate WalksLike(lists: Lists, folders: seq<Row>) {
    var ids := IdsOf(folders);
    && Within(lists, ids) && Within(ListsOf(folders), ids)
    && RootWalk(lists, ids) == RootWalk(ListsOf(folders), ids)
    && Walk(lists, ids, folders, RootWalk(lists, ids).seen) == Walk(ListsOf(folders), ids, folders, RootWalk(lists, ids).seen)
  }

  method ChildrenByParent(folders: seq<Row>) returns (childrenOf: Lists)
    ensures WalksLike(childrenOf, folders)
  {
    childrenOf := GroupFolders(folders, IdsOf(folders));
    forall k
      ensures GroupOf(childrenOf, k) == Children(folders, k)
      ensures forall f :: f in GroupOf(childrenOf, k) ==> f.id in IdsOf(folders)
    {
      ChildrenMembers(folders, k);
    }
    SameWalks(childrenOf, folders);
  }

  lemma {:induction false} FolderOrderParts(folders: seq<Row>)
    ensures Within(ListsOf(folders), IdsOf(folders))
    ensures var v := RootWalk(ListsOf(folders), IdsOf(folders));
            FolderOrder(folders) == v.out + Filter(folders, Unseen(v.seen))
  {
    ListsOfAll(folders);
  }

  method OrderSuiteFolders(folders: seq<Row>) returns (out: seq<Row>)
    ensures out == FolderOrder(folders)
  {
    var ids := IdsOf(folders);
    var childrenOf := ChildrenByParent(folders);
    var walker := new FolderWalker(ids, childrenOf);
    walker.WalkFrom(None);
    assert walker.out == RootWalk(childrenOf, ids).out;
    var left := NotReached(folders, walker.seen);
    FolderOrderParts(folders);
    out := walker.out + left;
  }

  /** `for (const f of folders) if (!seen.has(f.id)) out.push(f)`. */
  method NotReached(folders: seq<Row>, seen: set<Id>) returns (out: seq<Row>)
    ensures out == Filter(folders, Unseen(seen))
  {
    out := [];
    assert folders[0..] == folders;
    for i := 0 to |folders|
      invariant out + Filter(folders[i..], Unseen(seen)) == Filter(folders, Unseen(seen))
    {
      assert folders[i..][1..] == folders[i + 1..];
      if folders[i].id !in seen {
        out := out + [folders[i]];
      }
    }
  }

  class ItemWalker {
    const ids: set<Id>
    const childrenOf: Lists
    const itemsOf: Lists
    var out: seq<Row>
    var seen: set<Id>

    constructor (ids: set<Id>, childrenOf: Lists, itemsOf: Lists)
      ensures this.ids == ids && this.childrenOf == childrenOf && this.itemsOf == itemsOf
      ensures out == [] && seen == {}
    {
      this.ids, this.childrenOf, this.itemsOf, out, seen := ids, childrenOf, itemsOf, [], {};
    }

    method WalkFrom(folderId: Key)
      requires Within(childrenOf, ids)
      modifies this
      ensures var v := Walk(childrenOf, ids, GroupOf(childrenOf, folderId), old(seen));
              out == old(out) + GroupOf(itemsOf, folderId) + ItemsIn(itemsOf, v.out) && seen == v.seen
      decreases ids - seen
    {
      out := out + GroupOf(itemsOf, folderId);
      VisitEach(GroupOf(childrenOf, folderId));
    }

    /** The `for ... if (seen.has(f.id)) continue; seen.add(f.id); walk(f.id)` loop, used for a
        folder's children and once more for the folders only a cycle reaches. */
    method VisitEach(list: seq<Row>)
      requires Within(childrenOf, ids) && forall f :: f in list ==> f.id in ids
      modifies this
      ensures var v := Walk(childrenOf, ids, list, old(seen));
              out == old(out) + ItemsIn(itemsOf, v.out) && seen == v.seen
      decreases ids - seen, 0
    {
      ghost var v := Walk(childrenOf, ids, list, seen);
      assert list[0..] == list;
      for i := 0 to |list|
        invariant old(seen) <= seen
        invariant var w := Walk(childrenOf, ids, list[i..], seen);
                  out + ItemsIn(itemsOf, w.out) == old(out) + ItemsIn(itemsOf, v.out) && w.seen == v.seen
      {
        assert list[i..] == [list[i]] + list[i + 1..];
        WalkStep(childrenOf, ids, list[i], list[i + 1..], seen);
        if list[i].id in seen {
          continue;
        }
        ghost var below := Walk(childrenOf, ids, GroupOf(childrenOf, Some(list[i].id)), seen + {list[i].id});
        ghost var rest := Walk(childrenOf, ids, list[i + 1..], below.seen);
        ItemsBehind(itemsOf, out, list[i], below.out, rest.out);
        seen := seen + {list[i].id};
        WalkFrom(Some(list[i].id));
      }
    }
  }

  lemma {:induction false} ItemsInBlock(groups: Lists, f: Row, below: seq<Row>, after: seq<Row>)
    ensures ItemsIn(groups, [f] + below + after) ==
            GroupOf(groups, Some(f.id)) + ItemsIn(groups, below) + ItemsIn(groups, after)
  {
    assert [f] + below + after == [f] + (below + after);
    ItemsInAppend(groups, [f], below + after);
    ItemsInAppend(groups, below, after);
    assert [f][1..] == [];
  }

  lemma {:induction false} ItemsBehind(groups: Lists, before: seq<Row>, f: Row, below: seq<Row>, after: seq<Row>)
    ensures before + ItemsIn(groups, [f] + below + after) ==
            before + GroupOf(groups, Some(f.id)) + ItemsIn(groups, below) + ItemsIn(groups, after)
  {
    ItemsInBlock(groups, f, below, after);
    var own, under, later := GroupOf(groups, Some(f.id)), ItemsIn(groups, below), ItemsIn(groups, after);
    Regrouped(before, own + under, later);
    Regrouped(before, own, under);
  }

  lemma {:induction false} ItemsInAppend(groups: Lists, a: seq<Row>, b: seq<Row>)
    ensures ItemsIn(groups, a + b) == ItemsIn(groups, a) + ItemsIn(groups, b)
  {
    if a == [] {
      assert a + b == b;
    } else {
      assert (a + b)[1..] == a[1..] + b && (a + b)[0] == a[0];
      ItemsInAppend(groups, a[1..], b);
      var head := GroupOf(groups, Some(a[0].id));
      assert ItemsIn(groups, a + b) == head + ItemsIn(groups, a[1..] + b);
      assert head + (ItemsIn(groups, a[1..]) + ItemsIn(groups, b)) == (head + ItemsIn(groups, a[1..])) + ItemsIn(groups, b);
    }
  }

  lemma {:induction false} ItemsInSame(a: Lists, b: Lists, fs: seq<Row>)
    requires forall f :: f in fs ==> GroupOf(a, Some(f.id)) == GroupOf(b, Some(f.id))
    ensures ItemsIn(a, fs) == ItemsIn(b, fs)
  {
    if fs == [] {
    } else {
      ItemsInSame(a, b, fs[1..]);
    }
  }

  /** The full walk is the root walk and then the walk of the whole list. */
  lemma {:induction false} FullWalkParts(folders: seq<Row>)
    ensures Within(ListsOf(folders), IdsOf(folders))
    ensures var ids := IdsOf(folders);
            var v := RootWalk(ListsOf(folders), ids);
            var w := Walk(ListsOf(folders), ids, folders, v.seen);
            FullWalk(folders) == Visit(v.out + w.out, w.seen)
  {
    ListsOfAll(folders);
  }

  lemma {:induction false} JoinWalks(a: seq<Row>, b: seq<Row>, seen: set<Id>, all: set<Id>)
    requires DistinctIds(a) && IdsOf(a) == seen
    requires DistinctIds(b) && IdsOf(b) == all - seen && seen <= all
    ensures DistinctIds(a + b) && IdsOf(a + b) == all
  {
    assert forall f :: f in a ==> f.id in IdsOf(a);
    assert forall f :: f in b ==> f.id in IdsOf(b);
    assert forall f :: f in a + b <==> f in a || f in b;
    assert IdsOf(a + b) == IdsOf(a) + IdsOf(b);
  }

  /** It meets every folder id exactly once, whatever the parents are. */
  lemma {:induction false} FullWalkMeetsAll(folders: seq<Row>)
    ensures DistinctIds(FullWalk(folders).out)
    ensures IdsOf(FullWalk(folders).out) == IdsOf(folders)
  {
    FullWalkParts(folders);
    var lists, ids := ListsOf(folders), IdsOf(folders);
    var v := RootWalk(lists, ids);
    WalkVisits(lists, ids, GroupOf(lists, None), {});
    WalkVisits(lists, ids, folders, v.seen);
    var w := Walk(lists, ids, folders, v.seen);
    assert ids <= w.seen by {
      assert forall f :: f in folders ==> f.id in w.seen;
    }
    JoinWalks(v.out, w.out, v.seen, w.seen);
  }

  lemma {:induction false} SameItems(itemsOf: Lists, items: seq<Row>, ids: set<Id>, fs: seq<Row>)
    requires forall k: Key :: (k.None? || k.value in ids) ==> GroupOf(itemsOf, k) == ItemsOf(items, k)
    requires IdsOf(fs) <= ids
    ensures ItemsIn(itemsOf, fs) == ItemsIn(GroupsOf(items, ids), fs)
  {
    assert forall f :: f in fs ==> f.id in IdsOf(fs);
    ItemsInSame(itemsOf, GroupsOf(items, ids), fs);
  }

  lemma {:induction false} ItemOrderFrom(itemsOf: Lists, items: seq<Row>, folders: seq<Row>, a: seq<Row>, b: seq<Row>)
    requires FullWalk(folders).out == a + b
    requires forall k: Key :: (k.None? || k.value in IdsOf(folders)) ==> GroupOf(itemsOf, k) == ItemsOf(items, k)
    ensures ItemOrder(items, folders) ==
            GroupOf(itemsOf, None) + ItemsIn(itemsOf, a) + ItemsIn(itemsOf, b) + DanglingItems(items, IdsOf(folders))
  {
    FullWalkMeetsAll(folders);
    SameItems(itemsOf, items, IdsOf(folders), a + b);
    ItemsInAppend(itemsOf, a, b);
    var own, x, y, last := GroupOf(itemsOf, None), ItemsIn(itemsOf, a), ItemsIn(itemsOf, b), DanglingItems(items, IdsOf(folders));
    Regrouped(own, x, y);
    assert ItemOrder(items, folders) == own + (x + y) + last;
  }

  method OrderSuiteItems(items: seq<Row>, folders: seq<Row>) returns (out: seq<Row>)
    ensures out == ItemOrder(items, folders)
  {
    var ids := IdsOf(folders);
    var itemsOf, dangling := GroupItems(items, ids);
    var childrenOf := ChildrenByParent(folders);
    ghost var v := RootWalk(childrenOf, ids);
    ghost var w := Walk(childrenOf, ids, folders, v.seen);
    FullWalkParts(folders);
    ItemOrderFrom(itemsOf, items, folders, v.out, w.out);
    out := WalkItems(folders, ids, childrenOf, itemsOf);
    out := out + StableSort(dangling);
  }

  method WalkItems(folders: seq<Row>, ids: set<Id>, childrenOf: Lists, itemsOf: Lists) returns (out: seq<Row>)
    requires Within(childrenOf, ids) && ids == IdsOf(folders)
    ensures var v := RootWalk(childrenOf, ids);
            var w := Walk(childrenOf, ids, folders, v.seen);
            out == GroupOf(itemsOf, None) + ItemsIn(itemsOf, v.out) + ItemsIn(itemsOf, w.out)
  {
    var walker := new ItemWalker(ids, childrenOf, itemsOf);
    walker.WalkFrom(None);
    assert walker.out == GroupOf(itemsOf, None) + ItemsIn(itemsOf, RootWalk(childrenOf, ids).out);
    walker.VisitEach(folders);
    out := walker.out;
  }
}
