/** The rows a suite's order is computed from, and the list operations it uses: `filter`, the
    stable `sort`, and grouping rows into a `Map` of lists. */
module SuiteRows {
  import opened Options
  import opened SiblingOrder

  /** `null` or the id of a folder. */
  type Key = Option<Id>

  /** A folder (`within` its parent) or an item (`within` its folder). */
  datatype Row = Row(id: Id, within: Key, sortOrder: int, createdAt: Option<int>)

  /** The properties rows are selected by. */
  datatype Test =
    | UnderList(ids: set<Id>, key: Key)
    | InFolder(key: Key)
    | InFolders(ids: set<Id>)
    | Dangling(ids: set<Id>)
    | Placeless(ids: set<Id>)
    | Unseen(seen: set<Id>)
    | OfRank(rank: Rank)

  /** The list a folder goes into: its parent's when that is among `ids`, the root's otherwise. */
  function ListKey(ids: set<Id>, r: Row): Key {
    if r.within.Some? && r.within.value != "" && r.within.value in ids then r.within else None
  }

  predicate Passes(t: Test, r: Row) {
    match t
    case UnderList(ids, key) => ListKey(ids, r) == key
    case InFolder(key) => r.within == key
    case InFolders(ids) => r.within.Some? && r.within.value in ids
    case Dangling(ids) => r.within.Some? && r.within.value != "" && r.within.value !in ids
    case Placeless(ids) => r.within == Some("") && "" !in ids
    case Unseen(seen) => r.id !in seen
    case OfRank(rank) => RankOf(r) == rank
  }

  function Filter(xs: seq<Row>, p: Test): seq<Row> {
    if xs == [] then []
    else (if Passes(p, xs[0]) then [xs[0]] else []) + Filter(xs[1..], p)
  }

  lemma {:induction false} FilterAppend(xs: seq<Row>, ys: seq<Row>, p: Test)
    ensures Filter(xs + ys, p) == Filter(xs, p) + Filter(ys, p)
  {
    if xs == [] {
      assert xs + ys == ys;
    } else {
      assert (xs + ys)[1..] == xs[1..] + ys && (xs + ys)[0] == xs[0];
      FilterAppend(xs[1..], ys, p);
      var head := if Passes(p, xs[0]) then [xs[0]] else [];
      assert Filter(xs + ys, p) == head + Filter(xs[1..] + ys, p);
      assert Filter(xs, p) == head + Filter(xs[1..], p);
    }
  }

  lemma {:induction false} FilterMember(xs: seq<Row>, p: Test, x: Row)
    ensures x in Filter(xs, p) <==> x in xs && Passes(p, x)
  {
    if xs == [] {
    } else {
      FilterMember(xs[1..], p, x);
      assert x in xs <==> x == xs[0] || x in xs[1..];
    }
  }

  /** How often a row occurs in a selection. */
  lemma {:induction false} FilterCount(xs: seq<Row>, p: Test, x: Row)
    ensures multiset(Filter(xs, p))[x] == if Passes(p, x) then multiset(xs)[x] else 0
  {
    if xs == [] {
    } else {
      FilterCount(xs[1..], p, x);
      assert xs == [xs[0]] + xs[1..];
    }
  }

  lemma {:induction false} FilterNone(xs: seq<Row>, p: Test)
    requires forall x :: x in xs ==> !Passes(p, x)
    ensures Filter(xs, p) == []
  {
    if xs == [] {
    } else {
      FilterNone(xs[1..], p);
    }
  }

  lemma {:induction false} FilterOne(x: Row, p: Test)
    ensures Filter([x], p) == if Passes(p, x) then [x] else []
  {
    assert [x][1..] == [];
  }

  // ---- Stable sort ----

  function OrZero(x: Option<int>): int {
    if x.Some? then x.value else 0
  }

  /** What the comparator `(a.sort_order ?? 0) - (b.sort_order ?? 0) || (a.created_at ?? 0) - (b.created_at ?? 0)` looks at. */
  function RankOf(r: Row): Rank {
    Rank(r.sortOrder, OrZero(r.createdAt))
  }

  function Inserted(x: Row, xs: seq<Row>): seq<Row> {
    if xs == [] || NotAfter(RankOf(x), RankOf(xs[0])) then [x] + xs
    else [xs[0]] + Inserted(x, xs[1..])
  }

  function StableSort(xs: seq<Row>): seq<Row> {
    if xs == [] then [] else Inserted(xs[0], StableSort(xs[1..]))
  }

  ghost predicate InOrder(xs: seq<Row>) {
    forall i, j :: 0 <= i < j < |xs| ==> NotAfter(RankOf(xs[i]), RankOf(xs[j]))
  }

  lemma {:induction false} PrependInOrder(x: Row, xs: seq<Row>)
    requires InOrder(xs) && forall k :: 0 <= k < |xs| ==> NotAfter(RankOf(x), RankOf(xs[k]))
    ensures InOrder([x] + xs)
  {
  }

  lemma {:induction false} InsertedSame(x: Row, xs: seq<Row>)
    ensures multiset(Inserted(x, xs)) == multiset([x] + xs)
    ensures forall y :: y in Inserted(x, xs) ==> y == x || y in xs
  {
    if xs == [] || NotAfter(RankOf(x), RankOf(xs[0])) {
    } else {
      InsertedSame(x, xs[1..]);
      assert xs == [xs[0]] + xs[1..];
    }
  }

  lemma {:induction false} InsertedInOrder(x: Row, xs: seq<Row>)
    requires InOrder(xs)
    ensures InOrder(Inserted(x, xs))
  {
    if xs == [] || NotAfter(RankOf(x), RankOf(xs[0])) {
      PrependInOrder(x, xs);
    } else {
      InsertedInOrder(x, xs[1..]);
      InsertedSame(x, xs[1..]);
      var tail := Inserted(x, xs[1..]);
      forall k | 0 <= k < |tail|
        ensures NotAfter(RankOf(xs[0]), RankOf(tail[k]))
      {
        assert tail[k] in tail;
      }
      PrependInOrder(xs[0], tail);
    }
  }

  lemma {:induction false} InsertedStable(x: Row, xs: seq<Row>, r: Rank)
    ensures Filter(Inserted(x, xs), OfRank(r)) == Filter([x] + xs, OfRank(r))
  {
    var same := OfRank(r);
    FilterAppend([x], xs, same);
    if xs == [] || NotAfter(RankOf(x), RankOf(xs[0])) {
    } else {
      InsertedStable(x, xs[1..], r);
      FilterAppend([x], xs[1..], same);
      FilterAppend([xs[0]], Inserted(x, xs[1..]), same);
    }
  }

  /** A sort: the same rows, in order. */
  lemma {:induction false} StableSortSorts(xs: seq<Row>)
    ensures multiset(StableSort(xs)) == multiset(xs)
    ensures InOrder(StableSort(xs))
  {
    if xs == [] {
    } else {
      StableSortSorts(xs[1..]);
      InsertedSame(xs[0], StableSort(xs[1..]));
      InsertedInOrder(xs[0], StableSort(xs[1..]));
      assert xs == [xs[0]] + xs[1..];
    }
  }

  /** Rows of equal rank keep their relative order. */
  lemma {:induction false} StableSortIsStable(xs: seq<Row>, r: Rank)
    ensures Filter(StableSort(xs), OfRank(r)) == Filter(xs, OfRank(r))
  {
    if xs == [] {
    } else {
      var rest, same := StableSort(xs[1..]), OfRank(r);
      StableSortIsStable(xs[1..], r);
      InsertedStable(xs[0], rest, r);
      FilterAppend([xs[0]], rest, same);
      FilterAppend([xs[0]], xs[1..], same);
      assert xs == [xs[0]] + xs[1..];
    }
  }

  lemma {:induction false} StableSortMember(xs: seq<Row>, x: Row)
    ensures x in StableSort(xs) <==> x in xs
  {
    StableSortSorts(xs);
    assert x in multiset(StableSort(xs)) <==> x in multiset(xs);
  }

  // ---- Grouping ----

  /** A `Map` from key to list, read with `?? []`. */
  type Lists = map<Key, seq<Row>>

  function GroupOf(groups: Lists, k: Key): seq<Row> {
    if k in groups then groups[k] else []
  }

  /** Folders by parent list, each list sorted. */
  method GroupFolders(folders: seq<Row>, ids: set<Id>) returns (groups: Lists)
    ensures forall k :: GroupOf(groups, k) == StableSort(Filter(folders, UnderList(ids, k)))
  {
    groups := map[];
    for i := 0 to |folders|
      invariant forall k :: GroupOf(groups, k) == Filter(folders[..i], UnderList(ids, k))
    {
      var key := ListKey(ids, folders[i]);
      ghost var before := groups;
      groups := groups[key := GroupOf(groups, key) + [folders[i]]];
      assert folders[..i + 1] == folders[..i] + [folders[i]];
      forall k
        ensures GroupOf(groups, k) == Filter(folders[..i + 1], UnderList(ids, k))
      {
        FilterAppend(folders[..i], [folders[i]], UnderList(ids, k));
        FilterOne(folders[i], UnderList(ids, k));
        assert k != key ==> GroupOf(groups, k) == GroupOf(before, k);
      }
    }
    assert folders[..|folders|] == folders;
    groups := SortEach(groups);
  }

  /** `for (const list of map.values()) list.sort(bySibling)`. */
  function SortEach(groups: Lists): (sorted: Lists)
    ensures forall k :: GroupOf(sorted, k) == StableSort(GroupOf(groups, k))
  {
    map k | k in groups :: StableSort(groups[k])
  }

  /** Items by folder, each list sorted; a dangling item goes to its own list instead. */
  method GroupItems(items: seq<Row>, ids: set<Id>) returns (groups: Lists, dangling: seq<Row>)
    ensures forall k: Key :: (k.None? || k.value in ids) ==> GroupOf(groups, k) == StableSort(Filter(items, InFolder(k)))
    ensures dangling == Filter(items, Dangling(ids))
  {
    groups, dangling := map[], [];
    for i := 0 to |items|
      invariant dangling == Filter(items[..i], Dangling(ids))
      invariant forall k: Key :: (k.None? || k.value in ids) ==> GroupOf(groups, k) == Filter(items[..i], InFolder(k))
    {
      var it := items[i];
      assert items[..i + 1] == items[..i] + [it];
      FilterAppend(items[..i], [it], Dangling(ids));
      FilterOne(it, Dangling(ids));
      ghost var before := groups;
      if it.within.Some? && it.within.value != "" && it.within.value !in ids {
        dangling := dangling + [it];
      } else {
        groups := groups[it.within := GroupOf(groups, it.within) + [it]];
      }
      forall k: Key | k.None? || k.value in ids
        ensures GroupOf(groups, k) == Filter(items[..i + 1], InFolder(k))
      {
        FilterAppend(items[..i], [it], InFolder(k));
        FilterOne(it, InFolder(k));
        assert k != it.within ==> GroupOf(groups, k) == GroupOf(before, k);
      }
    }
    assert items[..|items|] == items;
    groups := SortEach(groups);
  }
}
