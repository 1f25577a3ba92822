/** Sibling order: `ORDER BY sort_order ASC, created_at ASC`, and the splice that puts one row
    right before another and renumbers the list 0..N-1. */
module Siblings {
  import opened Options
  import opened SiblingOrder

  ghost predicate NoDuplicates(ids: seq<Id>) {
    forall i, j :: 0 <= i < j < |ids| ==> ids[i] != ids[j]
  }

  /** `ids` is a result of the ordered query over `keys`: every row once, rows of equal key in any order. */
  ghost predicate Listed(ids: seq<Id>, keys: map<Id, Rank>) {
    && NoDuplicates(ids)
    && (forall id :: id in ids <==> id in keys)
    && forall i, j :: 0 <= i < j < |ids| ==> NotAfter(keys[ids[i]], keys[ids[j]])
  }

  lemma {:induction false} FirstExists(keys: map<Id, Rank>, ids: set<Id>)
    requires ids <= keys.Keys && ids != {}
    ensures exists m :: m in ids && forall r :: r in ids ==> NotAfter(keys[m], keys[r])
    decreases ids
  {
    var a :| a in ids;
    if ids != {a} {
      FirstExists(keys, ids - {a});
      var m :| m in ids - {a} && forall r :: r in ids - {a} ==> NotAfter(keys[m], keys[r]);
      var least := if NotAfter(keys[a], keys[m]) then a else m;
      assert forall r :: r in ids ==> r == a || r in ids - {a};
      assert least in ids && forall r :: r in ids ==> NotAfter(keys[least], keys[r]);
    } else {
      assert forall r :: r in ids ==> NotAfter(keys[a], keys[r]);
    }
  }

  /** The database's ordered `SELECT id`. */
  method OrderBy(keys: map<Id, Rank>) returns (ids: seq<Id>)
    ensures Listed(ids, keys)
  {
    ids := [];
    var rest := keys.Keys;
    while rest != {}
      invariant rest <= keys.Keys
      invariant NoDuplicates(ids)
      invariant forall id :: id in ids <==> id in keys && id !in rest
      invariant forall i, r :: 0 <= i < |ids| && r in rest ==> NotAfter(keys[ids[i]], keys[r])
      invariant forall i, j :: 0 <= i < j < |ids| ==> NotAfter(keys[ids[i]], keys[ids[j]])
      decreases rest
    {
      FirstExists(keys, rest);
      var m :| m in rest && forall r :: r in rest ==> NotAfter(keys[m], keys[r]);
      ids := ids + [m];
      rest := rest - {m};
    }
  }

  function Without(ids: seq<Id>, x: Id): seq<Id> {
    if ids == [] then []
    else (if ids[0] == x then [] else [ids[0]]) + Without(ids[1..], x)
  }

  function IndexOf(ids: seq<Id>, x: Id): int {
    if ids == [] then -1
    else if ids[0] == x then 0
    else if IndexOf(ids[1..], x) < 0 then -1
    else 1 + IndexOf(ids[1..], x)
  }

  /** `siblings` with `x` taken out and put back right before `before`, or at the end. */
  function Spliced(siblings: seq<Id>, x: Id, before: Option<Id>): seq<Id> {
    var others := Without(siblings, x);
    var at := if before.Some? then IndexOf(others, before.value) else -1;
    IndexOfRange(others, if before.Some? then before.value else x);
    if at >= 0 then others[..at] + [x] + others[at..] else others + [x]
  }

  /** What the renumbered group must look like: numbers 0..N-1, each once; `x` right before `before`
      when that is another row of the group and last otherwise; the others in their old order. */
  ghost predicate Placed(order: map<Id, int>, keys: map<Id, Rank>, x: Id, before: Option<Id>) {
    && order.Keys == keys.Keys + {x}
    && (forall a :: a in order ==> 0 <= order[a] < |order|)
    && (forall a, b :: a in order && b in order && a != b ==> order[a] != order[b])
    && (forall a, b :: a in order && b in order && a != x && b != x && order[a] < order[b] ==> NotAfter(keys[a], keys[b]))
    && (if before.Some? && before.value in order && before.value != x
        then order[before.value] == order[x] + 1
        else order[x] == |order| - 1)
  }

  lemma {:induction false} IndexOfRange(ids: seq<Id>, x: Id)
    ensures -1 <= IndexOf(ids, x) < |ids|
    ensures IndexOf(ids, x) >= 0 ==> ids[IndexOf(ids, x)] == x
    ensures IndexOf(ids, x) >= 0 <==> x in ids
  {
    if ids == [] {
    } else {
      IndexOfRange(ids[1..], x);
    }
  }

  lemma {:induction false} WithoutMember(ids: seq<Id>, x: Id, id: Id)
    ensures id in Without(ids, x) <==> id in ids && id != x
  {
    if ids == [] {
    } else {
      WithoutMember(ids[1..], x, id);
      assert id in ids <==> id == ids[0] || id in ids[1..];
    }
  }

  lemma {:induction false} WithoutKeeps(ids: seq<Id>, x: Id, keys: map<Id, Rank>)
    requires NoDuplicates(ids)
    requires forall id :: id in ids ==> id in keys
    requires forall i, j :: 0 <= i < j < |ids| ==> NotAfter(keys[ids[i]], keys[ids[j]])
    ensures var o := Without(ids, x);
            && NoDuplicates(o)
            && (forall id :: id in o <==> id in ids && id != x)
            && forall i, j :: 0 <= i < j < |o| ==> NotAfter(keys[o[i]], keys[o[j]])
  {
    forall id
      ensures id in Without(ids, x) <==> id in ids && id != x
    {
      WithoutMember(ids, x, id);
    }
    if ids == [] {
    } else {
      WithoutKeeps(ids[1..], x, keys);
      var rest := Without(ids[1..], x);
      forall k | 0 <= k < |rest|
        ensures rest[k] != ids[0] && NotAfter(keys[ids[0]], keys[rest[k]])
      {
        assert rest[k] in ids[1..];
      }
    }
  }

  /** The position of each id of the list. */
  ghost function Positions(ids: seq<Id>): (m: map<Id, int>)
    requires NoDuplicates(ids)
    ensures forall i :: 0 <= i < |ids| ==> ids[i] in m && m[ids[i]] == i
    ensures forall id :: id in m <==> id in ids
  {
    if ids == [] then map[]
    else
      var n := |ids| - 1;
      assert forall id :: id in ids <==> id in ids[..n] || id == ids[n];
      Positions(ids[..n])[ids[n] := n]
  }

  lemma {:induction false} PositionsExact(ids: seq<Id>)
    requires NoDuplicates(ids)
    ensures |Positions(ids)| == |ids|
    ensures forall id :: id in Positions(ids) ==> 0 <= Positions(ids)[id] < |ids| && ids[Positions(ids)[id]] == id
  {
    if ids == [] {
    } else {
      var n := |ids| - 1;
      PositionsExact(ids[..n]);
      assert Positions(ids) == Positions(ids[..n])[ids[n] := n];
      assert ids[n] !in Positions(ids[..n]);
      assert Positions(ids).Keys == Positions(ids[..n]).Keys + {ids[n]};
    }
  }

  /** Where the moved row lands: right before `before`, or at the end. */
  ghost function Slot(others: seq<Id>, before: Option<Id>): (at: nat)
    ensures at <= |others|
    ensures at < |others| ==> before == Some(others[at])
  {
    if before.Some? && before.value in others then
      IndexOfRange(others, before.value);
      IndexOf(others, before.value)
    else |others|
  }

  lemma SplicedShape(siblings: seq<Id>, x: Id, before: Option<Id>)
    ensures var others, ordered := Without(siblings, x), Spliced(siblings, x, before);
            var at := Slot(others, before);
            ordered == others[..at] + [x] + others[at..]
  {
    var others := Without(siblings, x);
    if before.Some? {
      IndexOfRange(others, before.value);
    }
  }

  ghost predicate Sorted(ids: seq<Id>, keys: map<Id, Rank>) {
    forall i, j :: 0 <= i < j < |ids| && ids[i] in keys && ids[j] in keys ==> NotAfter(keys[ids[i]], keys[ids[j]])
  }

  /** Dropping the inserted row again gives the list back. */
  ghost function Dropped(ordered: seq<Id>, at: nat): (r: seq<Id>)
    requires at < |ordered|
    ensures |r| == |ordered| - 1
    ensures forall i :: 0 <= i < at ==> r[i] == ordered[i]
    ensures forall i :: at < i < |ordered| ==> r[i - 1] == ordered[i]
  {
    ordered[..at] + ordered[at + 1..]
  }

  lemma InsertedMembers(others: seq<Id>, at: nat, x: Id)
    requires at <= |others|
    ensures forall id :: id in others[..at] + [x] + others[at..] <==> id in others || id == x
  {
    assert others == others[..at] + others[at..];
  }

  lemma InsertedAt(others: seq<Id>, at: nat, x: Id, ordered: seq<Id>, i: nat)
    requires at <= |others| && ordered == others[..at] + [x] + others[at..] && i < |ordered|
    ensures ordered[i] == if i < at then others[i] else if i == at then x else others[i - 1]
  {
  }

  lemma InsertedDiffer(others: seq<Id>, at: nat, x: Id, ordered: seq<Id>, i: nat, j: nat)
    requires at <= |others| && NoDuplicates(others) && x !in others
    requires ordered == others[..at] + [x] + others[at..] && i < j < |ordered|
    ensures ordered[i] != ordered[j]
  {
    InsertedAt(others, at, x, ordered, i);
    InsertedAt(others, at, x, ordered, j);
  }

  lemma InsertedOnce(others: seq<Id>, at: nat, x: Id)
    requires at <= |others| && NoDuplicates(others) && x !in others
    ensures NoDuplicates(others[..at] + [x] + others[at..])
  {
    var ordered := others[..at] + [x] + others[at..];
    forall i, j | 0 <= i < j < |ordered|
      ensures ordered[i] != ordered[j]
    {
      InsertedDiffer(others, at, x, ordered, i, j);
    }
  }

  lemma OthersKeepOrder(ordered: seq<Id>, at: nat, keys: map<Id, Rank>, x: Id)
    requires NoDuplicates(ordered) && at < |ordered| && ordered[at] == x
    requires forall id :: id in ordered && id != x ==> id in keys
    requires Sorted(Dropped(ordered, at), keys)
    ensures forall i, j :: 0 <= i < j < |ordered| && ordered[i] != x && ordered[j] != x ==>
              NotAfter(keys[ordered[i]], keys[ordered[j]])
  {
    var others := Dropped(ordered, at);
    forall i, j | 0 <= i < j < |ordered| && ordered[i] != x && ordered[j] != x
      ensures NotAfter(keys[ordered[i]], keys[ordered[j]])
    {
      assert others[if i < at then i else i - 1] == ordered[i];
      assert others[if j < at then j else j - 1] == ordered[j];
    }
  }

  lemma {:induction false} PositionsInOrder(ordered: seq<Id>, keys: map<Id, Rank>, x: Id)
    requires NoDuplicates(ordered)
    requires forall id :: id in ordered <==> id in keys || id == x
    requires forall i, j :: 0 <= i < j < |ordered| && ordered[i] != x && ordered[j] != x ==>
               NotAfter(keys[ordered[i]], keys[ordered[j]])
    ensures var order := Positions(ordered);
            forall a, b :: a in order && b in order && a != x && b != x && order[a] < order[b] ==> NotAfter(keys[a], keys[b])
  {
    PositionsExact(ordered);
    var order := Positions(ordered);
    forall a, b | a in order && b in order && a != x && b != x && order[a] < order[b]
      ensures NotAfter(keys[a], keys[b])
    {
      assert ordered[order[a]] == a && ordered[order[b]] == b;
    }
  }

  lemma {:induction false} PositionsDistinct(ids: seq<Id>)
    requires NoDuplicates(ids)
    ensures var order := Positions(ids);
            && |order| == |ids|
            && (forall a :: a in order ==> 0 <= order[a] < |order|)
            && (forall a, b :: a in order && b in order && a != b ==> order[a] != order[b])
  {
    PositionsExact(ids);
    var order := Positions(ids);
    forall a, b | a in order && b in order && a != b
      ensures order[a] != order[b]
    {
      assert ids[order[a]] == a && ids[order[b]] == b;
    }
  }

  lemma {:induction false} PositionsPlaced(ordered: seq<Id>, at: nat, keys: map<Id, Rank>, x: Id, before: Option<Id>)
    requires NoDuplicates(ordered) && at < |ordered| && ordered[at] == x
    requires forall id :: id in ordered <==> id in keys || id == x
    requires forall i, j :: 0 <= i < j < |ordered| && ordered[i] != x && ordered[j] != x ==>
               NotAfter(keys[ordered[i]], keys[ordered[j]])
    requires if before.Some? && before.value in ordered && before.value != x
             then at + 1 < |ordered| && ordered[at + 1] == before.value
             else at == |ordered| - 1
    ensures Placed(Positions(ordered), keys, x, before)
  {
    PositionsDistinct(ordered);
    PositionsInOrder(ordered, keys, x);
    var order := Positions(ordered);
    assert order.Keys == keys.Keys + {x};
    assert order[x] == at;
  }

  lemma InsertedOrder(others: seq<Id>, at: nat, x: Id, ordered: seq<Id>, keys: map<Id, Rank>)
    requires at <= |others| && ordered == others[..at] + [x] + others[at..]
    requires forall i, j :: 0 <= i < j < |others| ==> others[i] in keys && others[j] in keys && NotAfter(keys[others[i]], keys[others[j]])
    ensures ordered[at] == x && Sorted(Dropped(ordered, at), keys)
    ensures at < |others| ==> ordered[at + 1] == others[at]
  {
    assert ordered[at] == x;
    assert at < |others| ==> ordered[at + 1] == others[at];
    assert Dropped(ordered, at) == others;
  }

  lemma SplicedIsPlaced(siblings: seq<Id>, keys: map<Id, Rank>, x: Id, before: Option<Id>)
    requires Listed(siblings, keys)
    ensures NoDuplicates(Spliced(siblings, x, before))
    ensures Placed(Positions(Spliced(siblings, x, before)), keys, x, before)
  {
    WithoutKeeps(siblings, x, keys);
    SplicedShape(siblings, x, before);
    var others := Without(siblings, x);
    OthersInsertedPlaced(others, keys, x, before);
  }

  lemma OthersInsertedPlaced(others: seq<Id>, keys: map<Id, Rank>, x: Id, before: Option<Id>)
    requires NoDuplicates(others)
    requires forall id :: id in others <==> id in keys && id != x
    requires forall i, j :: 0 <= i < j < |others| ==> NotAfter(keys[others[i]], keys[others[j]])
    ensures var at := Slot(others, before);
            var ordered := others[..at] + [x] + others[at..];
            NoDuplicates(ordered) && Placed(Positions(ordered), keys, x, before)
  {
    var at := Slot(others, before);
    var ordered := others[..at] + [x] + others[at..];
    InsertedMembers(others, at, x);
    InsertedOnce(others, at, x);
    InsertedOrder(others, at, x, ordered, keys);
    OthersKeepOrder(ordered, at, keys, x);
    if before.Some? {
      IndexOfRange(others, before.value);
    }
    PositionsPlaced(ordered, at, keys, x, before);
  }

  /** `order` numbers the list: each id its position. */
  ghost predicate Numbers(ids: seq<Id>, order: map<Id, int>) {
    && (forall i :: 0 <= i < |ids| ==> ids[i] in order && order[ids[i]] == i)
    && (forall id :: id in order ==> 0 <= order[id] < |ids| && ids[order[id]] == id)
  }

  lemma PositionsNumber(ids: seq<Id>)
    requires NoDuplicates(ids)
    ensures Numbers(ids, Positions(ids))
  {
    PositionsExact(ids);
  }

  /** Reads a group in order and puts `x` in its new slot. */
  method Reordered(keys: map<Id, Rank>, x: Id, before: Option<Id>) returns (ordered: seq<Id>)
    ensures NoDuplicates(ordered)
    ensures Placed(Positions(ordered), keys, x, before)
  {
    var siblings := OrderBy(keys);
    ordered := Spliced(siblings, x, before);
    SplicedIsPlaced(siblings, keys, x, before);
  }
}
