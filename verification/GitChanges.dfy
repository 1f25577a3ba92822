/** Which changes have to be committed, or left out, together: the worklists of `git-changes.ts`. */
module GitChanges {
  /** A change of one row; `needs` are the keys of the changes it cannot be committed without. */
  datatype Item = Item(kind: string, id: string, needs: seq<string>)

  function Key(item: Item): string {
    item.kind + ":" + item.id
  }

  /** No kind holds a colon, so a key stands for one kind and one row id. */
  lemma {:induction false} KeysTellRowsApart(a: Item, b: Item)
    requires ':' !in a.kind && ':' !in b.kind
    ensures Key(a) == Key(b) <==> a.kind == b.kind && a.id == b.id
  {
    if Key(a) == Key(b) {
      ColonAt(a, b);
      ColonAt(b, a);
      assert Key(a)[..|a.kind|] == a.kind && Key(b)[..|b.kind|] == b.kind;
      assert Key(a)[|a.kind| + 1..] == a.id && Key(b)[|b.kind| + 1..] == b.id;
    }
  }

  lemma {:induction false} ColonAt(a: Item, b: Item)
    requires ':' !in a.kind && Key(a) == Key(b)
    ensures |a.kind| <= |b.kind|
  {
    assert Key(b)[|b.kind|] == ':';
    assert forall i :: 0 <= i < |a.kind| ==> Key(a)[i] == a.kind[i];
  }

  // ---- What requires what ----

  /** `new Map(items.map(...))`: of two items with one key the later one counts. */
  function ByKey(items: seq<Item>): (m: map<string, Item>)
  {
    if items == [] then map[]
    else ByKey(items[..|items| - 1])[Key(items[|items| - 1]) := items[|items| - 1]]
  }

  /** `a` and `b` are known changes and `a` requires `b`. */
  ghost predicate Requires(items: seq<Item>, a: string, b: string) {
    a in ByKey(items) && b in ByKey(items)[a].needs && b in ByKey(items)
  }

  /** Some item with key `d` requires `k`. */
  ghost predicate Hangs(items: seq<Item>, d: string, k: string) {
    exists i :: 0 <= i < |items| && Key(items[i]) == d && k in items[i].needs
  }

  ghost predicate ClosedUnderRequired(items: seq<Item>, s: set<string>) {
    forall a, b :: a in s && Requires(items, a, b) ==> b in s
  }

  ghost predicate ClosedUnderDependents(items: seq<Item>, s: set<string>) {
    forall k, d :: k in s && Hangs(items, d, k) ==> d in s
  }

  /** `r` is the least set with the known ones of `keys` that is closed under what its members require. */
  ghost predicate AreRequired(items: seq<Item>, keys: set<string>, r: set<string>) {
    && keys * ByKey(items).Keys <= r <= ByKey(items).Keys
    && ClosedUnderRequired(items, r)
    && forall s :: ClosedUnderRequired(items, s) && keys * ByKey(items).Keys <= s ==> r <= s
  }

  /** `r` is the least set with all of `keys` that holds whatever requires one of its members. */
  ghost predicate AreDependents(items: seq<Item>, keys: set<string>, r: set<string>) {
    && keys <= r
    && ClosedUnderDependents(items, r)
    && forall s :: ClosedUnderDependents(items, s) && keys <= s ==> r <= s
  }

  function ToSet(keys: seq<string>): set<string> {
    set k | k in keys
  }

  lemma {:induction false} LastOut(stack: seq<string>)
    requires stack != []
    ensures ToSet(stack) == ToSet(stack[..|stack| - 1]) + {stack[|stack| - 1]}
  {
    assert stack == stack[..|stack| - 1] + [stack[|stack| - 1]];
  }

  lemma {:induction false} OneOut(all: set<string>, out: set<string>, k: string)
    requires k in all && k !in out
    ensures |all - (out + {k})| < |all - out|
  {
    assert all - (out + {k}) == all - out - {k};
  }

  // ---- The worklists ----

  lemma {:induction false} KnownItems(items: seq<Item>, k: string)
    ensures k in ByKey(items) <==> exists i :: 0 <= i < |items| && Key(items[i]) == k
    ensures k in ByKey(items) ==> ByKey(items)[k] in items && Key(ByKey(items)[k]) == k
  {
    if items == [] {
    } else {
      var n := |items| - 1;
      KnownItems(items[..n], k);
      assert items == items[..n] + [items[n]];
      assert forall i :: 0 <= i < n ==> items[..n][i] == items[i];
    }
  }

  method IndexByKey(items: seq<Item>) returns (m: map<string, Item>)
    ensures m == ByKey(items)
  {
    m := map[];
    for i := 0 to |items|
      invariant m == ByKey(items[..i])
    {
      assert items[..i + 1][..i] == items[..i];
      m := m[Key(items[i]) := items[i]];
    }
    assert items[..|items|] == items;
  }

  method KnownKeys(keys: seq<string>, byKey: map<string, Item>) returns (known: seq<string>)
    ensures ToSet(known) == ToSet(keys) * byKey.Keys
  {
    known := [];
    for i := 0 to |keys|
      invariant ToSet(known) == ToSet(keys[..i]) * byKey.Keys
    {
      assert ToSet(keys[..i + 1]) == ToSet(keys[..i]) + {keys[i]};
      if keys[i] in byKey {
        assert ToSet(known + [keys[i]]) == ToSet(known) + {keys[i]};
        known := known + [keys[i]];
      }
    }
    assert keys[..|keys|] == keys;
  }

  /** Puts the required changes of one item on the stack. */
  method PushRequired(needs: seq<string>, byKey: map<string, Item>, out: set<string>, stack: seq<string>)
    returns (more: seq<string>)
    ensures ToSet(more) == ToSet(stack) + (ToSet(needs) * byKey.Keys - out)
  {
    more := stack;
    for i := 0 to |needs|
      invariant ToSet(more) == ToSet(stack) + (ToSet(needs[..i]) * byKey.Keys - out)
    {
      assert ToSet(needs[..i + 1]) == ToSet(needs[..i]) + {needs[i]};
      if needs[i] in byKey && needs[i] !in out {
        assert ToSet(more + [needs[i]]) == ToSet(more) + {needs[i]};
        more := more + [needs[i]];
      }
    }
    assert needs[..|needs|] == needs;
  }

  /** Members already taken out have everything they require either out or on the stack. */
  ghost predicate RequiredAhead(items: seq<Item>, out: set<string>, stack: set<string>) {
    forall a, b :: a in out && Requires(items, a, b) ==> b in out || b in stack
  }

  method WithRequiredChanges(keys: seq<string>, items: seq<Item>) returns (out: set<string>)
    ensures AreRequired(items, ToSet(keys), out)
  {
    var byKey := IndexByKey(items);
    out := {};
    var stack := KnownKeys(keys, byKey);
    ghost var seeds := ToSet(stack);
    while |stack| > 0
      invariant seeds <= out + ToSet(stack) <= byKey.Keys
      invariant RequiredAhead(items, out, ToSet(stack))
      invariant forall s :: ClosedUnderRequired(items, s) && seeds <= s ==> out + ToSet(stack) <= s
      decreases |byKey.Keys - out|, |stack|
    {
      var k := stack[|stack| - 1];
      var rest := stack[..|stack| - 1];
      LastOut(stack);
      if k in out {
        stack := rest;
      } else {
        stack := PushRequired(byKey[k].needs, byKey, out + {k}, rest);
        OneOut(byKey.Keys, out, k);
        RequiredStep(items, seeds, out, ToSet(rest), k, ToSet(stack));
        out := out + {k};
      }
    }
  }

  lemma {:induction false} RequiredStep(items: seq<Item>, seeds: set<string>, out: set<string>, rest: set<string>, k: string,
                                        stack: set<string>)
    requires k in ByKey(items)
    requires RequiredAhead(items, out, rest + {k})
    requires stack == rest + (ToSet(ByKey(items)[k].needs) * ByKey(items).Keys - (out + {k}))
    requires forall s :: ClosedUnderRequired(items, s) && seeds <= s ==> out + (rest + {k}) <= s
    ensures RequiredAhead(items, out + {k}, stack)
    ensures forall s :: ClosedUnderRequired(items, s) && seeds <= s ==> out + {k} + stack <= s
  {
    forall s | ClosedUnderRequired(items, s) && seeds <= s
      ensures out + {k} + stack <= s
    {
      assert k in s;
      forall b | b in ToSet(ByKey(items)[k].needs) * ByKey(items).Keys
        ensures b in s
      {
        assert Requires(items, k, b);
      }
    }
  }

  /** `dependents` lists, for every required key, who requires it among the first `n` items. */
  ghost predicate Indexed(items: seq<Item>, dependents: map<string, seq<string>>) {
    forall k, d :: Listed(dependents, k, d) <==> Hangs(items, d, k)
  }

  ghost predicate Listed(dependents: map<string, seq<string>>, k: string, d: string) {
    k in dependents && d in dependents[k]
  }

  method IndexDependents(items: seq<Item>) returns (dependents: map<string, seq<string>>)
    ensures Indexed(items, dependents)
  {
    dependents := map[];
    for i := 0 to |items|
      invariant Indexed(items[..i], dependents)
    {
      var it := items[i];
      ghost var before := dependents;
      for j := 0 to |it.needs|
        invariant forall k, d :: Listed(dependents, k, d) <==>
                    Listed(before, k, d) || (d == Key(it) && k in it.needs[..j])
      {
        var r := it.needs[j];
        var list := if r in dependents then dependents[r] else [];
        assert it.needs[..j + 1] == it.needs[..j] + [r];
        dependents := dependents[r := list + [Key(it)]];
      }
      assert it.needs[..|it.needs|] == it.needs;
      OneMoreIndexed(items, i, before, dependents);
    }
    assert items[..|items|] == items;
  }

  lemma {:induction false} OneMoreItem(items: seq<Item>, i: nat, d: string, k: string)
    requires i < |items|
    ensures Hangs(items[..i + 1], d, k) <==> Hangs(items[..i], d, k) || (d == Key(items[i]) && k in items[i].needs)
  {
    assert items[..i + 1][i] == items[i];
    assert forall j :: 0 <= j < i ==> items[..i + 1][j] == items[..i][j];
  }

  lemma {:induction false} OneMoreIndexed(items: seq<Item>, i: nat, before: map<string, seq<string>>,
                                          after: map<string, seq<string>>)
    requires i < |items| && Indexed(items[..i], before)
    requires forall k, d :: Listed(after, k, d) <==> Listed(before, k, d) || (d == Key(items[i]) && k in items[i].needs)
    ensures Indexed(items[..i + 1], after)
  {
    forall k, d
      ensures Listed(after, k, d) <==> Hangs(items[..i + 1], d, k)
    {
      OneMoreItem(items, i, d, k);
    }
  }

  method PushDependents(list: seq<string>, out: set<string>, stack: seq<string>) returns (more: seq<string>)
    ensures ToSet(more) == ToSet(stack) + (ToSet(list) - out)
  {
    more := stack;
    for i := 0 to |list|
      invariant ToSet(more) == ToSet(stack) + (ToSet(list[..i]) - out)
    {
      assert ToSet(list[..i + 1]) == ToSet(list[..i]) + {list[i]};
      if list[i] !in out {
        assert ToSet(more + [list[i]]) == ToSet(more) + {list[i]};
        more := more + [list[i]];
      }
    }
    assert list[..|list|] == list;
  }

  ghost predicate DependentsAhead(items: seq<Item>, out: set<string>, stack: set<string>) {
    forall k, d :: k in out && Hangs(items, d, k) ==> d in out || d in stack
  }

  method WithDependentChanges(keys: seq<string>, items: seq<Item>) returns (out: set<string>)
    ensures AreDependents(items, ToSet(keys), out)
  {
    var dependents := IndexDependents(items);
    out := {};
    var stack := keys;
    ghost var seeds := ToSet(keys);
    ghost var all := seeds + ByKey(items).Keys;
    while |stack| > 0
      invariant seeds <= out + ToSet(stack) <= all
      invariant DependentsAhead(items, out, ToSet(stack))
      invariant forall s :: ClosedUnderDependents(items, s) && seeds <= s ==> out + ToSet(stack) <= s
      decreases |all - out|, |stack|
    {
      var k := stack[|stack| - 1];
      var rest := stack[..|stack| - 1];
      LastOut(stack);
      if k in out {
        stack := rest;
      } else {
        var list := if k in dependents then dependents[k] else [];
        stack := PushDependents(list, out + {k}, rest);
        OneOut(all, out, k);
        assert forall d :: d in ToSet(list) <==> Listed(dependents, k, d);
        DependentsStep(items, seeds, out, ToSet(rest), k, ToSet(list), ToSet(stack));
        out := out + {k};
      }
    }
  }

  lemma {:induction false} DependentsStep(items: seq<Item>, seeds: set<string>, out: set<string>, rest: set<string>, k: string,
                                          list: set<string>, stack: set<string>)
    requires forall d :: d in list <==> Hangs(items, d, k)
    requires DependentsAhead(items, out, rest + {k})
    requires stack == rest + (list - (out + {k}))
    requires forall s :: ClosedUnderDependents(items, s) && seeds <= s ==> out + (rest + {k}) <= s
    ensures DependentsAhead(items, out + {k}, stack)
    ensures forall s :: ClosedUnderDependents(items, s) && seeds <= s ==> out + {k} + stack <= s
    ensures list <= ByKey(items).Keys
  {
    forall s | ClosedUnderDependents(items, s) && seeds <= s
      ensures out + {k} + stack <= s
    {
      assert k in s;
      forall d | d in list
        ensures d in s
      {
        assert Hangs(items, d, k);
      }
    }
    forall d | d in list
      ensures d in ByKey(items)
    {
      KnownItems(items, d);
    }
  }

  // ---- What the two closures have to do with each other ----

  /** A selection that is closed already stays as it is. */
  lemma {:induction false} ClosedSelectionStays(items: seq<Item>, s: set<string>, r: set<string>)
    requires s <= ByKey(items).Keys && ClosedUnderRequired(items, s) && AreRequired(items, s, r)
    ensures r == s
  {
    assert s * ByKey(items).Keys == s;
  }

  /** Unchecking changes and everything that hangs on them leaves a selection that can be committed. */
  lemma {:induction false} UncheckingKeepsClosed(items: seq<Item>, selection: set<string>, keys: set<string>, gone: set<string>)
    requires ClosedUnderRequired(items, selection) && AreDependents(items, keys, gone)
    ensures ClosedUnderRequired(items, selection - gone)
  {
    forall a, b | a in selection - gone && Requires(items, a, b)
      ensures b in selection - gone
    {
      RequiresHangs(items, a, b);
    }
  }

  lemma {:induction false} RequiresHangs(items: seq<Item>, a: string, b: string)
    requires Requires(items, a, b)
    ensures Hangs(items, a, b)
  {
    KnownItems(items, a);
    var i :| 0 <= i < |items| && items[i] == ByKey(items)[a];
    assert Key(items[i]) == a && b in items[i].needs;
  }

  // ---- When the two directions agree ----

  /** Whatever holds `d` and all its members require holds `k`: `k` is required by `d`, transitively. */
  ghost predicate Reaches(items: seq<Item>, d: string, k: string) {
    forall s: set<string> :: d in s && ClosedUnderRequired(items, s) ==> k in s
  }

  /** Whatever an item requires is reached from the one item of its row that counts. */
  ghost predicate Backed(items: seq<Item>) {
    forall d, k :: Hangs(items, d, k) && k in ByKey(items) ==> Reaches(items, d, k)
  }

  ghost predicate Agree(items: seq<Item>, d: string, k: string) {
    forall up, down :: AreRequired(items, {d}, up) && AreDependents(items, {k}, down) ==> (d in down <==> k in up)
  }

  /** For known changes: `d` goes when `k` is unchecked exactly when checking `d` brings `k` along. */
  ghost predicate DirectionsAgree(items: seq<Item>) {
    forall d, k :: d in ByKey(items) && k in ByKey(items) ==> Agree(items, d, k)
  }

  lemma {:induction false} RequiredExist(items: seq<Item>, d: string) returns (up: set<string>)
    requires d in ByKey(items)
    ensures AreRequired(items, {d}, up)
    ensures forall k :: k in ByKey(items) ==> (k in up <==> Reaches(items, d, k))
  {
    up := set k | k in ByKey(items) && Reaches(items, d, k);
    assert {d} * ByKey(items).Keys == {d};
    forall a, b | a in up && Requires(items, a, b)
      ensures b in up
    {
      forall s: set<string> | d in s && ClosedUnderRequired(items, s)
        ensures b in s
      {
        assert a in s;
      }
    }
  }

  lemma {:induction false} DependentsExist(items: seq<Item>, k: string) returns (down: set<string>)
    requires k in ByKey(items)
    ensures AreDependents(items, {k}, down)
  {
    var all := ByKey(items).Keys;
    down := set d | d in all && forall s: set<string> :: k in s && ClosedUnderDependents(items, s) ==> d in s;
    forall a, d | a in down && Hangs(items, d, a)
      ensures d in down
    {
      KnownItems(items, d);
      forall s: set<string> | k in s && ClosedUnderDependents(items, s)
        ensures d in s
      {
        assert a in s;
      }
    }
  }

  lemma {:induction false} BackedAgrees(items: seq<Item>, d: string, k: string, up: set<string>, down: set<string>)
    requires Backed(items) && d in ByKey(items) && k in ByKey(items)
    requires AreRequired(items, {d}, up) && AreDependents(items, {k}, down)
    ensures d in down <==> k in up
  {
    var known := ByKey(items).Keys;
    assert {d} * known == {d};
    if d !in down {
      var s := known - down;
      forall a, b | a in s && Requires(items, a, b)
        ensures b in s
      {
        RequiresHangs(items, a, b);
      }
      assert ClosedUnderRequired(items, s) && {d} <= s;
    }
    if k !in up {
      var s := known - up;
      forall a, b | a in s && Hangs(items, b, a)
        ensures b in s
      {
        KnownItems(items, b);
        assert Reaches(items, b, a);
      }
      assert ClosedUnderDependents(items, s) && {k} <= s;
    }
  }

  /** The two directions agree on all known changes if and only if every requirement of a row is backed. */
  lemma {:induction false} DirectionsAgreeIff(items: seq<Item>)
    ensures DirectionsAgree(items) <==> Backed(items)
  {
    if Backed(items) {
      forall d, k | d in ByKey(items) && k in ByKey(items)
        ensures Agree(items, d, k)
      {
        forall up, down | AreRequired(items, {d}, up) && AreDependents(items, {k}, down)
          ensures d in down <==> k in up
        {
          BackedAgrees(items, d, k, up, down);
        }
      }
    }
    if DirectionsAgree(items) {
      forall d, k | Hangs(items, d, k) && k in ByKey(items)
        ensures Reaches(items, d, k)
      {
        KnownItems(items, d);
        var up := RequiredExist(items, d);
        var down := DependentsExist(items, k);
        assert Agree(items, d, k);
      }
    }
  }

  /** Items of one row require the same, as the list of a project's changes has it. */
  ghost predicate SameNeeds(items: seq<Item>) {
    forall i, j :: 0 <= i < |items| && 0 <= j < |items| && Key(items[i]) == Key(items[j]) ==>
      ToSet(items[i].needs) == ToSet(items[j].needs)
  }

  lemma {:induction false} SameNeedsAreBacked(items: seq<Item>)
    requires SameNeeds(items)
    ensures Backed(items)
  {
    forall d, k | Hangs(items, d, k) && k in ByKey(items)
      ensures Reaches(items, d, k)
    {
      KnownItems(items, d);
      var i :| 0 <= i < |items| && Key(items[i]) == d && k in items[i].needs;
      var j :| 0 <= j < |items| && items[j] == ByKey(items)[d];
      assert ToSet(items[i].needs) == ToSet(items[j].needs) && k in ToSet(items[i].needs);
      assert Requires(items, d, k);
    }
  }

  /** So on the changes of a project: unchecking `k` takes `d` along exactly when checking `d` brings `k` along. */
  lemma {:induction false} DependentIffRequired(items: seq<Item>, d: string, k: string, up: set<string>, down: set<string>)
    requires SameNeeds(items) && d in ByKey(items) && k in ByKey(items)
    requires AreRequired(items, {d}, up) && AreDependents(items, {k}, down)
    ensures d in down <==> k in up
  {
    SameNeedsAreBacked(items);
    BackedAgrees(items, d, k, up, down);
  }

  /** A list made up by hand, in which the later of two items of one row no longer names what the earlier one requires. */
  lemma {:induction false} UnbackedList()
    ensures var folder := Item("folder", "f", []);
            !DirectionsAgree([Item("endpoint", "e", [Key(folder)]), folder, Item("endpoint", "e", [])])
  {
    var y := Item("folder", "f", []);
    var x, z := Item("endpoint", "e", [Key(y)]), Item("endpoint", "e", []);
    var items := [x, y, z];
    KeysTellRowsApart(x, y);
    assert x.kind[0] != y.kind[0];
    var one, two := [x], [x, y];
    assert items[..|items| - 1] == two && two[..|two| - 1] == one;
    assert ByKey(two) == ByKey(one)[Key(y) := y];
    assert ByKey(items) == ByKey(two)[Key(z) := z];
    assert Hangs(items, Key(x), Key(y)) by {
      assert Key(items[0]) == Key(x) && Key(y) in items[0].needs;
    }
    var s := {Key(x)};
    assert ClosedUnderRequired(items, s) && Key(y) !in s;
    assert !Reaches(items, Key(x), Key(y));
    DirectionsAgreeIff(items);
  }
}
