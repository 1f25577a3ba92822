/** `boundedJson`: the budgeted copy of a cyclic object graph into a finite JSON tree. */
module BoundedJson {
  import opened Options
  import opened ObjectGraph

  /** What `JSON.stringify` is handed: a finite tree. */
  datatype Json = Text(text: string) | Composite(shape: Shape, kids: seq<Json>)

  const EMPTY_OBJECT := Composite(ObjectShape([]), [])

  const JSON_PER_VALUE := 20_000
  const IMPORT_BUDGET := 3_000_000

  // ---- Reference: the first `n` objects/arrays in preorder are written, the rest are `{}` ----

  /** `t` written out when its root has preorder number `pos` among the objects and arrays of the
      whole document and only numbers below `n` are expanded. */
  ghost function Written(t: Tree, pos: nat, n: nat): Json {
    match t
    case Leaf(text) => Text(text)
    case Recursive => EMPTY_OBJECT
    case Branch(shape, kids) =>
      if pos < n then Composite(shape, WrittenAll(kids, pos + 1, n)) else EMPTY_OBJECT
  }

  ghost function WrittenAll(ts: seq<Tree>, pos: nat, n: nat): (js: seq<Json>)
    ensures |js| == |ts|
  {
    if ts == [] then [] else [Written(ts[0], pos, n)] + WrittenAll(ts[1..], pos + Branches(ts[0]), n)
  }

  function Max0(x: int): nat {
    if x < 0 then 0 else x
  }

  function Min(x: int, y: int): int {
    if x < y then x else y
  }

  /** What one call may expand when the import has `left` values left. */
  function Allowance(left: int): (n: nat)
    ensures n <= 20_000 && (left > 0 ==> n <= left)
    ensures n == 20_000 || n == left || (n == 0 && left < 0)
  {
    Max0(Min(JSON_PER_VALUE, left))
  }

  datatype Account = Account(left: int, trimmed: nat)

  /** The budget after a value holding `size` objects and arrays was written. */
  function Charge(a: Account, size: nat): Account {
    var n := Allowance(a.left);
    Account(a.left - Min(size, n), a.trimmed + if size > n then 1 else 0)
  }

  class JsonBudget {
    var left: int
    var trimmed: nat

    constructor ()
      ensures left == 3_000_000 && trimmed == 0
    {
      left, trimmed := IMPORT_BUDGET, 0;
    }
  }

  lemma {:induction false} WrittenKid(ts: seq<Tree>, i: nat, pos: nat, n: nat)
    requires i < |ts|
    ensures WrittenAll(ts, pos, n)[i] == Written(ts[i], pos + BranchesAll(ts[..i]), n)
  {
    if i == 0 {
    } else {
      WrittenKid(ts[1..], i - 1, pos + Branches(ts[0]), n);
      assert ts[..i][1..] == ts[1..][..i - 1];
    }
  }

  lemma {:induction false} OneMoreKid(ts: seq<Tree>, i: nat)
    requires i < |ts|
    ensures BranchesAll(ts[..i + 1]) == BranchesAll(ts[..i]) + Branches(ts[i])
  {
    if i == 0 {
      assert ts[..1][1..] == [] && ts[..0] == [];
    } else {
      OneMoreKid(ts[1..], i - 1);
      assert ts[..i + 1][1..] == ts[1..][..i] && ts[..i][1..] == ts[1..][..i - 1];
    }
  }

  /** The variables the nested `copy` closure shares. */
  class Copier {
    const graph: Graph
    var left: int
    var path: set<Ref>
    var cut: bool

    constructor (graph: Graph, left: int)
      ensures this.graph == graph && this.left == left && path == {} && !cut
    {
      this.graph, this.left, path, cut := graph, left, {}, false;
    }

    /** `t` is what the value unfolds to below the objects on the path, `pos` its preorder number. */
    method Copy(v: Value, ghost t: Tree, ghost pos: nat, ghost n: nat) returns (out: Json)
      requires Closed(graph) && Present(graph, v) && t == Unfold(graph, v, path)
      requires Max0(left) == Max0(n - pos)
      modifies this
      ensures path == old(path)
      ensures out == Written(t, pos, n)
      ensures Max0(left) == Max0(n - pos - Branches(t))
      ensures old(left) - left == Max0(old(left)) - Max0(left)
      ensures cut <==> old(cut) || (t.Branch? && n < pos + Branches(t))
      decreases graph.Keys - path, 0
    {
      if v.Primitive? {
        return Text(v.text);
      }
      if v.ref in path {
        return EMPTY_OBJECT;
      }
      if left <= 0 {
        cut := true;
        return EMPTY_OBJECT;
      }
      left := left - 1;
      ghost var up := path;
      path := path + {v.ref};
      var outs := CopyKids(v.ref, up, t.kids, pos + 1, n);
      path := path - {v.ref};
      assert path == up;
      out := Composite(graph[v.ref].shape, outs);
    }

    /** The children of an object or array that is on the path. */
    method CopyKids(r: Ref, ghost up: set<Ref>, ghost ts: seq<Tree>, ghost at0: nat, ghost n: nat) returns (outs: seq<Json>)
      requires Closed(graph) && r in graph && r !in up && path == up + {r} && ts == UnfoldAll(graph, r, up)
      requires at0 <= n && Max0(left) == Max0(n - at0)
      modifies this
      ensures path == old(path)
      ensures outs == WrittenAll(ts, at0, n)
      ensures Max0(left) == Max0(n - at0 - BranchesAll(ts))
      ensures old(left) - left == Max0(old(left)) - Max0(left)
      ensures cut <==> old(cut) || n < at0 + BranchesAll(ts)
      decreases graph.Keys - path, 1
    {
      ghost var all := WrittenAll(ts, at0, n);
      outs := [];
      for i := 0 to |graph[r].kids|
        invariant path == up + {r}
        invariant outs == all[..i]
        invariant Max0(left) == Max0(n - (at0 + BranchesAll(ts[..i])))
        invariant old(left) - left == Max0(old(left)) - Max0(left)
        invariant cut <==> old(cut) || n < at0 + BranchesAll(ts[..i])
      {
        var one := Copy(graph[r].kids[i], ts[i], at0 + BranchesAll(ts[..i]), n);
        WrittenKid(ts, i, at0, n);
        OneMoreKid(ts, i);
        outs := outs + [one];
      }
      assert ts[..|ts|] == ts;
    }
  }

  /** The tree whose `JSON.stringify` is the result. */
  method BoundedJson(g: Graph, v: Value, budget: JsonBudget) returns (out: Json)
    requires Closed(g) && Present(g, v)
    modifies budget
    ensures var t := Unfold(g, v, {});
            && out == Written(t, 0, Allowance(old(budget.left)))
            && Account(budget.left, budget.trimmed) == Charge(old(Account(budget.left, budget.trimmed)), Branches(t))
  {
    var left := Min(JSON_PER_VALUE, budget.left);
    var start := left;
    var copier := new Copier(g, left);
    out := copier.Copy(v, Unfold(g, v, {}), 0, Max0(left));
    budget.left := budget.left - (start - copier.left);
    if copier.cut {
      budget.trimmed := budget.trimmed + 1;
    }
  }

  // ---- Any sequence of calls on one budget ----

  function ChargeAll(a: Account, sizes: seq<nat>): Account
    decreases sizes
  {
    if sizes == [] then a else ChargeAll(Charge(a, sizes[0]), sizes[1..])
  }

  /** How many objects and arrays the calls expand, call by call. */
  function Expanded(a: Account, sizes: seq<nat>): (ns: seq<nat>)
    ensures |ns| == |sizes|
    decreases sizes
  {
    if sizes == [] then [] else [Min(sizes[0], Allowance(a.left))] + Expanded(Charge(a, sizes[0]), sizes[1..])
  }

  function Sum(ns: seq<nat>): nat {
    if ns == [] then 0 else ns[0] + Sum(ns[1..])
  }

  /** The number of calls that had to cut something. */
  function CutCalls(ns: seq<nat>, sizes: seq<nat>): nat
    requires |ns| == |sizes|
  {
    if ns == [] then 0 else (if ns[0] < sizes[0] then 1 else 0) + CutCalls(ns[1..], sizes[1..])
  }

  /** Conservation: what the calls expanded is exactly what left the budget, which never goes below
      zero; `trimmed` counts exactly the calls that expanded less than they were given. */
  lemma {:induction false} BudgetIsConserved(a: Account, sizes: seq<nat>)
    requires a.left >= 0
    ensures var ns := Expanded(a, sizes);
            && ChargeAll(a, sizes).left == a.left - Sum(ns) >= 0
            && ChargeAll(a, sizes).trimmed == a.trimmed + CutCalls(ns, sizes)
            && forall i :: 0 <= i < |ns| ==> ns[i] <= sizes[i] && ns[i] <= 20_000
    decreases sizes
  {
    if sizes == [] {
    } else {
      BudgetIsConserved(Charge(a, sizes[0]), sizes[1..]);
      var ns, rest := Expanded(a, sizes), Expanded(Charge(a, sizes[0]), sizes[1..]);
      assert ns[1..] == rest;
      assert forall i :: 0 < i < |ns| ==> ns[i] == rest[i - 1] && sizes[i] == sizes[1..][i - 1];
    }
  }

  // ---- The result against the heap, path by path ----

  function Select(j: Json, p: seq<nat>): Option<Json>
    decreases p
  {
    if p == [] then Some(j)
    else if j.Composite? && p[0] < |j.kids| then Select(j.kids[p[0]], p[1..])
    else None
  }

  /** `j` stands for the heap value `w`: same primitive, or same kind, keys and number of children. */
  predicate StandsFor(g: Graph, j: Json, w: Value)
    requires Present(g, w)
  {
    match w
    case Primitive(text) => j == Text(text)
    case Object(r) => j.Composite? && j.shape == g[r].shape && |j.kids| == |g[r].kids|
  }

  /** The preorder number, among objects and arrays, of what `p` reaches from `v`. */
  ghost function Number(g: Graph, v: Value, path: set<Ref>, p: seq<nat>, pos: nat): nat
    requires Closed(g) && Present(g, v) && !ComesBack(g, v, path, p) && Follow(g, v, p).Some?
    decreases p
  {
    if p == [] then pos
    else Number(g, g[v.ref].kids[p[0]], path + {v.ref}, p[1..],
                pos + 1 + BranchesAll(UnfoldAll(g, v.ref, path)[..p[0]]))
  }

  lemma {:induction false} FollowIsPresent(g: Graph, v: Value, p: seq<nat>)
    requires Closed(g) && Present(g, v) && Follow(g, v, p).Some?
    ensures Present(g, Follow(g, v, p).value)
    decreases p
  {
    if p == [] {
    } else {
      FollowIsPresent(g, g[v.ref].kids[p[0]], p[1..]);
    }
  }

  lemma {:induction false} NumberGrows(g: Graph, v: Value, path: set<Ref>, p: seq<nat>, pos: nat)
    requires Closed(g) && Present(g, v) && !ComesBack(g, v, path, p) && Follow(g, v, p).Some?
    ensures Number(g, v, path, p, pos) >= pos
    ensures p != [] ==> Number(g, v, path, p, pos) > pos
    decreases p
  {
    if p == [] {
    } else {
      NumberGrows(g, g[v.ref].kids[p[0]], path + {v.ref}, p[1..],
                  pos + 1 + BranchesAll(UnfoldAll(g, v.ref, path)[..p[0]]));
    }
  }

  /** Selecting below an expanded object or array is selecting in one of its children. */
  lemma {:induction false} SelectKid(g: Graph, v: Value, path: set<Ref>, p: seq<nat>, pos: nat, n: nat)
    requires Closed(g) && Present(g, v) && v.Object? && v.ref !in path && pos < n
    requires p != [] && p[0] < |g[v.ref].kids|
    ensures var at := pos + 1 + BranchesAll(UnfoldAll(g, v.ref, path)[..p[0]]);
            Select(Written(Unfold(g, v, path), pos, n), p) ==
            Select(Written(Unfold(g, g[v.ref].kids[p[0]], path + {v.ref}), at, n), p[1..])
  {
    WrittenKid(UnfoldAll(g, v.ref, path), p[0], pos + 1, n);
  }

  /** Exactness: an object or array reached without coming back is written out in full when its
      preorder number is below the allowance, and otherwise is `{}` or lies under a `{}`. */
  lemma {:induction false} ExpandedIffNumbered(g: Graph, v: Value, path: set<Ref>, p: seq<nat>, pos: nat, n: nat)
    requires Closed(g) && Present(g, v) && !ComesBack(g, v, path, p)
    requires Follow(g, v, p).Some? && Follow(g, v, p).value.Object?
    ensures Present(g, Follow(g, v, p).value)
    ensures var at := Select(Written(Unfold(g, v, path), pos, n), p);
            if Number(g, v, path, p, pos) < n
            then at.Some? && StandsFor(g, at.value, Follow(g, v, p).value)
            else at == None || at == Some(Composite(ObjectShape([]), []))
    decreases p
  {
    FollowIsPresent(g, v, p);
    NumberGrows(g, v, path, p, pos);
    if p == [] || pos >= n {
    } else {
      var ts, i := UnfoldAll(g, v.ref, path), p[0];
      SelectKid(g, v, path, p, pos, n);
      ExpandedIffNumbered(g, g[v.ref].kids[i], path + {v.ref}, p[1..], pos + 1 + BranchesAll(ts[..i]), n);
    }
  }

  /** A path that comes back to an ancestor ends in `{}`: nothing is written below it. */
  lemma {:induction false} RevisitIsClosed(g: Graph, v: Value, path: set<Ref>, p: seq<nat>, pos: nat, n: nat)
    requires Closed(g) && Present(g, v) && ComesBack(g, v, path, p)
    ensures Select(Written(Unfold(g, v, path), pos, n), p) in {None, Some(Composite(ObjectShape([]), []))}
    decreases p
  {
    if v.ref in path || pos >= n {
    } else {
      var ts, i := UnfoldAll(g, v.ref, path), p[0];
      SelectKid(g, v, path, p, pos, n);
      RevisitIsClosed(g, g[v.ref].kids[i], path + {v.ref}, p[1..], pos + 1 + BranchesAll(ts[..i]), n);
    }
  }

  lemma {:induction false} BranchesSplit(ts: seq<Tree>, i: nat)
    requires i < |ts|
    ensures BranchesAll(ts) >= BranchesAll(ts[..i]) + Branches(ts[i])
  {
    if i == 0 {
    } else {
      BranchesSplit(ts[1..], i - 1);
      assert ts[..i][1..] == ts[1..][..i - 1];
    }
  }

  /** With no cycle and a large enough allowance the result is the full unfolding of the heap:
      it has exactly the heap's paths, and every path reads what the heap holds there. */
  lemma {:induction false} NothingCutIsFullUnfolding(g: Graph, v: Value, path: set<Ref>, p: seq<nat>, pos: nat, n: nat)
    requires Closed(g) && Present(g, v)
    requires !HasRecursion(Unfold(g, v, path))
    requires pos + Branches(Unfold(g, v, path)) <= n
    ensures var at := Select(Written(Unfold(g, v, path), pos, n), p);
            && (at.Some? <==> Follow(g, v, p).Some?)
            && (at.Some? ==> Present(g, Follow(g, v, p).value) && StandsFor(g, at.value, Follow(g, v, p).value))
    decreases p
  {
    if p == [] || !v.Object? || p[0] >= |g[v.ref].kids| {
    } else {
      var ts, i := UnfoldAll(g, v.ref, path), p[0];
      SelectKid(g, v, path, p, pos, n);
      BranchesSplit(ts, i);
      assert !HasRecursion(ts[i]);
      NothingCutIsFullUnfolding(g, g[v.ref].kids[i], path + {v.ref}, p[1..], pos + 1 + BranchesAll(ts[..i]), n);
    }
  }
}
