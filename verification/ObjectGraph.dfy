/** A parsed document as the JavaScript heap holds it: objects and arrays are shared by
    reference, so a YAML alias or a resolved `$ref` may be used twice or close a cycle. */
module ObjectGraph {
  import opened Options

  type Ref = nat

  datatype Value = Primitive(text: string) | Object(ref: Ref)

  /** Arrays carry no keys; an object carries one key per child, in `Object.entries` order. */
  datatype Shape = ArrayShape | ObjectShape(keys: seq<string>)

  datatype Node = Node(shape: Shape, kids: seq<Value>)

  type Graph = map<Ref, Node>

  predicate Present(g: Graph, v: Value) {
    v.Object? ==> v.ref in g
  }

  /** Every reference of the heap points at an object of the heap. */
  ghost predicate Closed(g: Graph) {
    forall r, i :: r in g && 0 <= i < |g[r].kids| ==> Present(g, g[r].kids[i])
  }

  /** The document as a walker meets it: shared objects once per use, and a marker where a
      path comes back to one of its own ancestors. */
  datatype Tree = Leaf(text: string) | Recursive | Branch(shape: Shape, kids: seq<Tree>)

  ghost function Unfold(g: Graph, v: Value, path: set<Ref>): Tree
    requires Closed(g) && Present(g, v)
    decreases g.Keys - path
  {
    match v
    case Primitive(text) => Leaf(text)
    case Object(r) =>
      if r in path then Recursive
      else Branch(g[r].shape, UnfoldAll(g, r, path))
  }

  /** The unfolded children of `r`, entered with `r` itself on the path. */
  ghost function UnfoldAll(g: Graph, r: Ref, path: set<Ref>): (ts: seq<Tree>)
    requires Closed(g) && r in g && r !in path
    ensures |ts| == |g[r].kids|
    ensures forall i :: 0 <= i < |ts| ==> ts[i] == Unfold(g, g[r].kids[i], path + {r})
    decreases g.Keys - path, 0
  {
    assert g.Keys - (path + {r}) < g.Keys - path by { assert r in g.Keys - path; }
    seq(|g[r].kids|, i requires 0 <= i < |g[r].kids| => Unfold(g, g[r].kids[i], path + {r}))
  }

  /** Objects and arrays of a tree. */
  ghost function Branches(t: Tree): nat {
    match t
    case Branch(_, kids) => 1 + BranchesAll(kids)
    case _ => 0
  }

  ghost function BranchesAll(ts: seq<Tree>): nat {
    if ts == [] then 0 else Branches(ts[0]) + BranchesAll(ts[1..])
  }

  /** All values of a tree, leaves included. */
  ghost function Values(t: Tree): nat {
    match t
    case Branch(_, kids) => 1 + ValuesAll(kids)
    case _ => 1
  }

  ghost function ValuesAll(ts: seq<Tree>): nat {
    if ts == [] then 0 else Values(ts[0]) + ValuesAll(ts[1..])
  }

  ghost predicate HasRecursion(t: Tree) {
    match t
    case Leaf(_) => false
    case Recursive => true
    case Branch(_, kids) => exists i :: 0 <= i < |kids| && HasRecursion(kids[i])
  }

  /** Some object or array lies more than `limit` levels below the root of `t`. */
  ghost predicate DeeperThan(t: Tree, limit: int) {
    match t
    case Leaf(_) => false
    case Recursive => limit < 0
    case Branch(_, kids) => limit < 0 || exists i :: 0 <= i < |kids| && DeeperThan(kids[i], limit - 1)
  }

  // ---- The heap itself, addressed by paths of child positions (the possibly infinite unfolding) ----

  function Follow(g: Graph, v: Value, p: seq<nat>): Option<Value>
    requires Closed(g) && Present(g, v)
    decreases p
  {
    if p == [] then Some(v)
    else if v.Object? && p[0] < |g[v.ref].kids| then Follow(g, g[v.ref].kids[p[0]], p[1..])
    else None
  }

  /** Walking `p` from `v` reaches an object that is already on the way (`path` counts as on the way). */
  ghost predicate ComesBack(g: Graph, v: Value, path: set<Ref>, p: seq<nat>)
    requires Closed(g) && Present(g, v)
    decreases p
  {
    v.Object? && (
      || v.ref in path
      || (p != [] && p[0] < |g[v.ref].kids| && ComesBack(g, g[v.ref].kids[p[0]], path + {v.ref}, p[1..])))
  }

  lemma {:induction false} ComesBackIsRecursion(g: Graph, v: Value, path: set<Ref>, p: seq<nat>)
    requires Closed(g) && Present(g, v)
    requires ComesBack(g, v, path, p)
    ensures HasRecursion(Unfold(g, v, path))
    decreases p
  {
    if v.ref in path {
    } else {
      ComesBackIsRecursion(g, g[v.ref].kids[p[0]], path + {v.ref}, p[1..]);
      assert HasRecursion(UnfoldAll(g, v.ref, path)[p[0]]);
    }
  }

  lemma {:induction false} RecursionComesBack(g: Graph, v: Value, path: set<Ref>) returns (p: seq<nat>)
    requires Closed(g) && Present(g, v)
    requires HasRecursion(Unfold(g, v, path))
    ensures ComesBack(g, v, path, p)
    decreases g.Keys - path
  {
    p := [];
    if v.ref in path {
    } else {
      var ts := UnfoldAll(g, v.ref, path);
      var i: nat :| i < |ts| && HasRecursion(ts[i]);
      var q := RecursionComesBack(g, g[v.ref].kids[i], path + {v.ref});
      p := [i] + q;
      assert p[1..] == q;
    }
  }

  /** Some path of the heap repeats one of its own ancestors. */
  ghost predicate Cyclic(g: Graph, v: Value, path: set<Ref>)
    requires Closed(g) && Present(g, v)
  {
    exists p: seq<nat> :: ComesBack(g, v, path, p)
  }

  /** A tree has a recursion marker exactly when some path of the heap repeats an ancestor. */
  lemma RecursionIffCyclic(g: Graph, v: Value, path: set<Ref>)
    requires Closed(g) && Present(g, v)
    ensures HasRecursion(Unfold(g, v, path)) <==> Cyclic(g, v, path)
  {
    if HasRecursion(Unfold(g, v, path)) {
      var p := RecursionComesBack(g, v, path);
    } else if p: seq<nat> :| ComesBack(g, v, path, p) {
      ComesBackIsRecursion(g, v, path, p);
    }
  }
}
