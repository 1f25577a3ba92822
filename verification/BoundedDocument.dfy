/** `assertBounded`: refuse a parsed document that explodes, nests too deep or contains itself. */
module BoundedDocument {
  import opened ObjectGraph

  const MAX_NODE_DEPTH := 64
  const MAX_NODES_PER_DOCUMENT := 200_000

  /** The three `InputDocumentError`s. */
  datatype Outcome = Bounded | TooLarge | TooDeep | RecursiveAlias

  /** The first broken bound in document order, for a value with `before` values in front of it:
      the size bound is looked at first, then the depth, then the alias. */
  ghost function FirstBroken(t: Tree, before: nat, depth: nat, maxNodes: int): Outcome {
    if before + 1 > maxNodes then TooLarge
    else if t.Leaf? then Bounded
    else if depth > MAX_NODE_DEPTH then TooDeep
    else if t.Recursive? then RecursiveAlias
    else FirstBrokenIn(t.kids, before + 1, depth + 1, maxNodes)
  }

  ghost function FirstBrokenIn(ts: seq<Tree>, before: nat, depth: nat, maxNodes: int): Outcome {
    if ts == [] then Bounded
    else if FirstBroken(ts[0], before, depth, maxNodes) != Bounded then FirstBroken(ts[0], before, depth, maxNodes)
    else FirstBrokenIn(ts[1..], before + Values(ts[0]), depth, maxNodes)
  }

  /** The variables the nested `walk` closure shares. */
  class Walker {
    const graph: Graph
    const maxNodes: int
    var visits: nat
    var ancestors: set<Ref>

    constructor (graph: Graph, maxNodes: int)
      ensures this.graph == graph && this.maxNodes == maxNodes && visits == 0 && ancestors == {}
    {
      this.graph, this.maxNodes, visits, ancestors := graph, maxNodes, 0, {};
    }

    method Walk(v: Value, depth: nat) returns (o: Outcome)
      requires Closed(graph) && Present(graph, v)
      modifies this
      ensures o == FirstBroken(Unfold(graph, v, old(ancestors)), old(visits), depth, maxNodes)
      ensures var t := Unfold(graph, v, old(ancestors));
              match o
              case Bounded =>
                && ancestors == old(ancestors)
                && visits == old(visits) + Values(t) <= maxNodes
                && !DeeperThan(t, MAX_NODE_DEPTH - depth)
                && !HasRecursion(t)
              case TooLarge => old(visits) + Values(t) > maxNodes
              case TooDeep => DeeperThan(t, MAX_NODE_DEPTH - depth)
              case RecursiveAlias => HasRecursion(t)
      decreases graph.Keys - ancestors
    {
      visits := visits + 1;
      if visits > maxNodes {
        return TooLarge;
      }
      if v.Primitive? {
        return Bounded;
      }
      if depth > MAX_NODE_DEPTH {
        return TooDeep;
      }
      if v.ref in ancestors {
        return RecursiveAlias;
      }
      ancestors := ancestors + {v.ref};
      var kids := graph[v.ref].kids;
      ghost var ts := UnfoldAll(graph, v.ref, old(ancestors));
      assert ts[0..] == ts;
      for i := 0 to |kids|
        invariant ancestors == old(ancestors) + {v.ref}
        invariant visits + ValuesAll(ts[i..]) == old(visits) + Values(Unfold(graph, v, old(ancestors)))
        invariant visits <= maxNodes
        invariant FirstBrokenIn(ts[i..], visits, depth + 1, maxNodes) == FirstBrokenIn(ts, old(visits) + 1, depth + 1, maxNodes)
        invariant forall k :: 0 <= k < i ==> !DeeperThan(ts[k], MAX_NODE_DEPTH - (depth + 1)) && !HasRecursion(ts[k])
      {
        assert ts[i..][1..] == ts[i + 1..];
        o := Walk(kids[i], depth + 1);
        if o != Bounded {
          return;
        }
      }
      ancestors := ancestors - {v.ref};
      assert ancestors == old(ancestors);
      o := Bounded;
    }
  }

  /** The document is accepted exactly when no path repeats an ancestor, the unfolding (shared values
      counted once per use) has at most `maxNodes` values and nothing nests deeper than the limit;
      a refusal names a bound that is really broken. */
  method AssertBounded(g: Graph, doc: Value, maxNodes: int) returns (o: Outcome)
    requires Closed(g) && Present(g, doc)
    ensures o == FirstBroken(Unfold(g, doc, {}), 0, 0, maxNodes)
    ensures var t := Unfold(g, doc, {});
            && (o == Bounded <==>
                && Values(t) <= maxNodes
                && !DeeperThan(t, 64)
                && !Cyclic(g, doc, {}))
            && (o == TooLarge ==> Values(t) > maxNodes)
            && (o == TooDeep ==> DeeperThan(t, 64))
            && (o == RecursiveAlias ==> Cyclic(g, doc, {}))
  {
    RecursionIffCyclic(g, doc, {});
    var w := new Walker(g, maxNodes);
    o := w.Walk(doc, 0);
  }

  function Max(x: int, y: int): int {
    if x < y then y else x
  }

  /** The promise for a document parsed from text: with no value taking less than a character of the
      file (no alias repeats one) the size bound never refuses it. */
  method AssertTextBounded(g: Graph, doc: Value, text: string) returns (o: Outcome)
    requires Closed(g) && Present(g, doc)
    ensures Values(Unfold(g, doc, {})) <= |text| ==> o != TooLarge
    ensures o == Bounded ==> Values(Unfold(g, doc, {})) <= Max(MAX_NODES_PER_DOCUMENT, |text|)
    ensures o == Bounded <==>
            && (Values(Unfold(g, doc, {})) <= 200_000 || Values(Unfold(g, doc, {})) <= |text|)
            && !DeeperThan(Unfold(g, doc, {}), 64)
            && !Cyclic(g, doc, {})
  {
    o := AssertBounded(g, doc, Max(MAX_NODES_PER_DOCUMENT, |text|));
  }

  // ---- What the tree measures mean in the heap ----

  /** Without cycles, "deeper than the limit" is about heap paths: some path of more than `limit` steps ends in
      an object or array. */
  lemma {:induction false} DeepPath(g: Graph, v: Value, path: set<Ref>, limit: nat) returns (p: seq<nat>)
    requires Closed(g) && Present(g, v)
    requires DeeperThan(Unfold(g, v, path), limit)
    ensures |p| == limit + 1 && Follow(g, v, p).Some? && Follow(g, v, p).value.Object?
    decreases limit
  {
    var ts := UnfoldAll(g, v.ref, path);
    var i: nat :| i < |ts| && DeeperThan(ts[i], limit - 1);
    var kid := g[v.ref].kids[i];
    if limit == 0 {
      p := [i];
    } else {
      var q := DeepPath(g, kid, path + {v.ref}, limit - 1);
      p := [i] + q;
      assert p[1..] == q;
    }
  }

  lemma {:induction false} PathIsDeep(g: Graph, v: Value, path: set<Ref>, p: seq<nat>, limit: int)
    requires Closed(g) && Present(g, v) && !HasRecursion(Unfold(g, v, path))
    requires |p| > limit && Follow(g, v, p).Some? && Follow(g, v, p).value.Object?
    ensures DeeperThan(Unfold(g, v, path), limit)
    decreases p
  {
    if limit < 0 {
    } else {
      var ts := UnfoldAll(g, v.ref, path);
      assert !HasRecursion(ts[p[0]]);
      PathIsDeep(g, g[v.ref].kids[p[0]], path + {v.ref}, p[1..], limit - 1);
      assert DeeperThan(ts[p[0]], limit - 1);
    }
  }

  lemma DeeperThanIffPath(g: Graph, doc: Value)
    requires Closed(g) && Present(g, doc) && !HasRecursion(Unfold(g, doc, {}))
    ensures DeeperThan(Unfold(g, doc, {}), MAX_NODE_DEPTH) <==>
            exists p: seq<nat> :: |p| > MAX_NODE_DEPTH && Follow(g, doc, p).Some? && Follow(g, doc, p).value.Object?
  {
    if DeeperThan(Unfold(g, doc, {}), MAX_NODE_DEPTH) {
      var p := DeepPath(g, doc, {}, MAX_NODE_DEPTH);
    } else if p: seq<nat> :| |p| > MAX_NODE_DEPTH && Follow(g, doc, p).Some? && Follow(g, doc, p).value.Object? {
      PathIsDeep(g, doc, {}, p, MAX_NODE_DEPTH);
    }
  }
}
