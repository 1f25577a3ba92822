/** Tables whose rows name a parent row: chains of ancestors, cycles, subtrees. */
module ParentForest {
  import opened Options
  import opened SiblingOrder

  /** Row id to the parent it names. A named parent need not be a row. */
  type Parents = map<Id, Option<Id>>

  /** The `k`-th ancestor of `f`, `f` itself being the 0-th. */
  function Ancestor(p: Parents, f: Id, k: nat): Option<Id>
    decreases k
  {
    if k == 0 then Some(f)
    else if f !in p || p[f].None? then None
    else Ancestor(p, p[f].value, k - 1)
  }

  /** `d` is `a` or lies beneath it. */
  ghost predicate Below(p: Parents, d: Id, a: Id) {
    exists k: nat :: Ancestor(p, d, k) == Some(a)
  }

  ghost predicate Grounded(p: Parents, f: Id) {
    exists n: nat :: Ancestor(p, f, n) == None
  }

  /** Every chain of parents ends. */
  ghost predicate Acyclic(p: Parents) {
    forall f :: f in p ==> Grounded(p, f)
  }

  ghost function Subtree(p: Parents, root: Id): set<Id> {
    set f | f in p && Below(p, f, root)
  }

  lemma {:induction false} AncestorAdd(p: Parents, f: Id, j: nat, k: nat)
    ensures Ancestor(p, f, j + k) ==
            if Ancestor(p, f, j).Some? then Ancestor(p, Ancestor(p, f, j).value, k) else None
    decreases j
  {
    if j == 0 || f !in p || p[f].None? {
    } else {
      AncestorAdd(p, p[f].value, j - 1, k);
    }
  }

  lemma BelowParent(p: Parents, f: Id, a: Id)
    requires f in p && p[f].Some?
    ensures Below(p, f, a) <==> f == a || Below(p, p[f].value, a)
  {
    if Below(p, f, a) && f != a {
      var k: nat :| Ancestor(p, f, k) == Some(a);
      assert Ancestor(p, p[f].value, k - 1) == Some(a);
    }
    if f == a {
      assert Ancestor(p, f, 0) == Some(a);
    }
    if Below(p, p[f].value, a) {
      var k: nat :| Ancestor(p, p[f].value, k) == Some(a);
      assert Ancestor(p, f, k + 1) == Some(a);
    }
  }

  lemma BelowTransitive(p: Parents, d: Id, m: Id, a: Id)
    requires Below(p, d, m) && Below(p, m, a)
    ensures Below(p, d, a)
  {
    var j: nat :| Ancestor(p, d, j) == Some(m);
    var k: nat :| Ancestor(p, m, k) == Some(a);
    AncestorAdd(p, d, j, k);
    assert Ancestor(p, d, j + k) == Some(a);
  }

  lemma GroundedParent(p: Parents, f: Id)
    ensures Grounded(p, f) <==> f !in p || p[f].None? || Grounded(p, p[f].value)
  {
    if f !in p || p[f].None? {
      assert Ancestor(p, f, 1) == None;
    } else {
      if n: nat :| Ancestor(p, f, n) == None {
        assert Ancestor(p, p[f].value, n - 1) == None;
      }
      if n: nat :| Ancestor(p, p[f].value, n) == None {
        assert Ancestor(p, f, n + 1) == None;
      }
    }
  }

  /** A row that is its own proper ancestor has an endless chain. */
  lemma {:induction false} LoopNeverEnds(p: Parents, x: Id, period: nat, n: nat)
    requires period > 0 && Ancestor(p, x, period) == Some(x)
    ensures Ancestor(p, x, n).Some?
    decreases n
  {
    if n >= period {
      AncestorAdd(p, x, period, n - period);
      LoopNeverEnds(p, x, period, n - period);
    } else {
      AncestorAdd(p, x, n, period - n);
    }
  }

  /** In an acyclic table nothing lies beneath one of its own children. */
  lemma ParentNotBelow(p: Parents, f: Id)
    requires Grounded(p, f) && f in p && p[f].Some?
    ensures !Below(p, p[f].value, f)
  {
    if Below(p, p[f].value, f) {
      var k: nat :| Ancestor(p, p[f].value, k) == Some(f);
      assert Ancestor(p, f, k + 1) == Some(f);
      var n: nat :| Ancestor(p, f, n) == None;
      LoopNeverEnds(p, f, k + 1, n);
    }
  }

  // ---- Re-parenting one row ----

  lemma {:induction false} ChainAvoids(p: Parents, x: Id, t: Option<Id>, f: Id, n: nat)
    requires !Below(p, f, x)
    ensures Ancestor(p[x := t], f, n) == Ancestor(p, f, n)
    decreases n
  {
    assert Ancestor(p, f, 0) == Some(f);
    if n == 0 || f !in p || p[f].None? {
    } else {
      BelowParent(p, f, x);
      ChainAvoids(p, x, t, p[f].value, n - 1);
    }
  }

  lemma {:induction false} ChainUpTo(p: Parents, x: Id, t: Option<Id>, f: Id, k: nat)
    requires Ancestor(p, f, k) == Some(x)
    requires forall j: nat :: j < k ==> Ancestor(p, f, j) != Some(x)
    ensures Ancestor(p[x := t], f, k) == Some(x)
    decreases k
  {
    if k == 0 {
    } else {
      assert Ancestor(p, f, 0) != Some(x);
      forall j: nat | j < k - 1
        ensures Ancestor(p, p[f].value, j) != Some(x)
      {
        assert Ancestor(p, f, j + 1) != Some(x);
      }
      ChainUpTo(p, x, t, p[f].value, k - 1);
    }
  }

  lemma {:induction false} ChainGrounded(p: Parents, x: Id, t: Option<Id>, f: Id, n: nat)
    requires Ancestor(p, f, n) == None && Grounded(p[x := t], x)
    ensures Grounded(p[x := t], f)
    decreases n
  {
    GroundedParent(p[x := t], f);
    if f == x || f !in p || p[f].None? {
    } else {
      ChainGrounded(p, x, t, p[f].value, n - 1);
    }
  }

  lemma {:induction false} FirstMeeting(p: Parents, f: Id, x: Id, bound: nat) returns (k: nat)
    requires Ancestor(p, f, bound) == Some(x)
    ensures k <= bound && Ancestor(p, f, k) == Some(x)
    ensures forall j: nat :: j < k ==> Ancestor(p, f, j) != Some(x)
    decreases bound
  {
    if j: nat :| j < bound && Ancestor(p, f, j) == Some(x) {
      k := FirstMeeting(p, f, x, j);
    } else {
      k := bound;
    }
  }

  /** Moving `x` under `t` keeps the table acyclic exactly when `t` is not `x` or beneath it. */
  lemma MoveAcyclicIff(p: Parents, x: Id, t: Option<Id>)
    requires Acyclic(p) && x in p
    ensures Acyclic(p[x := t]) <==> t.None? || !Below(p, t.value, x)
  {
    var q := p[x := t];
    GroundedParent(q, x);
    if t.Some? && Below(p, t.value, x) {
      var b: nat :| Ancestor(p, t.value, b) == Some(x);
      var k := FirstMeeting(p, t.value, x, b);
      ChainUpTo(p, x, t, t.value, k);
      assert Ancestor(q, x, k + 1) == Some(x);
      forall n: nat {
        LoopNeverEnds(q, x, k + 1, n);
      }
    } else {
      if t.Some? {
        GroundedParent(p, t.value);
        var n: nat :| Ancestor(p, t.value, n) == None;
        ChainAvoids(p, x, t, t.value, n);
      }
      forall f | f in q
        ensures Grounded(q, f)
      {
        var n: nat :| Ancestor(p, f, n) == None;
        ChainGrounded(p, x, t, f, n);
      }
    }
  }

  // ---- Removing rows, adding a row ----

  lemma {:induction false} ChainKept(p: Parents, q: Parents, f: Id, n: nat)
    requires forall r :: r in q ==> r in p && q[r] == p[r]
    requires Ancestor(p, f, n) == None
    ensures Ancestor(q, f, n) == None
    decreases n
  {
    if f !in q || q[f].None? {
    } else {
      ChainKept(p, q, q[f].value, n - 1);
    }
  }

  lemma SubtableAcyclic(p: Parents, q: Parents)
    requires Acyclic(p)
    requires forall r :: r in q ==> r in p && q[r] == p[r]
    ensures Acyclic(q)
  {
    forall f | f in q
      ensures Grounded(q, f)
    {
      var n: nat :| Ancestor(p, f, n) == None;
      ChainKept(p, q, f, n);
    }
  }

  lemma {:induction false} ChainExtended(p: Parents, x: Id, t: Option<Id>, f: Id, n: nat)
    requires x !in p && f != x && Ancestor(p, f, n) == None
    requires forall r :: r in p && p[r].Some? ==> p[r].value != x
    ensures Ancestor(p[x := t], f, n) == None
    decreases n
  {
    if f !in p || p[f].None? {
    } else {
      ChainExtended(p, x, t, p[f].value, n - 1);
    }
  }

  /** A new row nothing points at keeps the table acyclic. */
  lemma LeafAcyclic(p: Parents, x: Id, t: Option<Id>)
    requires Acyclic(p) && x !in p && t != Some(x)
    requires forall r :: r in p && p[r].Some? ==> p[r].value != x
    ensures Acyclic(p[x := t])
  {
    var q := p[x := t];
    forall f | f in q
      ensures Grounded(q, f)
    {
      if f != x {
        var n: nat :| Ancestor(p, f, n) == None;
        ChainExtended(p, x, t, f, n);
      } else {
        GroundedParent(q, x);
        if t.Some? {
          GroundedParent(p, t.value);
          var n: nat :| Ancestor(p, t.value, n) == None;
          ChainExtended(p, x, t, t.value, n);
        }
      }
    }
  }

  // ---- Chains inside a set ----

  /** A set closed under "parent of" holds every ancestor of its members. */
  lemma {:induction false} ChainStaysIn(p: Parents, s: set<Id>, f: Id, k: nat)
    requires f in s
    requires forall r :: r in s && r in p && p[r].Some? ==> p[r].value in s
    ensures Ancestor(p, f, k).Some? ==> Ancestor(p, f, k).value in s
    decreases k
  {
    if k == 0 || f !in p || p[f].None? {
    } else {
      ChainStaysIn(p, s, p[f].value, k - 1);
    }
  }

  /** A set that holds the children of its members holds everything beneath them. */
  lemma {:induction false} BelowStaysIn(p: Parents, s: set<Id>, f: Id, root: Id, k: nat)
    requires root in s && Ancestor(p, f, k) == Some(root)
    requires forall r :: r in p && p[r].Some? && p[r].value in s ==> r in s
    ensures f in s
    decreases k
  {
    if k == 0 {
    } else {
      BelowStaysIn(p, s, p[f].value, root, k - 1);
    }
  }

  // ---- Siblings ----

  lemma BelowAtEarlier(p: Parents, d: Id, f: Id, g: Id, i: nat, j: nat)
    requires Ancestor(p, d, i) == Some(f) && Ancestor(p, d, j) == Some(g) && i <= j
    ensures Ancestor(p, f, j - i) == Some(g)
  {
    AncestorAdd(p, d, i, j - i);
  }

  lemma SiblingNotBelow(p: Parents, f: Id, g: Id, k: nat)
    requires Acyclic(p) && f in p && g in p && p[f] == p[g] && f != g
    ensures Ancestor(p, f, k) != Some(g)
  {
    if k > 0 && p[f].Some? {
      ParentNotBelow(p, g);
      assert Ancestor(p, p[g].value, k - 1) != Some(g);
    }
  }

  /** The subtrees of two siblings have no row in common. */
  lemma SiblingsDisjoint(p: Parents, f: Id, g: Id)
    requires Acyclic(p) && f in p && g in p && p[f] == p[g] && f != g
    ensures forall d :: !(Below(p, d, f) && Below(p, d, g))
  {
    forall d
      ensures !(Below(p, d, f) && Below(p, d, g))
    {
      if Below(p, d, f) && Below(p, d, g) {
        var i: nat :| Ancestor(p, d, i) == Some(f);
        var j: nat :| Ancestor(p, d, j) == Some(g);
        if i <= j {
          BelowAtEarlier(p, d, f, g, i, j);
          SiblingNotBelow(p, f, g, j - i);
        } else {
          BelowAtEarlier(p, d, g, f, j, i);
          SiblingNotBelow(p, g, f, i - j);
        }
      }
    }
  }

  lemma BelowSelf(p: Parents, f: Id)
    ensures Below(p, f, f)
  {
    assert Ancestor(p, f, 0) == Some(f);
  }

  /** A row beneath `f` is `f` or beneath one of its children. */
  lemma {:induction false} BelowChild(p: Parents, d: Id, f: Id, k: nat) returns (c: Id)
    requires Ancestor(p, d, k) == Some(f) && d != f
    ensures c in p && p[c] == Some(f) && Below(p, d, c)
    decreases k
  {
    if p[d] == Some(f) {
      c := d;
      BelowSelf(p, d);
    } else {
      assert k > 1;
      c := BelowChild(p, p[d].value, f, k - 1);
      BelowParent(p, d, c);
    }
  }

  /** In an acyclic table whose named parents are all rows, every row lies beneath a root. */
  lemma {:induction false} RootAbove(p: Parents, d: Id, n: nat) returns (r: Id)
    requires d in p && Ancestor(p, d, n) == None
    requires forall f :: f in p && p[f].Some? ==> p[f].value in p
    ensures r in p && p[r] == None && Below(p, d, r)
    decreases n
  {
    if p[d].None? {
      r := d;
      BelowSelf(p, d);
    } else {
      r := RootAbove(p, p[d].value, n - 1);
      BelowParent(p, d, r);
    }
  }
}
