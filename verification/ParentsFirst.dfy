/** `parentsFirst`: rows of a self-referencing table in an order their INSERTs survive. */
module ParentsFirst {
  import opened Options
  import opened SiblingOrder

  /** Row objects are told apart by their position in the input. */
  datatype Row = Row(id: Id, parentId: Option<Id>)

  /** `byId`: of several rows with one id the last wins. */
  function LastWith(rows: seq<Row>, id: Id): (r: Option<nat>)
    ensures r.Some? ==> r.value < |rows| && rows[r.value].id == id
    ensures r.Some? <==> exists i :: 0 <= i < |rows| && rows[i].id == id
  {
    if rows == [] then None
    else
      var n := |rows| - 1;
      if rows[n].id == id then Some(n) else LastWith(rows[..n], id)
  }

  /** The row visited before `i`: the one its `parent_id` names, unless that is none or itself. */
  function ParentRow(rows: seq<Row>, i: nat): (r: Option<nat>)
    requires i < |rows|
    ensures r.Some? ==> r.value < |rows|
  {
    if rows[i].parentId.None? then None
    else
      var p := LastWith(rows, rows[i].parentId.value);
      if p == Some(i) then None else p
  }

  /** `rank` grows from parent to child, so no chain of parents closes. */
  ghost predicate Ranked(rows: seq<Row>, rank: seq<nat>) {
    && |rank| == |rows|
    && forall i :: 0 <= i < |rows| && ParentRow(rows, i).Some? ==> rank[ParentRow(rows, i).value] < rank[i]
  }

  /** The `n`-th row up the chain of parents. */
  ghost function Up(rows: seq<Row>, i: nat, n: nat): Option<nat>
    requires i < |rows|
    decreases n
  {
    if n == 0 then Some(i)
    else if ParentRow(rows, i).None? then None
    else Up(rows, ParentRow(rows, i).value, n - 1)
  }

  ghost predicate Ends(rows: seq<Row>, i: nat)
    requires i < |rows|
  {
    exists n: nat :: Up(rows, i, n) == None
  }

  /** Every chain of parents ends. */
  ghost predicate Acyclic(rows: seq<Row>) {
    forall i: nat :: i < |rows| ==> Ends(rows, i)
  }

  ghost function Height(rows: seq<Row>, i: nat, n: nat): nat
    requires i < |rows| && Up(rows, i, n) == None
    decreases n
  {
    if ParentRow(rows, i).None? then 0 else 1 + Height(rows, ParentRow(rows, i).value, n - 1)
  }

  lemma {:induction false} HeightSame(rows: seq<Row>, i: nat, n: nat, m: nat)
    requires i < |rows| && Up(rows, i, n) == None && Up(rows, i, m) == None
    ensures Height(rows, i, n) == Height(rows, i, m)
    decreases n
  {
    if ParentRow(rows, i).None? {
    } else {
      HeightSame(rows, ParentRow(rows, i).value, n - 1, m - 1);
    }
  }

  ghost function EndOf(rows: seq<Row>, i: nat): (n: nat)
    requires i < |rows| && Ends(rows, i)
    ensures Up(rows, i, n) == None
  {
    var n: nat :| Up(rows, i, n) == None;
    n
  }

  lemma AcyclicIsRanked(rows: seq<Row>) returns (rank: seq<nat>)
    requires Acyclic(rows)
    ensures Ranked(rows, rank)
  {
    rank := seq(|rows|, i requires 0 <= i < |rows| => Height(rows, i, EndOf(rows, i)));
    forall i | 0 <= i < |rows| && ParentRow(rows, i).Some?
      ensures rank[ParentRow(rows, i).value] < rank[i]
    {
      var q := ParentRow(rows, i).value;
      assert Up(rows, q, EndOf(rows, i) - 1) == None;
      HeightSame(rows, q, EndOf(rows, q), EndOf(rows, i) - 1);
    }
  }

  /** Every row stands behind its parent. */
  ghost predicate Ordered(rows: seq<Row>, out: seq<nat>) {
    forall k :: 0 <= k < |out| && out[k] < |rows| && ParentRow(rows, out[k]).Some? ==>
      ParentRow(rows, out[k]).value in out[..k]
  }

  /** Row `j` is row `i` or above it. */
  ghost predicate Above(rows: seq<Row>, i: nat, j: nat)
    requires i < |rows|
  {
    exists n: nat :: Up(rows, i, n) == Some(j)
  }

  lemma AboveSelf(rows: seq<Row>, i: nat)
    requires i < |rows|
    ensures Above(rows, i, i)
  {
    assert Up(rows, i, 0) == Some(i);
  }

  lemma AboveParent(rows: seq<Row>, i: nat, j: nat)
    requires i < |rows| && ParentRow(rows, i).Some? && Above(rows, ParentRow(rows, i).value, j)
    ensures Above(rows, i, j)
  {
    var n: nat :| Up(rows, ParentRow(rows, i).value, n) == Some(j);
    assert Up(rows, i, n + 1) == Some(j);
  }

  /** Only rows above the first `n` are listed. */
  ghost predicate NoneAhead(rows: seq<Row>, out: seq<nat>, n: nat) {
    forall j :: j in out ==> exists i: nat :: i < n && i < |rows| && Above(rows, i, j)
  }

  /** A row stands before one listed ahead of it only when it is above that one or above one listed before that. */
  ghost predicate OrderKept(rows: seq<Row>, out: seq<nat>) {
    forall a, b :: 0 <= a < b < |out| && out[a] > out[b] ==> exists i: nat :: i <= out[b] && i < |rows| && Above(rows, i, out[a])
  }

  lemma OrderKeptOn(rows: seq<Row>, before: seq<nat>, after: seq<nat>, n: nat)
    requires n < |rows| && before <= after && Distinct(after)
    requires OrderKept(rows, before) && NoneAhead(rows, before, n)
    requires forall k :: 0 <= k < n ==> k in before
    requires forall j :: j in after ==> j in before || Above(rows, n, j)
    ensures OrderKept(rows, after) && NoneAhead(rows, after, n + 1)
  {
    forall a, b | 0 <= a < b < |after| && after[a] > after[b]
      ensures exists i: nat :: i <= after[b] && i < |rows| && Above(rows, i, after[a])
    {
      if b < |before| {
        assert before[a] > before[b];
      } else {
        NewRow(before, after, b, n);
        assert after[a] in after;
      }
    }
  }

  lemma NewRow(before: seq<nat>, after: seq<nat>, b: nat, n: nat)
    requires before <= after && Distinct(after) && |before| <= b < |after|
    requires forall k :: 0 <= k < n ==> k in before
    ensures after[b] >= n
  {
    assert forall k :: 0 <= k < |before| ==> before[k] == after[k] && after[k] != after[b];
    assert after[b] !in before;
  }

  ghost predicate Distinct(out: seq<nat>) {
    forall i, j :: 0 <= i < j < |out| ==> out[i] != out[j]
  }

  /** The variables the nested `visit` closure shares. */
  class Visitor {
    const rows: seq<Row>
    const byId: map<Id, nat>
    ghost const rank: seq<nat>
    var out: seq<nat>
    var done: set<nat>
    var visiting: set<nat>

    constructor (rows: seq<Row>, byId: map<Id, nat>, ghost rank: seq<nat>)
      ensures this.rows == rows && this.byId == byId && this.rank == rank
      ensures out == [] && done == {} && visiting == {}
    {
      this.rows, this.byId, this.rank, out, done, visiting := rows, byId, rank, [], {}, {};
    }

    ghost predicate Indexed() {
      forall id :: (if id in byId then Some(byId[id]) else None) == LastWith(rows, id)
    }

    ghost function Untouched(): set<nat>
      reads this
    {
      set k: nat | k < |rows| && k !in done && k !in visiting
    }

    ghost predicate Valid()
      reads this
    {
      && Distinct(out)
      && (forall i :: i in done <==> i in out)
      && (forall i :: i in done ==> i < |rows|)
      && (forall i :: i in visiting ==> i < |rows|)
      && done !! visiting
      && (Ranked(rows, rank) ==> Ordered(rows, out))
    }

    ghost predicate BelowAll(i: nat)
      requires i < |rows|
      reads this
    {
      Ranked(rows, rank) ==> forall v :: v in visiting && v < |rows| ==> rank[i] < rank[v]
    }

    method Visit(i: nat)
      requires Indexed() && Valid() && i < |rows| && BelowAll(i)
      modifies this
      ensures Valid() && visiting == old(visiting)
      ensures old(out) <= out && old(done) <= done && i in done + visiting
      ensures i in old(done) ==> out == old(out)
      ensures forall j :: j in out ==> j in old(out) || Above(rows, i, j)
      ensures i !in old(done + visiting) && (ParentRow(rows, i).None? || ParentRow(rows, i).value in old(done)) ==>
                out == old(out) + [i]
      decreases Untouched()
    {
      if i in done || i in visiting {
        return;
      }
      ghost var open := Untouched();
      visiting := visiting + {i};
      assert i in open && i !in Untouched() && Untouched() <= open;
      var p := rows[i].parentId;
      if p.Some? && p.value in byId && byId[p.value] != i {
        assert ParentRow(rows, i) == Some(byId[p.value]);
        assert BelowAll(byId[p.value]);
        ghost var before := out;
        Visit(byId[p.value]);
        forall j | j in out && j !in before
          ensures Above(rows, i, j)
        {
          AboveParent(rows, i, j);
        }
        assert Ranked(rows, rank) ==> byId[p.value] !in visiting;
      } else {
        assert ParentRow(rows, i).None?;
      }
      AppendDistinct(out, i);
      AboveSelf(rows, i);
      if Ranked(rows, rank) {
        AppendOrdered(rows, out, i);
      }
      visiting := visiting - {i};
      done := done + {i};
      out := out + [i];
    }
  }

  lemma AppendDistinct(out: seq<nat>, i: nat)
    requires Distinct(out) && i !in out
    ensures Distinct(out + [i])
  {
  }

  lemma AppendOrdered(rows: seq<Row>, out: seq<nat>, i: nat)
    requires Ordered(rows, out) && i < |rows|
    requires ParentRow(rows, i).Some? ==> ParentRow(rows, i).value in out
    ensures Ordered(rows, out + [i])
  {
    var all := out + [i];
    forall k | 0 <= k < |all| && all[k] < |rows| && ParentRow(rows, all[k]).Some?
      ensures ParentRow(rows, all[k]).value in all[..k]
    {
      assert all[..k] == out[..k];
      assert k == |out| ==> out[..k] == out;
    }
  }

  /** `for (const r of rows) byId.set(r.id, r)`. */
  method IndexById(rows: seq<Row>) returns (byId: map<Id, nat>)
    ensures forall id :: (if id in byId then Some(byId[id]) else None) == LastWith(rows, id)
  {
    byId := map[];
    for i := 0 to |rows|
      invariant forall id :: (if id in byId then Some(byId[id]) else None) == LastWith(rows[..i], id)
    {
      assert rows[..i + 1][..i] == rows[..i];
      byId := byId[rows[i].id := i];
    }
    assert rows[..|rows|] == rows;
  }

  /** Every named parent already stands before its row. */
  ghost predicate AlreadyFirst(rows: seq<Row>) {
    forall i :: 0 <= i < |rows| && ParentRow(rows, i).Some? ==> ParentRow(rows, i).value < i
  }

  /** Any parent graph: every row exactly once. Without cycles every row follows its parent, so
      inserting row by row never breaks the foreign key; a list already in that order is unchanged. */
  method ParentsFirstOrder(rows: seq<Row>) returns (out: seq<nat>)
    ensures Distinct(out) && forall i :: i in out <==> 0 <= i < |rows|
    ensures Acyclic(rows) ==> Ordered(rows, out)
    ensures AlreadyFirst(rows) ==> out == seq(|rows|, k => k)
    ensures OrderKept(rows, out)
  {
    var byId := IndexById(rows);
    ghost var rank := [];
    if Acyclic(rows) {
      rank := AcyclicIsRanked(rows);
    }
    var v := new Visitor(rows, byId, rank);
    for i := 0 to |rows|
      invariant v.Indexed() && v.Valid() && v.visiting == {} && v.rows == rows && v.rank == rank
      invariant forall k :: 0 <= k < i ==> k in v.done
      invariant AlreadyFirst(rows) ==> v.out == seq(i, k => k)
      invariant OrderKept(rows, v.out) && NoneAhead(rows, v.out, i)
    {
      assert AlreadyFirst(rows) ==> i !in v.done;
      ghost var before := v.out;
      v.Visit(i);
      OrderKeptOn(rows, before, v.out, i);
    }
    out := v.out;
  }

  // ---- The order read off the ids ----

  predicate NamesOther(r: Row, q: Row) {
    r.parentId == Some(q.id) && r.id != q.id
  }

  /** In an order of this kind a row that names another one as its parent stands behind a row with that id. */
  lemma ParentStandsFirst(rows: seq<Row>, out: seq<nat>, i: nat, j: nat) returns (before: nat)
    requires Ordered(rows, out) && (forall x :: x in out <==> 0 <= x < |rows|)
    requires i < |rows| && j < |out| && out[j] < |rows| && NamesOther(rows[out[j]], rows[i])
    ensures before < j && out[before] < |rows| && rows[out[before]].id == rows[i].id
  {
    assert out[j] in out;
    var p := ParentRow(rows, out[j]);
    assert p.value in out[..j];
    before :| 0 <= before < j && out[..j][before] == p.value;
  }

  /** Parents by id that some numbering of the ids follows close no cycle. */
  lemma NumberedIsAcyclic(rows: seq<Row>, number: map<Id, nat>)
    requires forall i :: 0 <= i < |rows| ==> rows[i].id in number
    requires forall i, j :: 0 <= i < |rows| && 0 <= j < |rows| && NamesOther(rows[i], rows[j]) ==>
               number[rows[j].id] < number[rows[i].id]
    ensures Acyclic(rows)
  {
    forall i: nat | i < |rows|
      ensures Ends(rows, i)
    {
      var n := NumberedEnds(rows, number, i);
    }
  }

  lemma {:induction false} NumberedEnds(rows: seq<Row>, number: map<Id, nat>, i: nat) returns (n: nat)
    requires forall k :: 0 <= k < |rows| ==> rows[k].id in number
    requires forall k, j :: 0 <= k < |rows| && 0 <= j < |rows| && NamesOther(rows[k], rows[j]) ==>
               number[rows[j].id] < number[rows[k].id]
    requires i < |rows|
    ensures Up(rows, i, n) == None
    decreases number[rows[i].id], if LastWith(rows, rows[i].id) == Some(i) then 0 else 1
  {
    var p := ParentRow(rows, i);
    if p.None? {
      n := 1;
    } else {
      assert rows[i].parentId == Some(rows[p.value].id);
      n := NumberedEnds(rows, number, p.value);
      n := n + 1;
    }
  }

  /** A list in which every row with the id a row names stands before it is already in order. */
  lemma ListedFirst(rows: seq<Row>)
    requires forall i, j :: 0 <= i < |rows| && 0 <= j < |rows| && i != j && rows[i].parentId == Some(rows[j].id) ==> j < i
    ensures AlreadyFirst(rows)
  {
  }
}
