/**
 * The one-time masking pass over the history tables: `history-mask-migration.ts`.
 *
 * A row is its rowid and one text standing for all its snapshot columns. What the scrubber does is a map from texts to
 * masked texts; a text it throws on is not in the map.
 */
module HistoryMask {
  import opened Options

  type Table = map<int, string>
  type Masks = map<string, string>

  datatype Kind = History | Runner

  /** Masking a masked text changes nothing. */
  ghost predicate Idempotent(masks: Masks) {
    forall t :: t in masks ==> masks[t] in masks && masks[masks[t]] == masks[t]
  }

  /** What other writers store: text that is masked already. */
  predicate Clean(masks: Masks, t: string) {
    t in masks && masks[t] == t
  }

  /** An empty runner report is passed over before masking it is tried. */
  predicate PassedOver(kind: Kind, t: string) {
    kind.Runner? && t == ""
  }

  predicate Poison(kind: Kind, masks: Masks, t: string) {
    t !in masks && !PassedOver(kind, t)
  }

  function Masked(kind: Kind, masks: Masks, t: string): string {
    if t in masks && !PassedOver(kind, t) then masks[t] else t
  }

  /** The pass would leave this text as it is. */
  predicate Settled(kind: Kind, masks: Masks, t: string) {
    Masked(kind, masks, t) == t
  }

  lemma {:induction false} MaskedIsSettled(kind: Kind, masks: Masks, t: string)
    requires Idempotent(masks)
    ensures Settled(kind, masks, Masked(kind, masks, t))
  {
  }

  function MaskRange(kind: Kind, masks: Masks, table: Table, from: int, upto: int): Table {
    map r | r in table :: if from < r <= upto then Masked(kind, masks, table[r]) else table[r]
  }

  // ---- Batches ----

  /** The rows after `last`, ascending, and none left out up to the last one listed. */
  ghost predicate AreNext(table: Table, last: int, rows: seq<int>) {
    && (forall i :: 0 <= i < |rows| ==> rows[i] in table && rows[i] > last)
    && (forall i, j :: 0 <= i < j < |rows| ==> rows[i] < rows[j])
    && (forall r :: r in table && r > last && rows != [] && r <= rows[|rows| - 1] ==> r in rows)
  }

  ghost predicate NoneAfter(table: Table, last: int) {
    forall r :: r in table ==> r <= last
  }

  /** The smallest rowid after `last`. */
  method FirstAfter(table: Table, last: int) returns (found: Option<int>)
    ensures found.None? ==> NoneAfter(table, last)
    ensures found.Some? ==> found.value in table && found.value > last
    ensures found.Some? ==> forall r :: r in table && r > last ==> found.value <= r
  {
    found := None;
    var left := table.Items;
    while left != {}
      invariant left <= table.Items
      invariant found.None? ==> forall r :: r in table && (r, table[r]) !in left ==> r <= last
      invariant found.Some? ==> found.value in table && found.value > last
      invariant found.Some? ==> forall r :: r in table && (r, table[r]) !in left && r > last ==> found.value <= r
      decreases |left|
    {
      var row :| row in left;
      left := left - {row};
      if row.0 > last && (found.None? || row.0 < found.value) {
        found := Some(row.0);
      }
    }
  }

  /** `WHERE rowid > ? ORDER BY rowid LIMIT ?`. */
  method NextRows(table: Table, last: int, limit: nat) returns (rows: seq<int>)
    ensures AreNext(table, last, rows) && |rows| <= limit
    ensures |rows| < limit ==> NoneAfter(table, if rows == [] then last else rows[|rows| - 1])
  {
    rows := [];
    var at := last;
    var more := true;
    while |rows| < limit && more
      invariant |rows| <= limit && AreNext(table, last, rows)
      invariant at == if rows == [] then last else rows[|rows| - 1]
      invariant !more ==> NoneAfter(table, at)
      decreases limit - |rows|, more
    {
      var next := FirstAfter(table, at);
      if next.Some? {
        rows := rows + [next.value];
        at := next.value;
      } else {
        more := false;
      }
    }
  }

  function TotalSize(table: Table, rows: seq<int>): nat
    requires forall i :: 0 <= i < |rows| ==> rows[i] in table
  {
    if rows == [] then 0 else TotalSize(table, rows[..|rows| - 1]) + |table[rows[|rows| - 1]]|
  }

  /** Up to the byte cap, but always one row. */
  method NextBatchIds(table: Table, rows: seq<int>, bytes: nat) returns (ids: seq<int>)
    requires forall i :: 0 <= i < |rows| ==> rows[i] in table
    ensures ids <= rows && (rows != [] ==> ids != [])
    ensures |ids| > 1 ==> TotalSize(table, ids) <= bytes
    ensures |ids| < |rows| ==> TotalSize(table, rows[..|ids| + 1]) > bytes
  {
    ids := [];
    var total := 0;
    for i := 0 to |rows|
      invariant ids == rows[..i] && total == TotalSize(table, ids)
      invariant i > 1 ==> total <= bytes
    {
      var size := |table[rows[i]]|;
      assert rows[..i + 1][..i] == rows[..i];
      if i > 0 && total + size > bytes {
        return;
      }
      ids := ids + [rows[i]];
      assert ids == rows[..i + 1];
      total := total + size;
    }
  }

  /** The rows of a batch in the range it covers that masking changes. */
  function ChangedRows(kind: Kind, masks: Masks, table: Table, from: int, upto: int): set<int> {
    set r | r in table && from < r <= upto && !Settled(kind, masks, table[r])
  }

  function PoisonRows(kind: Kind, masks: Masks, table: Table, from: int, upto: int): set<int> {
    set r | r in table && from < r <= upto && Poison(kind, masks, table[r])
  }

  /** A batch whose rows up to `upto` are done. */
  ghost predicate BatchAt(kind: Kind, masks: Masks, table: Table, last: int, upto: int,
                          after: Table, updated: nat, skipped: set<int>)
  {
    && after == MaskRange(kind, masks, table, last, upto)
    && updated == |ChangedRows(kind, masks, table, last, upto)|
    && skipped == PoisonRows(kind, masks, table, last, upto)
  }

  /** One transaction: the rows in `(last, upto]`, each masked or, if masking throws, reported. */
  method MaskBatch(kind: Kind, masks: Masks, table: Table, last: int, ids: seq<int>)
    returns (after: Table, updated: nat, skipped: set<int>)
    requires AreNext(table, last, ids) && ids != []
    ensures BatchAt(kind, masks, table, last, ids[|ids| - 1], after, updated, skipped)
  {
    after := table;
    updated := 0;
    skipped := {};
    ghost var upto := last;
    BatchStarts(kind, masks, table, last);
    for i := 0 to |ids|
      invariant upto == if i == 0 then last else ids[i - 1]
      invariant BatchAt(kind, masks, table, last, upto, after, updated, skipped)
    {
      var r := ids[i];
      NextInBatch(table, last, ids, i);
      RowDone(kind, masks, table, last, upto, r, after, updated, skipped);
      var masked, failed := MaskRow(kind, masks, table[r]);
      if masked.Some? {
        after := after[r := masked.value];
        updated := updated + 1;
      }
      if failed {
        skipped := skipped + {r};
      }
      upto := r;
    }
  }

  /** The text to write, if it is a new one, and whether masking threw. */
  method MaskRow(kind: Kind, masks: Masks, t: string) returns (masked: Option<string>, failed: bool)
    ensures masked == if Settled(kind, masks, t) then None else Some(Masked(kind, masks, t))
    ensures failed == Poison(kind, masks, t)
  {
    if PassedOver(kind, t) {
      return None, false;
    }
    if t !in masks {
      return None, true;
    }
    return if masks[t] != t then Some(masks[t]) else None, false;
  }

  lemma {:induction false} BatchStarts(kind: Kind, masks: Masks, table: Table, last: int)
    ensures BatchAt(kind, masks, table, last, last, table, 0, {})
  {
    assert ChangedRows(kind, masks, table, last, last) == {};
  }

  lemma {:induction false} RowDone(kind: Kind, masks: Masks, table: Table, last: int, upto: int, r: int,
                                   after: Table, updated: nat, skipped: set<int>)
    requires BatchAt(kind, masks, table, last, upto, after, updated, skipped)
    requires r in table && last <= upto < r
    requires forall x :: x in table && upto < x <= r ==> x == r
    ensures var settled, poison := Settled(kind, masks, table[r]), Poison(kind, masks, table[r]);
            BatchAt(kind, masks, table, last, r, if settled then after else after[r := Masked(kind, masks, table[r])],
                    if settled then updated else updated + 1, if poison then skipped + {r} else skipped)
  {
    OneMoreRow(kind, masks, table, last, upto, r);
  }

  lemma {:induction false} NextInBatch(table: Table, last: int, ids: seq<int>, i: nat)
    requires AreNext(table, last, ids) && i < |ids|
    ensures var before := if i == 0 then last else ids[i - 1];
            before < ids[i] && forall r :: r in table && before < r <= ids[i] ==> r == ids[i]
  {
    var before := if i == 0 then last else ids[i - 1];
    forall r | r in table && before < r <= ids[i]
      ensures r == ids[i]
    {
      assert ids[i] <= ids[|ids| - 1];
      assert r in ids;
      var j :| 0 <= j < |ids| && ids[j] == r;
    }
  }

  lemma {:induction false} OneMoreRow(kind: Kind, masks: Masks, table: Table, last: int, upto: int, r: int)
    requires r in table && last <= upto < r
    requires forall x :: x in table && upto < x <= r ==> x == r
    ensures MaskRange(kind, masks, table, last, r) == MaskRange(kind, masks, table, last, upto)[r := Masked(kind, masks, table[r])]
    ensures MaskRange(kind, masks, table, last, upto)[r] == table[r]
    ensures ChangedRows(kind, masks, table, last, r) ==
            ChangedRows(kind, masks, table, last, upto) + if Settled(kind, masks, table[r]) then {} else {r}
    ensures r !in ChangedRows(kind, masks, table, last, upto)
    ensures PoisonRows(kind, masks, table, last, r) ==
            PoisonRows(kind, masks, table, last, upto) + if Poison(kind, masks, table[r]) then {r} else {}
  {
  }

  // ---- The pass over one table ----

  /** What other writers do to the two tables while the pass yields. */
  datatype Others = Others(historyGone: set<int>, historyPut: Table, runnerGone: set<int>, runnerPut: Table)

  const NOBODY := Others({}, map[], {}, map[])

  /**
   * What happens behind a batch: the pass yields and goes on, or it ends there, or its transaction fails behind the
   * rows up to `at` and is rolled back.
   */
  datatype Event = Paused(others: Others) | Interrupted | RolledBack(at: int)

  ghost predicate AllClean(masks: Masks, table: Table) {
    forall r :: r in table ==> Clean(masks, table[r])
  }

  ghost predicate Polite(masks: Masks, events: seq<Event>) {
    forall i :: 0 <= i < |events| && events[i].Paused? ==>
      AllClean(masks, events[i].others.historyPut) && AllClean(masks, events[i].others.runnerPut)
  }

  ghost predicate Quiet(events: seq<Event>) {
    forall i :: 0 <= i < |events| && events[i].Paused? ==> events[i].others == NOBODY
  }

  function Touched(table: Table, gone: set<int>, put: Table): Table {
    (table - gone) + put
  }

  /** Only other writers were at this table. */
  ghost predicate OnlyOthers(masks: Masks, before: Table, after: Table) {
    forall r :: r in after ==> (r in before && after[r] == before[r]) || Clean(masks, after[r])
  }

  /** Every row is as it was, or masked, or put there masked by somebody else. */
  ghost predicate Passed(kind: Kind, masks: Masks, before: Table, after: Table) {
    forall r :: r in after ==>
      (r in before && (after[r] == before[r] || after[r] == Masked(kind, masks, before[r]))) || Clean(masks, after[r])
  }

  ghost predicate SettledUpTo(kind: Kind, masks: Masks, table: Table, upto: int) {
    forall r :: r in table && 0 < r <= upto ==> Settled(kind, masks, table[r])
  }

  ghost predicate AllSettled(kind: Kind, masks: Masks, table: Table) {
    forall r :: r in table && 0 < r ==> Settled(kind, masks, table[r])
  }

  /** Every row that could not be masked is in the log. */
  ghost predicate Reported(kind: Kind, masks: Masks, table: Table, upto: int, skipped: set<int>) {
    forall r :: r in table && 0 < r <= upto && Poison(kind, masks, table[r]) ==> r in skipped
  }

  ghost predicate AllReported(kind: Kind, masks: Masks, table: Table, skipped: set<int>) {
    forall r :: r in table && 0 < r && Poison(kind, masks, table[r]) ==> r in skipped
  }

  /** The rows a transaction reported before it failed: in its order, and none of those it got to left out. */
  ghost predicate LostReports(kind: Kind, masks: Masks, table: Table, last: int, lost: set<int>) {
    && (forall r :: r in lost ==> r in table && r > last && Poison(kind, masks, table[r]))
    && (forall r, x :: r in table && last < r && Poison(kind, masks, table[r]) && x in lost && r <= x ==> r in lost)
  }

  /** Every row with a positive rowid that has a mask is masked, the others are as they were. */
  ghost predicate AllMasked(masks: Masks, before: Table, after: Table) {
    && after.Keys == before.Keys
    && forall r :: r in before ==> after[r] == if r > 0 && before[r] in masks then masks[before[r]] else before[r]
  }

  /** The rows no mask is known for. An empty runner report is not tried. */
  function Unmaskable(kind: Kind, masks: Masks, table: Table): set<int> {
    set r | r in table && r > 0 && table[r] !in masks && !(kind == Runner && table[r] == "")
  }

  /** The masks know nothing better for the empty text, which a runner report is not even tried with. */
  predicate EmptyStays(masks: Masks) {
    "" in masks ==> masks[""] == ""
  }

  /** A pass nobody interfered with: the rows up to `upto` are masked, and the count is the number of changed rows. */
  ghost predicate QuietPass(kind: Kind, masks: Masks, before: Table, after: Table, upto: int, updated: nat) {
    after == MaskRange(kind, masks, before, 0, upto) && updated == |ChangedRows(kind, masks, before, 0, upto)|
  }

  lemma {:induction false} BatchSettles(kind: Kind, masks: Masks, table: Table, last: int, upto: int,
                                        after: Table, updated: nat, skipped: set<int>, before: set<int>)
    requires Idempotent(masks) && 0 <= last <= upto
    requires SettledUpTo(kind, masks, table, last) && Reported(kind, masks, table, last, before)
    requires BatchAt(kind, masks, table, last, upto, after, updated, skipped)
    ensures SettledUpTo(kind, masks, after, upto) && Reported(kind, masks, after, upto, before + skipped)
  {
    forall r | r in after && 0 < r <= upto
      ensures Settled(kind, masks, after[r])
      ensures Poison(kind, masks, after[r]) ==> r in before + skipped
    {
      MaskedIsSettled(kind, masks, table[r]);
    }
  }

  lemma {:induction false} BatchPasses(kind: Kind, masks: Masks, first: Table, table: Table, last: int, upto: int, after: Table)
    requires Idempotent(masks) && Passed(kind, masks, first, table)
    requires after == MaskRange(kind, masks, table, last, upto)
    ensures Passed(kind, masks, first, after)
  {
    forall r | r in after
      ensures (r in first && (after[r] == first[r] || after[r] == Masked(kind, masks, first[r]))) || Clean(masks, after[r])
    {
      assert r in table;
    }
  }

  lemma {:induction false} RangesMeet(kind: Kind, masks: Masks, first: Table, last: int, upto: int)
    requires 0 <= last <= upto
    ensures MaskRange(kind, masks, MaskRange(kind, masks, first, 0, last), last, upto) == MaskRange(kind, masks, first, 0, upto)
  {
  }

  lemma {:induction false} ChangesAdd(kind: Kind, masks: Masks, first: Table, last: int, upto: int)
    requires 0 <= last <= upto
    ensures |ChangedRows(kind, masks, first, 0, upto)| ==
            |ChangedRows(kind, masks, first, 0, last)| + |ChangedRows(kind, masks, first, last, upto)|
  {
    var a, b := ChangedRows(kind, masks, first, 0, last), ChangedRows(kind, masks, first, last, upto);
    assert ChangedRows(kind, masks, first, 0, upto) == a + b;
    assert a !! b;
  }

  lemma {:induction false} LaterRowsAreOld(kind: Kind, masks: Masks, first: Table, last: int, upto: int)
    ensures ChangedRows(kind, masks, MaskRange(kind, masks, first, 0, last), last, upto) ==
            ChangedRows(kind, masks, first, last, upto)
  {
  }

  lemma {:induction false} QuietGoesOn(kind: Kind, masks: Masks, first: Table, table: Table, last: int, upto: int,
                                       after: Table, updated: nat, more: nat, skipped: set<int>)
    requires 0 <= last <= upto
    requires QuietPass(kind, masks, first, table, last, updated)
    requires BatchAt(kind, masks, table, last, upto, after, more, skipped)
    ensures QuietPass(kind, masks, first, after, upto, updated + more)
  {
    RangesMeet(kind, masks, first, last, upto);
    ChangesAdd(kind, masks, first, last, upto);
    LaterRowsAreOld(kind, masks, first, last, upto);
  }

  lemma {:induction false} OthersKeep(kind: Kind, masks: Masks, first: Table, table: Table, gone: set<int>, put: Table,
                                      upto: int, skipped: set<int>)
    requires AllClean(masks, put) && Passed(kind, masks, first, table)
    requires SettledUpTo(kind, masks, table, upto) && Reported(kind, masks, table, upto, skipped)
    ensures var after := Touched(table, gone, put);
            && Passed(kind, masks, first, after)
            && SettledUpTo(kind, masks, after, upto) && Reported(kind, masks, after, upto, skipped)
  {
    var after := Touched(table, gone, put);
    forall r | r in after
      ensures (r in put && after[r] == put[r] && Clean(masks, put[r])) || (r in table && after[r] == table[r])
    {
    }
  }

  lemma {:induction false} OthersKeepOther(masks: Masks, first: Table, table: Table, gone: set<int>, put: Table)
    requires AllClean(masks, put) && OnlyOthers(masks, first, table)
    ensures OnlyOthers(masks, first, Touched(table, gone, put))
  {
    var after := Touched(table, gone, put);
    forall r | r in after
      ensures (r in put && after[r] == put[r] && Clean(masks, put[r])) || (r in table && after[r] == table[r])
    {
    }
  }

  lemma {:induction false} NobodyTouches(table: Table)
    ensures Touched(table, {}, map[]) == table
  {
  }

  /** A pass that has done the rows up to `last`. */
  ghost predicate PassAt(kind: Kind, masks: Masks, quiet: bool, first: Table, firstOther: Table,
                         table: Table, other: Table, last: int, updated: nat, skipped: set<int>)
  {
    && last >= 0
    && Passed(kind, masks, first, table)
    && OnlyOthers(masks, firstOther, other)
    && SettledUpTo(kind, masks, table, last)
    && Reported(kind, masks, table, last, skipped)
    && (quiet ==> QuietPass(kind, masks, first, table, last, updated) && other == firstOther)
    && (quiet ==> skipped == PoisonRows(kind, masks, first, 0, last))
  }

  lemma {:induction false} PassStarts(kind: Kind, masks: Masks, quiet: bool, table: Table, other: Table)
    ensures PassAt(kind, masks, quiet, table, other, table, other, 0, 0, {})
  {
    assert ChangedRows(kind, masks, table, 0, 0) == {} && PoisonRows(kind, masks, table, 0, 0) == {};
  }

  lemma {:induction false} PoisonAdds(kind: Kind, masks: Masks, first: Table, last: int, upto: int)
    requires 0 <= last <= upto
    ensures PoisonRows(kind, masks, first, 0, upto) ==
            PoisonRows(kind, masks, first, 0, last) + PoisonRows(kind, masks, MaskRange(kind, masks, first, 0, last), last, upto)
  {
  }

  lemma {:induction false} PassCommits(kind: Kind, masks: Masks, quiet: bool, first: Table, firstOther: Table,
                                       table: Table, other: Table, last: int, updated: nat, skipped: set<int>,
                                       upto: int, after: Table, more: nat, unmaskable: set<int>)
    requires Idempotent(masks) && last <= upto
    requires PassAt(kind, masks, quiet, first, firstOther, table, other, last, updated, skipped)
    requires BatchAt(kind, masks, table, last, upto, after, more, unmaskable)
    ensures PassAt(kind, masks, quiet, first, firstOther, after, other, upto, updated + more, skipped + unmaskable)
  {
    BatchSettles(kind, masks, table, last, upto, after, more, unmaskable, skipped);
    BatchPasses(kind, masks, first, table, last, upto, after);
    if quiet {
      QuietGoesOn(kind, masks, first, table, last, upto, after, updated, more, unmaskable);
      PoisonAdds(kind, masks, first, last, upto);
    }
  }

  lemma {:induction false} PassYields(kind: Kind, masks: Masks, quiet: bool, first: Table, firstOther: Table,
                                      table: Table, other: Table, last: int, updated: nat, skipped: set<int>,
                                      gone: set<int>, put: Table, otherGone: set<int>, otherPut: Table)
    requires PassAt(kind, masks, quiet, first, firstOther, table, other, last, updated, skipped)
    requires AllClean(masks, put) && AllClean(masks, otherPut)
    requires quiet ==> gone == {} && put == map[] && otherGone == {} && otherPut == map[]
    ensures PassAt(kind, masks, quiet, first, firstOther, Touched(table, gone, put), Touched(other, otherGone, otherPut),
                   last, updated, skipped)
  {
    OthersKeep(kind, masks, first, table, gone, put, last, skipped);
    OthersKeepOther(masks, firstOther, other, otherGone, otherPut);
    NobodyTouches(table);
    NobodyTouches(other);
  }

  /** What others leave of the table a pass is at, and of the other one. */
  function LeftBy(kind: Kind, o: Others, table: Table): Table {
    if kind.History? then Touched(table, o.historyGone, o.historyPut) else Touched(table, o.runnerGone, o.runnerPut)
  }

  function OtherKind(kind: Kind): Kind {
    if kind.History? then Runner else History
  }

  lemma {:induction false} PassLetsOthers(kind: Kind, masks: Masks, quiet: bool, first: Table, firstOther: Table,
                                          table: Table, other: Table, last: int, updated: nat, skipped: set<int>, o: Others)
    requires PassAt(kind, masks, quiet, first, firstOther, table, other, last, updated, skipped)
    requires AllClean(masks, o.historyPut) && AllClean(masks, o.runnerPut) && (quiet ==> o == NOBODY)
    ensures PassAt(kind, masks, quiet, first, firstOther, LeftBy(kind, o, table), LeftBy(OtherKind(kind), o, other),
                   last, updated, skipped)
  {
    if kind.History? {
      PassYields(kind, masks, quiet, first, firstOther, table, other, last, updated, skipped,
                 o.historyGone, o.historyPut, o.runnerGone, o.runnerPut);
    } else {
      PassYields(kind, masks, quiet, first, firstOther, table, other, last, updated, skipped,
                 o.runnerGone, o.runnerPut, o.historyGone, o.historyPut);
    }
  }

  function AfterEvent(kind: Kind, e: Event, table: Table): Table {
    if e.Paused? then LeftBy(kind, e.others, table) else table
  }

  /** One turn of the pass: a batch committed, and whatever happens behind it. */
  lemma {:induction false} PassTurns(kind: Kind, masks: Masks, quiet: bool, first: Table, firstOther: Table,
                                     table: Table, other: Table, last: int, updated: nat, skipped: set<int>,
                                     upto: int, after: Table, more: nat, unmaskable: set<int>, e: Event)
    requires Idempotent(masks) && last <= upto
    requires PassAt(kind, masks, quiet, first, firstOther, table, other, last, updated, skipped)
    requires BatchAt(kind, masks, table, last, upto, after, more, unmaskable)
    requires e.Paused? ==> AllClean(masks, e.others.historyPut) && AllClean(masks, e.others.runnerPut)
    requires e.Paused? && quiet ==> e.others == NOBODY
    ensures PassAt(kind, masks, quiet, first, firstOther, AfterEvent(kind, e, after), AfterEvent(OtherKind(kind), e, other),
                   upto, updated + more, skipped + unmaskable)
  {
    PassCommits(kind, masks, quiet, first, firstOther, table, other, last, updated, skipped, upto, after, more, unmaskable);
    if e.Paused? {
      PassLetsOthers(kind, masks, quiet, first, firstOther, after, other, upto, updated + more, skipped + unmaskable, e.others);
    }
  }

  lemma {:induction false} PassEnds(kind: Kind, masks: Masks, quiet: bool, first: Table, firstOther: Table,
                                    table: Table, other: Table, last: int, updated: nat, skipped: set<int>)
    requires PassAt(kind, masks, quiet, first, firstOther, table, other, last, updated, skipped)
    requires NoneAfter(table, last)
    ensures AllSettled(kind, masks, table) && AllReported(kind, masks, table, skipped)
  {
  }

  lemma {:induction false} BatchIsNext(table: Table, last: int, rows: seq<int>, ids: seq<int>)
    requires AreNext(table, last, rows) && ids <= rows && ids != []
    ensures AreNext(table, last, ids)
  {
    assert forall i :: 0 <= i < |ids| ==> ids[i] == rows[i];
    forall r | r in table && r > last && r <= ids[|ids| - 1]
      ensures r in ids
    {
      assert ids[|ids| - 1] <= rows[|rows| - 1];
      assert r in rows;
      var j :| 0 <= j < |rows| && rows[j] == r;
      assert j < |ids|;
    }
  }

  // ---- A pass goes on ----

  /** The row right behind `last`. */
  ghost predicate IsNext(table: Table, last: int, r: int) {
    r in table && r > last && forall x :: x in table && x > last ==> r <= x
  }

  /** What a batch behind `last` takes: the next rows, as many as fit the two limits, but always one. */
  ghost predicate FullBatch(table: Table, last: int, ids: seq<int>, batch: nat, bytes: nat) {
    && AreNext(table, last, ids) && 0 < |ids| <= batch
    && (|ids| > 1 ==> TotalSize(table, ids) <= bytes)
    && (|ids| < batch ==> forall r :: IsNext(table, ids[|ids| - 1], r) ==> TotalSize(table, ids) + |table[r]| > bytes)
  }

  /** The batches of a pass that nobody interfered with. */
  ghost predicate Cuts(table: Table, cuts: seq<seq<int>>, last: int, batch: nat, bytes: nat)
    decreases |cuts|
  {
    if cuts == [] then last == 0
    else
      var ids := cuts[|cuts| - 1];
      && ids != [] && ids[|ids| - 1] == last
      && exists before :: FullBatch(table, before, ids, batch, bytes) && Cuts(table, cuts[..|cuts| - 1], before, batch, bytes)
  }

  function RowsUpTo(table: Table, last: int): set<int> {
    set r | r in table && 0 < r <= last
  }

  lemma {:induction false} OneMoreCut(table: Table, last: int, upto: int)
    requires 0 <= last < upto && upto in table
    ensures |RowsUpTo(table, upto)| > |RowsUpTo(table, last)|
  {
    var a, b := RowsUpTo(table, last), RowsUpTo(table, upto);
    SubsetSize(a + {upto}, b);
  }

  lemma {:induction false} SubsetSize(a: set<int>, b: set<int>)
    requires a <= b
    ensures |a| <= |b|
  {
    assert b == a + (b - a);
  }

  lemma {:induction false} CutsAppend(table: Table, cuts: seq<seq<int>>, last: int, ids: seq<int>, batch: nat, bytes: nat)
    requires Cuts(table, cuts, last, batch, bytes) && FullBatch(table, last, ids, batch, bytes)
    ensures Cuts(table, cuts + [ids], ids[|ids| - 1], batch, bytes)
  {
    assert (cuts + [ids])[..|cuts|] == cuts;
  }

  /** How far a pass is that nobody interferes with: at least a row a batch. */
  ghost predicate PassCuts(first: Table, cuts: seq<seq<int>>, last: int, batch: nat, bytes: nat) {
    last >= 0 && Cuts(first, cuts, last, batch, bytes) && |cuts| <= |RowsUpTo(first, last)| <= |first|
  }

  lemma {:induction false} CutsStart(first: Table, batch: nat, bytes: nat)
    ensures PassCuts(first, [], 0, batch, bytes)
  {
    SubsetSize(RowsUpTo(first, 0), first.Keys);
  }

  /** Another batch of such a pass, which was not at the table's end yet. */
  lemma {:induction false} CutsGoOn(kind: Kind, masks: Masks, first: Table, table: Table, cuts: seq<seq<int>>, last: int, updated: nat,
                                    ids: seq<int>, batch: nat, bytes: nat)
    requires PassCuts(first, cuts, last, batch, bytes) && QuietPass(kind, masks, first, table, last, updated)
    requires FullBatch(table, last, ids, batch, bytes)
    ensures PassCuts(first, cuts + [ids], ids[|ids| - 1], batch, bytes) && |cuts| < |first|
  {
    FullBatchAhead(kind, masks, first, last, ids, batch, bytes);
    CutsAppend(first, cuts, last, ids, batch, bytes);
    OneMoreCut(first, last, ids[|ids| - 1]);
    SubsetSize(RowsUpTo(first, ids[|ids| - 1]), first.Keys);
  }

  /** What a rolled back transaction reported: the rows of its batch that cannot be masked, as far as it got. */
  ghost predicate ReportedBefore(kind: Kind, masks: Masks, table: Table, last: int, at: int, batch: nat, bytes: nat, lost: set<int>) {
    exists ids :: FullBatch(table, last, ids, batch, bytes) &&
      lost == set r | r in ids && r <= at && Poison(kind, masks, table[r])
  }

  ghost predicate Lost(kind: Kind, masks: Masks, table: Table, last: int, at: int, batch: nat, bytes: nat, lost: set<int>) {
    ReportedBefore(kind, masks, table, last, at, batch, bytes, lost) && LostReports(kind, masks, table, last, lost)
  }

  lemma {:induction false} LostIsReported(kind: Kind, masks: Masks, table: Table, last: int, ids: seq<int>, at: int, batch: nat, bytes: nat,
                                          unmaskable: set<int>, lost: set<int>)
    requires FullBatch(table, last, ids, batch, bytes) && unmaskable == PoisonRows(kind, masks, table, last, ids[|ids| - 1])
    requires lost == set r | r in unmaskable && r <= at
    ensures Lost(kind, masks, table, last, at, batch, bytes, lost)
  {
    assert forall i :: 0 <= i < |ids| ==> ids[i] <= ids[|ids| - 1];
    assert lost == set r | r in ids && r <= at && Poison(kind, masks, table[r]);
  }

  lemma {:induction false} QuietEnd(kind: Kind, masks: Masks, before: Table, after: Table, upto: int, updated: nat)
    requires QuietPass(kind, masks, before, after, upto, updated) && NoneAfter(after, upto)
    ensures kind == History || EmptyStays(masks) ==> AllMasked(masks, before, after)
    ensures kind == Runner ==> forall r :: r in before && before[r] == "" ==> r in after && after[r] == ""
    ensures PoisonRows(kind, masks, before, 0, upto) == Unmaskable(kind, masks, before)
  {
    assert forall r :: r in before ==> r in after;
  }

  /** Why a pass stops before the table's end: it was cut short, or nothing more is said to happen. */
  ghost predicate CutShort(events: seq<Event>, from: nat, next: nat) {
    || next >= |events|
    || events[next].RolledBack?
    || (from < next && events[next - 1].Interrupted?)
  }

  /** How far a pass went, and why no further: a batch an event; all the way when nobody interferes and nothing cuts it short. */
  ghost predicate Went(events: seq<Event>, from: nat, first: Table, batch: nat, bytes: nat, reached: int, complete: bool, next: nat,
                       cuts: seq<seq<int>>)
  {
    && from <= next <= |events| && |cuts| == next - from
    && (complete || CutShort(events, from, next))
    && (Quiet(events) ==> PassCuts(first, cuts, reached, batch, bytes))
    && (Quiet(events) && AllPaused(events) && |events| - from >= |first| ==> complete)
  }

  /** What a pass leaves to do and to report. */
  ghost predicate LeftOff(kind: Kind, masks: Masks, events: seq<Event>, table: Table, batch: nat, bytes: nat, reached: int,
                          skipped: set<int>, lost: set<int>, complete: bool, next: nat)
  {
    && LostReports(kind, masks, table, reached, lost)
    && (complete ==> NoneAfter(table, reached) && lost == {})
    && (complete ==> AllSettled(kind, masks, table) && AllReported(kind, masks, table, skipped))
    && (!complete && next < |events| && events[next].RolledBack? && (next == 0 || !events[next - 1].Interrupted?) ==>
          ReportedBefore(kind, masks, table, reached, events[next].at, batch, bytes, lost))
  }

  predicate AllPaused(events: seq<Event>) {
    forall i :: 0 <= i < |events| ==> events[i].Paused?
  }

  lemma {:induction false} SameSizes(a: Table, b: Table, ids: seq<int>)
    requires forall i :: 0 <= i < |ids| ==> ids[i] in a && ids[i] in b && a[ids[i]] == b[ids[i]]
    ensures TotalSize(a, ids) == TotalSize(b, ids)
  {
    if ids == [] {
    } else {
      SameSizes(a, b, ids[..|ids| - 1]);
    }
  }

  lemma {:induction false} FullBatchAhead(kind: Kind, masks: Masks, first: Table, last: int, ids: seq<int>, batch: nat, bytes: nat)
    requires FullBatch(MaskRange(kind, masks, first, 0, last), last, ids, batch, bytes)
    ensures FullBatch(first, last, ids, batch, bytes)
  {
    var table := MaskRange(kind, masks, first, 0, last);
    assert forall r :: r in table <==> r in first;
    SameSizes(table, first, ids);
    forall r | IsNext(first, ids[|ids| - 1], r)
      ensures IsNext(table, ids[|ids| - 1], r) && table[r] == first[r]
    {
      assert ids[0] <= ids[|ids| - 1];
    }
  }

  /** Cutting the next rows at the byte limit takes as many as fit. */
  lemma {:induction false} CutIsFull(table: Table, last: int, rows: seq<int>, ids: seq<int>, batch: nat, bytes: nat)
    requires AreNext(table, last, rows) && ids <= rows && ids != [] && |rows| <= batch
    requires |rows| < batch ==> NoneAfter(table, rows[|rows| - 1])
    requires |ids| > 1 ==> TotalSize(table, ids) <= bytes
    requires |ids| < |rows| ==> TotalSize(table, rows[..|ids| + 1]) > bytes
    ensures FullBatch(table, last, ids, batch, bytes)
  {
    BatchIsNext(table, last, rows, ids);
    var n := |ids|;
    forall r | n < batch && IsNext(table, ids[n - 1], r)
      ensures TotalSize(table, ids) + |table[r]| > bytes
    {
      if n < |rows| {
        assert rows[n - 1] == ids[n - 1];
        NextIsListed(table, last, rows, n, r);
        assert rows[..n + 1][..n] == ids;
      }
    }
  }

  lemma {:induction false} NextIsListed(table: Table, last: int, rows: seq<int>, n: nat, r: int)
    requires AreNext(table, last, rows) && 0 < n < |rows| && IsNext(table, rows[n - 1], r)
    ensures r == rows[n]
  {
    assert rows[n] in table && rows[n] > rows[n - 1];
    assert r <= rows[n] <= rows[|rows| - 1];
    assert r in rows;
    var j :| 0 <= j < |rows| && rows[j] == r;
    assert j >= n;
  }

  lemma {:induction false} WentAll(events: seq<Event>, from: nat, first: Table, batch: nat, bytes: nat, reached: int, next: nat,
                                   cuts: seq<seq<int>>)
    requires from <= next <= |events| && |cuts| == next - from
    requires Quiet(events) ==> PassCuts(first, cuts, reached, batch, bytes)
    ensures Went(events, from, first, batch, bytes, reached, true, next, cuts)
  {
  }

  lemma {:induction false} WentShort(events: seq<Event>, from: nat, first: Table, batch: nat, bytes: nat, reached: int, next: nat,
                                     cuts: seq<seq<int>>)
    requires from <= next <= |events| && |cuts| == next - from && CutShort(events, from, next)
    requires Quiet(events) ==> PassCuts(first, cuts, reached, batch, bytes)
    requires Quiet(events) && next == |events| ==> |cuts| < |first| || !AllPaused(events)
    ensures Went(events, from, first, batch, bytes, reached, false, next, cuts)
  {
  }

  lemma {:induction false} LeftAtEnd(kind: Kind, masks: Masks, events: seq<Event>, table: Table, batch: nat, bytes: nat, reached: int,
                                     skipped: set<int>, next: nat)
    requires NoneAfter(table, reached) && AllSettled(kind, masks, table) && AllReported(kind, masks, table, skipped)
    ensures LeftOff(kind, masks, events, table, batch, bytes, reached, skipped, {}, true, next)
  {
  }

  lemma {:induction false} LeftShort(kind: Kind, masks: Masks, events: seq<Event>, table: Table, batch: nat, bytes: nat, reached: int,
                                     skipped: set<int>, next: nat)
    requires next >= |events| || (next > 0 && events[next - 1].Interrupted?)
    ensures LeftOff(kind, masks, events, table, batch, bytes, reached, skipped, {}, false, next)
  {
  }

  lemma {:induction false} LeftRolledBack(kind: Kind, masks: Masks, events: seq<Event>, table: Table, batch: nat, bytes: nat, reached: int,
                                          skipped: set<int>, lost: set<int>, next: nat)
    requires next < |events| && events[next].RolledBack? && LostReports(kind, masks, table, reached, lost)
    requires ReportedBefore(kind, masks, table, reached, events[next].at, batch, bytes, lost)
    ensures LeftOff(kind, masks, events, table, batch, bytes, reached, skipped, lost, false, next)
  {
  }

  /** The next batch, masked but not written yet; `None` when there is nothing left after `last`. */
  method PrepareBatch(kind: Kind, masks: Masks, table: Table, last: int, batch: nat, bytes: nat)
    returns (upto: Option<int>, after: Table, more: nat, unmaskable: set<int>, ghost batched: seq<int>)
    requires batch > 0
    ensures upto.None? ==> NoneAfter(table, last)
    ensures upto.Some? ==> upto.value > last && BatchAt(kind, masks, table, last, upto.value, after, more, unmaskable)
    ensures upto.Some? ==> FullBatch(table, last, batched, batch, bytes) && batched[|batched| - 1] == upto.value
  {
    var rows := NextRows(table, last, batch);
    var ids := NextBatchIds(table, rows, bytes);
    if |ids| == 0 {
      return None, table, 0, {}, [];
    }
    BatchIsNext(table, last, rows, ids);
    CutIsFull(table, last, rows, ids, batch, bytes);
    after, more, unmaskable := MaskBatch(kind, masks, table, last, ids);
    upto, batched := Some(ids[|ids| - 1]), ids;
  }

  /** `Math.max(1, n)`. */
  function AtLeastOne(n: int): (m: nat)
    ensures m >= 1 && m >= n && (m == 1 || m == n)
  {
    if n < 1 then 1 else n
  }

  /** How a turn of the loop ends: nothing left, not committed, or committed. */
  datatype Turn = Ended | Failed | Done

  class HistoryDb {
    var history: Table
    var runner: Table
    var marker: bool

    function Rows(kind: Kind): Table
      reads this
    {
      if kind.History? then history else runner
    }

    function OtherRows(kind: Kind): Table
      reads this
    {
      if kind.History? then runner else history
    }

    method Store(kind: Kind, table: Table)
      modifies this`history, this`runner
      ensures Rows(kind) == table && OtherRows(kind) == old(OtherRows(kind))
    {
      if kind.History? {
        history := table;
      } else {
        runner := table;
      }
    }

    method LetOthers(o: Others)
      modifies this`history, this`runner
      ensures history == LeftBy(History, o, old(history)) && runner == LeftBy(Runner, o, old(runner))
    {
      history := Touched(history, o.historyGone, o.historyPut);
      runner := Touched(runner, o.runnerGone, o.runnerPut);
    }

    /** The commit, and the pause behind it unless the pass ends there. */
    method CommitThenYield(kind: Kind, after: Table, e: Event)
      modifies this`history, this`runner
      ensures Rows(kind) == AfterEvent(kind, e, after)
      ensures OtherRows(kind) == AfterEvent(OtherKind(kind), e, old(OtherRows(kind)))
    {
      Store(kind, after);
      if e.Paused? {
        LetOthers(e.others);
      }
    }

    /**
     * One turn of the loop: the next batch, unless the table or the events end here. `u`, `s` and `l` are what the turn
     * adds to the counts and reports.
     */
    method NextBatch(kind: Kind, masks: Masks, batch: nat, bytes: nat, e: Option<Event>, last: int,
                     ghost quiet: bool, ghost first: Table, ghost firstOther: Table, ghost updated: nat, ghost skipped: set<int>)
      returns (turn: Turn, upto: int, u: nat, s: set<int>, ghost ids: seq<int>)
      requires batch > 0 && Idempotent(masks)
      requires e.Some? && e.value.Paused? ==> AllClean(masks, e.value.others.historyPut) && AllClean(masks, e.value.others.runnerPut)
      requires e.Some? && e.value.Paused? && quiet ==> e.value.others == NOBODY
      requires PassAt(kind, masks, quiet, first, firstOther, Rows(kind), OtherRows(kind), last, updated, skipped)
      modifies this`history, this`runner
      ensures PassAt(kind, masks, quiet, first, firstOther, Rows(kind), OtherRows(kind), upto, updated + u,
                     if turn.Done? then skipped + s else skipped)
      ensures !turn.Done? ==> upto == last && u == 0
      ensures turn.Ended? ==> NoneAfter(Rows(kind), last)
      ensures !turn.Ended? ==> FullBatch(old(Rows(kind)), last, ids, batch, bytes)
      ensures turn.Done? <==> !turn.Ended? && e.Some? && !e.value.RolledBack?
      ensures turn.Done? ==> ids[|ids| - 1] == upto
      ensures turn.Failed? && e.Some? ==> Lost(kind, masks, Rows(kind), last, e.value.at, batch, bytes, s)
    {
      ghost var table, other := Rows(kind), OtherRows(kind);
      var found, after, more, unmaskable;
      found, after, more, unmaskable, ids := PrepareBatch(kind, masks, Rows(kind), last, batch, bytes);
      if found.None? {
        return Ended, last, 0, {}, [];
      }
      if e.None? {
        return Failed, last, 0, {}, ids;
      }
      if e.value.RolledBack? {
        s := set r | r in unmaskable && r <= e.value.at;
        LostIsReported(kind, masks, table, last, ids, e.value.at, batch, bytes, unmaskable, s);
        return Failed, last, 0, s, ids;
      }
      CommitThenYield(kind, after, e.value);
      PassTurns(kind, masks, quiet, first, firstOther, table, other, last, updated, skipped,
                found.value, after, more, unmaskable, e.value);
      turn, upto, u, s := Done, found.value, more, unmaskable;
    }

    /** `maskHistoryTable` and `maskRunnerHistoryTable`; `events[next..]` is what is still to happen when it returns. */
    method MaskTable(kind: Kind, masks: Masks, batch: nat, bytes: nat, events: seq<Event>, from: nat)
      returns (updated: nat, skipped: set<int>, lost: set<int>, complete: bool, next: nat, ghost reached: int, ghost cuts: seq<seq<int>>)
      requires batch > 0 && from <= |events| && Idempotent(masks) && Polite(masks, events)
      modifies this`history, this`runner
      ensures PassAt(kind, masks, Quiet(events), old(Rows(kind)), old(OtherRows(kind)), Rows(kind), OtherRows(kind),
                     reached, updated, skipped)
      ensures Went(events, from, old(Rows(kind)), batch, bytes, reached, complete, next, cuts)
      ensures LeftOff(kind, masks, events, Rows(kind), batch, bytes, reached, skipped, lost, complete, next)
    {
      ghost var first, firstOther, quiet := Rows(kind), OtherRows(kind), Quiet(events);
      var last := 0;
      updated, skipped, lost, complete, next, reached, cuts := 0, {}, {}, false, from, 0, [];
      PassStarts(kind, masks, quiet, first, firstOther);
      CutsStart(first, batch, bytes);
      while true
        invariant from <= next <= |events| && last == reached && lost == {}
        invariant PassAt(kind, masks, quiet, first, firstOther, Rows(kind), OtherRows(kind), last, updated, skipped)
        invariant |cuts| == next - from
        invariant from < next ==> events[next - 1].Paused?
        invariant quiet ==> PassCuts(first, cuts, last, batch, bytes)
        decreases |events| - next
      {
        ghost var table := Rows(kind);
        var e := if next < |events| then Some(events[next]) else None;
        var turn, upto, u, s;
        ghost var ids;
        turn, upto, u, s, ids := NextBatch(kind, masks, batch, bytes, e, last, quiet, first, firstOther, updated, skipped);
        if turn == Ended {
          complete := true;
          PassEnds(kind, masks, quiet, first, firstOther, Rows(kind), OtherRows(kind), last, updated, skipped);
          WentAll(events, from, first, batch, bytes, last, next, cuts);
          LeftAtEnd(kind, masks, events, Rows(kind), batch, bytes, last, skipped, next);
          return;
        }
        if quiet {
          CutsGoOn(kind, masks, first, table, cuts, last, updated, ids, batch, bytes);
        }
        if turn == Failed {
          WentShort(events, from, first, batch, bytes, last, next, cuts);
          if e.Some? {
            lost := s;
            LeftRolledBack(kind, masks, events, Rows(kind), batch, bytes, last, skipped, lost, next);
          } else {
            LeftShort(kind, masks, events, Rows(kind), batch, bytes, last, skipped, next);
          }
          return;
        }
        updated, skipped, last, reached, next, cuts := updated + u, skipped + s, upto, upto, next + 1, cuts + [ids];
        if events[next - 1].Interrupted? {
          WentShort(events, from, first, batch, bytes, last, next, cuts);
          LeftShort(kind, masks, events, Rows(kind), batch, bytes, last, skipped, next);
          return;
        }
      }
    }

    ghost function Stored(): Contents
      reads this
    {
      Contents(history, runner, marker)
    }

    /**
     * `runHistoryMaskMigration`. When no scrubber can be had, or the marker cannot be written, the next launch tries
     * again. The ghost results say how far each pass got and which rows it reported.
     */
    method RunHistoryMaskMigration(scrubber: Option<Masks>, batchSize: int, batchBytes: int, events: seq<Event>, markWorks: bool)
      returns (ran: bool, historyUpdated: nat, runnerUpdated: nat, skipped: nat,
               ghost h: int, ghost r: int, ghost hDone: nat, ghost rDone: nat, ghost hLog: set<int>, ghost rLog: set<int>,
               ghost lost: set<int>, ghost used: nat, ghost hCuts: seq<seq<int>>, ghost rCuts: seq<seq<int>>)
      requires scrubber.Some? ==> Idempotent(scrubber.value) && Polite(scrubber.value, events)
      modifies this
      ensures scrubber.None? || old(marker) ==> !ran && Stored() == old(Stored())
      ensures scrubber.None? || old(marker) ==> historyUpdated == runnerUpdated == skipped == 0
      ensures historyUpdated in {0, hDone} && runnerUpdated in {0, rDone} && (runnerUpdated != 0 ==> historyUpdated == hDone)
      ensures scrubber.Some? && !old(marker) ==> ran == marker && Launched(scrubber.value, old(Stored()), Stored())
      ensures scrubber.Some? && !old(marker) && Quiet(events) ==>
                QuietLaunch(scrubber.value, old(Stored()), Stored(), h, r, hDone, rDone)
      ensures ran ==> markWorks && historyUpdated == hDone && runnerUpdated == rDone
      ensures skipped == |hLog| + |rLog| + |lost| && (ran ==> lost == {})
      ensures scrubber.Some? && !old(marker) && markWorks ==> ran || CutShort(events, 0, used)
      ensures scrubber.Some? && !old(marker) && markWorks && Quiet(events) && AllPaused(events) &&
              |events| >= |old(history)| + |old(runner)| ==>
                && ran && marker
                && AllMasked(scrubber.value, old(history), history)
                && (EmptyStays(scrubber.value) ==> AllMasked(scrubber.value, old(runner), runner))
                && (forall t :: t in old(runner) && old(runner)[t] == "" ==> runner[t] == "")
                && skipped == |Unmaskable(History, scrubber.value, old(history))| + |Unmaskable(Runner, scrubber.value, old(runner))|
      ensures scrubber.Some? && !old(marker) ==>
                || LeftOff(History, scrubber.value, events, history, AtLeastOne(batchSize), AtLeastOne(batchBytes), h, hLog, lost, false, used)
                || LeftOff(Runner, scrubber.value, events, runner, AtLeastOne(batchSize), AtLeastOne(batchBytes), r, rLog, lost, false, used)
                || LeftOff(Runner, scrubber.value, events, runner, AtLeastOne(batchSize), AtLeastOne(batchBytes), r, rLog, lost, true, used)
      ensures scrubber.Some? && !old(marker) && Quiet(events) ==>
                && PassCuts(old(history), hCuts, h, AtLeastOne(batchSize), AtLeastOne(batchBytes))
                && PassCuts(old(runner), rCuts, r, AtLeastOne(batchSize), AtLeastOne(batchBytes))
      ensures scrubber.Some? && !old(marker) ==>
                Logged(scrubber.value, Quiet(events), old(Stored()), Stored(), h, r, hLog, rLog)
    {
      ran, historyUpdated, runnerUpdated, skipped, h, r, hDone, rDone := false, 0, 0, 0, 0, 0, 0, 0;
      hLog, rLog, lost, used, hCuts, rCuts := {}, {}, {}, 0, [], [];
      if marker || scrubber.None? {
        return;
      }
      var masks := scrubber.value;
      var batch, bytes := AtLeastOne(batchSize), AtLeastOne(batchBytes);
      CutsStart(runner, batch, bytes);
      ghost var a := Stored();
      var updated, unmaskable, failed, complete, next;
      updated, unmaskable, failed, complete, next, h, hCuts := MaskTable(History, masks, batch, bytes, events, 0);
      used := next;
      ghost var b := Stored();
      hDone, hLog, lost, skipped := updated, unmaskable, failed, |unmaskable| + |failed|;
      if !complete {
        FirstTableOnly(masks, Quiet(events), a, b, h, updated, unmaskable);
        FirstLogOnly(masks, Quiet(events), a, b, h, updated, unmaskable);
        return;
      }
      historyUpdated := updated;
      updated, unmaskable, failed, complete, next, r, rCuts := MaskTable(Runner, masks, batch, bytes, events, next);
      used := next;
      rDone, rLog, lost, skipped := updated, unmaskable, failed, skipped + |unmaskable| + |failed|;
      BothTables(masks, Quiet(events), a, b, Stored(), h, r, hDone, rDone, hLog, rLog);
      BothLogs(masks, Quiet(events), a, b, Stored(), h, r, hDone, rDone, hLog, rLog, complete);
      if !complete {
        return;
      }
      if Quiet(events) {
        QuietEnd(History, masks, a.history, history, h, hDone);
        QuietEnd(Runner, masks, a.runner, runner, r, rDone);
      }
      StaysSettled(masks, History, b.history, history);
      runnerUpdated := updated;
      if markWorks {
        marker := true;
        ran := true;
      }
    }
  }

  // ---- Launches ----

  datatype Contents = Contents(history: Table, runner: Table, marker: bool)

  /** What a launch that finds no marker can do, whoever interferes and wherever it ends. */
  ghost predicate Launched(masks: Masks, a: Contents, b: Contents) {
    && Passed(History, masks, a.history, b.history)
    && Passed(Runner, masks, a.runner, b.runner)
    && (b.marker ==> AllSettled(History, masks, b.history) && AllSettled(Runner, masks, b.runner))
  }

  /** What it does when nobody interferes: the rows up to `h` and up to `r`, and all of them if it wrote the marker. */
  ghost predicate QuietLaunch(masks: Masks, a: Contents, b: Contents, h: int, r: int, historyDone: nat, runnerDone: nat) {
    && QuietPass(History, masks, a.history, b.history, h, historyDone)
    && QuietPass(Runner, masks, a.runner, b.runner, r, runnerDone)
    && (b.marker ==> NoneAfter(b.history, h) && NoneAfter(b.runner, r))
  }

  /**
   * What a launch reports: of the rows it got to, every one it could not mask, and if it wrote the marker every such
   * row of both tables. When nobody interferes it reports no other row.
   */
  ghost predicate Logged(masks: Masks, quiet: bool, a: Contents, b: Contents, h: int, r: int, hLog: set<int>, rLog: set<int>) {
    && Reported(History, masks, b.history, h, hLog)
    && Reported(Runner, masks, b.runner, r, rLog)
    && (b.marker ==> AllReported(History, masks, b.history, hLog) && AllReported(Runner, masks, b.runner, rLog))
    && (quiet ==> hLog == PoisonRows(History, masks, a.history, 0, h) && rLog == PoisonRows(Runner, masks, a.runner, 0, r))
  }

  lemma {:induction false} FirstLogOnly(masks: Masks, quiet: bool, a: Contents, b: Contents, h: int, updated: nat, skipped: set<int>)
    requires PassAt(History, masks, quiet, a.history, a.runner, b.history, b.runner, h, updated, skipped)
    requires !b.marker
    ensures Logged(masks, quiet, a, b, h, 0, skipped, {})
  {
    assert PoisonRows(Runner, masks, a.runner, 0, 0) == {};
  }

  lemma {:induction false} StaysReported(masks: Masks, kind: Kind, before: Table, after: Table, upto: int, log: set<int>)
    requires OnlyOthers(masks, before, after)
    ensures Reported(kind, masks, before, upto, log) ==> Reported(kind, masks, after, upto, log)
    ensures AllReported(kind, masks, before, log) ==> AllReported(kind, masks, after, log)
  {
  }

  lemma {:induction false} BothLogs(masks: Masks, quiet: bool, a: Contents, b: Contents, c: Contents, h: int, r: int,
                                    historyDone: nat, runnerDone: nat, hLog: set<int>, rLog: set<int>, complete: bool)
    requires PassAt(History, masks, quiet, a.history, a.runner, b.history, b.runner, h, historyDone, hLog)
    requires PassAt(Runner, masks, quiet, b.runner, b.history, c.runner, c.history, r, runnerDone, rLog)
    requires AllReported(History, masks, b.history, hLog)
    requires complete ==> AllReported(Runner, masks, c.runner, rLog)
    ensures Logged(masks, quiet, a, c.(marker := complete), h, r, hLog, rLog)
  {
    StaysReported(masks, History, b.history, c.history, h, hLog);
  }

  lemma {:induction false} NotStarted(kind: Kind, masks: Masks, table: Table)
    ensures QuietPass(kind, masks, table, table, 0, 0)
  {
    assert ChangedRows(kind, masks, table, 0, 0) == {};
  }

  lemma {:induction false} FirstTableOnly(masks: Masks, quiet: bool, a: Contents, b: Contents, h: int, updated: nat, skipped: set<int>)
    requires PassAt(History, masks, quiet, a.history, a.runner, b.history, b.runner, h, updated, skipped)
    requires !b.marker
    ensures Launched(masks, a, b)
    ensures quiet ==> QuietLaunch(masks, a, b, h, 0, updated, 0)
  {
    NotStarted(Runner, masks, a.runner);
  }

  lemma {:induction false} BothTables(masks: Masks, quiet: bool, a: Contents, b: Contents, c: Contents, h: int, r: int,
                                      historyDone: nat, runnerDone: nat, log: set<int>, more: set<int>)
    requires PassAt(History, masks, quiet, a.history, a.runner, b.history, b.runner, h, historyDone, log)
    requires PassAt(Runner, masks, quiet, b.runner, b.history, c.runner, c.history, r, runnerDone, more)
    ensures Passed(History, masks, a.history, c.history) && Passed(Runner, masks, a.runner, c.runner)
    ensures quiet ==> b.history == c.history
    ensures quiet ==> QuietPass(History, masks, a.history, c.history, h, historyDone)
    ensures quiet ==> QuietPass(Runner, masks, a.runner, c.runner, r, runnerDone)
  {
    forall x | x in c.history
      ensures Clean(masks, c.history[x]) || (x in b.history && c.history[x] == b.history[x])
    {
    }
    forall x | x in c.runner && !Clean(masks, c.runner[x])
      ensures x in a.runner && b.runner[x] == a.runner[x]
    {
      assert x in b.runner;
    }
  }

  /** Masked rows stay masked while others write masked text only. */
  lemma {:induction false} StaysSettled(masks: Masks, kind: Kind, before: Table, after: Table)
    requires AllSettled(kind, masks, before) && OnlyOthers(masks, before, after)
    ensures AllSettled(kind, masks, after)
  {
  }

  /** One thing after the other: a launch, or other writers at work. */
  ghost predicate Step(masks: Masks, a: Contents, b: Contents) {
    || (if a.marker then b == a else Launched(masks, a, b))
    || (b.marker == a.marker && OnlyOthers(masks, a.history, b.history) && OnlyOthers(masks, a.runner, b.runner))
  }

  ghost predicate Run(masks: Masks, states: seq<Contents>) {
    states != [] && forall i {:trigger states[i]} :: 0 < i < |states| ==> Step(masks, states[i - 1], states[i])
  }

  ghost predicate MarkerTells(masks: Masks, s: Contents) {
    s.marker ==> AllSettled(History, masks, s.history) && AllSettled(Runner, masks, s.runner)
  }

  /** However many launches were cut short: once the marker is there, every row that can be masked is. */
  lemma {:induction false} MarkerMeansMasked(masks: Masks, states: seq<Contents>)
    requires Run(masks, states) && MarkerTells(masks, states[0])
    ensures MarkerTells(masks, states[|states| - 1])
  {
    if |states| <= 1 {
    } else {
      var n := |states| - 1;
      MarkerMeansMasked(masks, states[..n]);
      var a, b := states[n - 1], states[n];
      assert Step(masks, a, b);
      if b.marker && b.marker == a.marker && OnlyOthers(masks, a.history, b.history) && OnlyOthers(masks, a.runner, b.runner) {
        StaysSettled(masks, History, a.history, b.history);
        StaysSettled(masks, Runner, a.runner, b.runner);
      }
    }
  }

  /** A row is only ever what it was at the start, its mask, or masked text somebody else put there. */
  lemma {:induction false} NothingElseIsWritten(masks: Masks, states: seq<Contents>)
    requires Run(masks, states) && Idempotent(masks)
    ensures Passed(History, masks, states[0].history, states[|states| - 1].history)
    ensures Passed(Runner, masks, states[0].runner, states[|states| - 1].runner)
  {
    if |states| == 1 {
    } else {
      var n := |states| - 1;
      NothingElseIsWritten(masks, states[..n]);
      var a, b := states[n - 1], states[n];
      assert Step(masks, a, b);
      PassedOn(History, masks, states[0].history, a.history, b.history);
      PassedOn(Runner, masks, states[0].runner, a.runner, b.runner);
    }
  }

  lemma {:induction false} PassedOn(kind: Kind, masks: Masks, first: Table, a: Table, b: Table)
    requires Idempotent(masks) && Passed(kind, masks, first, a)
    requires Passed(kind, masks, a, b) || OnlyOthers(masks, a, b)
    ensures Passed(kind, masks, first, b)
  {
    forall x | x in b && !Clean(masks, b[x])
      ensures x in first && (b[x] == first[x] || b[x] == Masked(kind, masks, first[x]))
    {
      assert x in a;
    }
  }

  // ---- Interrupted and run again ----

  lemma {:induction false} MaskedAgain(kind: Kind, masks: Masks, a: Table, u: int, v: int)
    requires Idempotent(masks) && NoneAfter(a, v)
    ensures MaskRange(kind, masks, MaskRange(kind, masks, a, 0, u), 0, v) == MaskRange(kind, masks, a, 0, v)
  {
    forall x | x in a
      ensures Settled(kind, masks, Masked(kind, masks, a[x]))
    {
      MaskedIsSettled(kind, masks, a[x]);
    }
  }

  lemma {:induction false} LeftToDo(kind: Kind, masks: Masks, a: Table, u: int, v: int)
    requires Idempotent(masks) && NoneAfter(a, v)
    ensures ChangedRows(kind, masks, a, 0, u) <= ChangedRows(kind, masks, a, 0, v)
    ensures ChangedRows(kind, masks, MaskRange(kind, masks, a, 0, u), 0, v) ==
            ChangedRows(kind, masks, a, 0, v) - ChangedRows(kind, masks, a, 0, u)
  {
    forall x | x in a
      ensures Settled(kind, masks, Masked(kind, masks, a[x]))
    {
      MaskedIsSettled(kind, masks, a[x]);
    }
  }

  lemma {:induction false} ChangedOnce(kind: Kind, masks: Masks, a: Table, u: int, v: int)
    requires Idempotent(masks) && NoneAfter(a, v)
    ensures |ChangedRows(kind, masks, a, 0, v)| ==
            |ChangedRows(kind, masks, a, 0, u)| + |ChangedRows(kind, masks, MaskRange(kind, masks, a, 0, u), 0, v)|
  {
    LeftToDo(kind, masks, a, u, v);
    var one, all := ChangedRows(kind, masks, a, 0, u), ChangedRows(kind, masks, a, 0, v);
    assert all == one + (all - one);
  }

  /** An interrupted pass and a full one are one full pass: same table, same number of rows changed. */
  lemma {:induction false} TwoPassesAreOne(kind: Kind, masks: Masks, a: Table, b: Table, c: Table, u: int, v: int, n: nat, m: nat)
    requires Idempotent(masks)
    requires QuietPass(kind, masks, a, b, u, n) && QuietPass(kind, masks, b, c, v, m) && NoneAfter(c, v)
    ensures QuietPass(kind, masks, a, c, v, n + m)
  {
    assert forall x :: x in a ==> x in c;
    MaskedAgain(kind, masks, a, u, v);
    ChangedOnce(kind, masks, a, u, v);
  }

  /** The same for both tables: a launch cut short and one that completes leave what one complete launch leaves. */
  lemma {:induction false} LaunchTwice(masks: Masks, a: Contents, b: Contents, c: Contents, once: Contents,
                                       h1: int, r1: int, n1: nat, m1: nat, h2: int, r2: int, n2: nat, m2: nat,
                                       h: int, r: int, n: nat, m: nat)
    requires Idempotent(masks) && !b.marker && c.marker && once.marker
    requires QuietLaunch(masks, a, b, h1, r1, n1, m1)
    requires QuietLaunch(masks, b, c, h2, r2, n2, m2)
    requires QuietLaunch(masks, a, once, h, r, n, m)
    ensures c == once && n1 + n2 == n && m1 + m2 == m
  {
    TwoPassesAreOne(History, masks, a.history, b.history, c.history, h1, h2, n1, n2);
    TwoPassesAreOne(Runner, masks, a.runner, b.runner, c.runner, r1, r2, m1, m2);
    FullPassIsUnique(History, masks, a.history, c.history, once.history, h2, h);
    FullPassIsUnique(Runner, masks, a.runner, c.runner, once.runner, r2, r);
  }

  lemma {:induction false} FullPassIsUnique(kind: Kind, masks: Masks, a: Table, b: Table, c: Table, u: int, v: int)
    requires b == MaskRange(kind, masks, a, 0, u) && NoneAfter(b, u)
    requires c == MaskRange(kind, masks, a, 0, v) && NoneAfter(c, v)
    ensures b == c && ChangedRows(kind, masks, a, 0, u) == ChangedRows(kind, masks, a, 0, v)
  {
    forall x | x in a
      ensures x <= u && x <= v
    {
      assert x in b && x in c;
    }
  }
}
