/** What `withAssertionScript` writes, `stripExportedAssertions` takes out again, row by row. */
module AssertionExport {
  import opened Options
  import opened JsText
  import opened Sequences
  import opened Splitting
  import opened AssertionScript
  import opened AssertionScriptLaws

  const JSON_PATH_KIND := "body_jsonpath"

  /** How `rowLine` begins, for either script object and for rows it cannot express. */
  predicate IsRowLine(line: string) {
    && '\n' !in line
    && (StartsWith(line, "pm.test(") || StartsWith(line, "insomnia.test(") ||
        StartsWith(line, "// not exportable:") || StartsWith(line, "// Testnizer assertion"))
  }

  /** A line of the JSONPath helper: no marker, no tag. */
  predicate Ordinary(line: string) {
    '\n' !in line && MarkOf(line) == Other
  }

  ghost predicate GoodRows(rows: seq<Row>) {
    rows == [] || ('\n' !in rows[0].kind && IsRowLine(rows[0].line) && GoodRows(rows[1..]))
  }

  ghost predicate AllOrdinary(lines: seq<string>) {
    lines == [] || (Ordinary(lines[0]) && AllOrdinary(lines[1..]))
  }

  // ---- Export ----

  function Enabled(rows: seq<Row>): seq<Row> {
    if rows == [] then []
    else if rows[0].enabled then [rows[0]] + Enabled(rows[1..])
    else Enabled(rows[1..])
  }

  predicate AnyJsonPath(rows: seq<Row>) {
    rows != [] && (rows[0].kind == JSON_PATH_KIND || AnyJsonPath(rows[1..]))
  }

  function RowTexts(rows: seq<Row>): seq<string> {
    if rows == [] then [] else [TAG + rows[0].kind, rows[0].line] + RowTexts(rows[1..])
  }

  function BlockTexts(helper: seq<string>, rows: seq<Row>): seq<string> {
    [BEGIN, OPEN] + helper + RowTexts(rows) + [CLOSE, END]
  }

  function Helper(rows: seq<Row>, helper: seq<string>): seq<string> {
    if AnyJsonPath(rows) then helper else []
  }

  function GeneratedBlock(rows: seq<Row>, helper: seq<string>): string {
    if Enabled(rows) == [] then ""
    else JoinWith(BlockTexts(Helper(Enabled(rows), helper), Enabled(rows)), '\n')
  }

  method AssertionsToScript(rows: seq<Row>, helper: seq<string>) returns (script: string)
    ensures script == GeneratedBlock(rows, helper)
  {
    var enabled := Enabled(rows);
    if |enabled| == 0 {
      return "";
    }
    var lines := [BEGIN, OPEN];
    if AnyJsonPath(enabled) {
      lines := lines + helper;
    }
    ghost var start := lines;
    for i := 0 to |enabled|
      invariant lines + RowTexts(enabled[i..]) == start + RowTexts(enabled)
    {
      assert enabled[i..][1..] == enabled[i + 1..];
      assert lines + ([TAG + enabled[i].kind, enabled[i].line] + RowTexts(enabled[i + 1..])) ==
             lines + [TAG + enabled[i].kind, enabled[i].line] + RowTexts(enabled[i + 1..]);
      lines := lines + [TAG + enabled[i].kind, enabled[i].line];
    }
    assert enabled[|enabled|..] == [];
    assert lines + [] == lines;
    assert [BEGIN, OPEN] + [] == [BEGIN, OPEN];
    lines := lines + [CLOSE, END];
    script := JoinWith(lines, '\n');
  }

  function UserPart(postScript: string): string {
    if Blank(postScript) then "" else postScript
  }

  /** `withAssertionScript`; nothing to write is `undefined`. */
  function WithAssertionScript(postScript: string, rows: seq<Row>, helper: seq<string>): Option<string> {
    var block := GeneratedBlock(rows, helper);
    var user := UserPart(postScript);
    if block == "" then (if user == "" then None else Some(user))
    else Some(if user == "" then block else block + "\n" + user)
  }

  // ---- How the importer sees the written lines ----

  lemma {:induction false} TrimStartKeeps(s: string)
    requires s == "" || !IsSpace(s[0])
    ensures TrimStart(s) == s
  {
  }

  /** A text whose given prefix ends in a non-blank keeps that prefix when its end is trimmed. */
  lemma {:induction false} TrimEndKeepsPrefix(p: string, s: string)
    requires p != "" && !IsSpace(p[|p| - 1])
    ensures TrimEnd(p + s) == p + TrimEnd(s)
    decreases |s|
  {
    var t := p + s;
    if s == "" {
      assert t == p;
      assert p + TrimEnd("") == p;
    } else if IsSpace(s[|s| - 1]) {
      assert t[..|t| - 1] == p + s[..|s| - 1];
      TrimEndKeepsPrefix(p, s[..|s| - 1]);
    }
  }

  lemma {:induction false} TrimKeepsPrefix(p: string, s: string)
    requires p != "" && !IsSpace(p[0]) && !IsSpace(p[|p| - 1])
    ensures Trim(p + s) == p + TrimEnd(s)
  {
    TrimStartKeeps(p + s);
    TrimEndKeepsPrefix(p, s);
  }

  lemma {:induction false} TrimsCommute(s: string)
    ensures TrimEnd(TrimStart(TrimEnd(s))) == TrimEnd(TrimStart(s))
    decreases |s|
  {
    if s == "" {
    } else if !IsSpace(s[|s| - 1]) {
    } else if Blank(s) {
      BlankTrims(s);
    } else {
      TrimsCommute(s[..|s| - 1]);
      TrimStartDropsLast(s);
    }
  }

  /** A blank last character does not change what is left once both ends are trimmed. */
  lemma {:induction false} TrimStartDropsLast(s: string)
    requires s != "" && IsSpace(s[|s| - 1])
    ensures TrimEnd(TrimStart(s)) == TrimEnd(TrimStart(s[..|s| - 1]))
    decreases |s|
  {
    var t := s[..|s| - 1];
    if IsSpace(s[0]) {
      if |s| == 1 {
        assert TrimStart(s) == TrimStart(s[1..]);
        assert s[1..] == t == "";
      } else {
        assert t[0] == s[0];
        assert s[1..][..|s| - 2] == t[1..];
        TrimStartDropsLast(s[1..]);
      }
    } else {
      assert t != "" && t[0] == s[0];
    }
  }

  lemma {:induction false} MarkerEnds()
    ensures |BEGIN| > 4 && BEGIN[0] == '/' && BEGIN[3] == '-' && BEGIN[|BEGIN| - 1] == '-'
    ensures |END| > 4 && END[0] == '/' && END[3] == '-' && END[|END| - 1] == '-'
    ensures |BEGIN| != |END|
  {
    assert BEGIN[3] == "// ---"[3] && END[3] == "// ---"[3];
    assert BEGIN[|BEGIN| - 1] == " ---"[3] && END[|END| - 1] == " ---"[3];
  }

  lemma {:induction false} TagLineMark(kind: string)
    ensures MarkOf(TAG + kind) == Tag(Trim(kind))
  {
    TrimKeepsPrefix(TAG, kind);
    var t := TAG + TrimEnd(kind);
    assert t[|TAG|..] == TrimEnd(kind);
    MarkerEnds();
    assert t[3] == 't';
    TrimsCommute(kind);
  }

  lemma {:induction false} OtherMark(p: string, s: string)
    requires |p| > 3 && !IsSpace(p[0]) && !IsSpace(p[|p| - 1])
    requires p[0] != '/' || (p[3] != '-' && p[3] != 't')
    ensures MarkOf(p + s) == Other
  {
    TrimKeepsPrefix(p, s);
    var t := p + TrimEnd(s);
    assert t[0] == p[0] && t[3] == p[3];
    MarkerEnds();
    assert TAG[0] == '/' && TAG[3] == 't';
  }

  lemma {:induction false} PrefixMark(line: string, p: string)
    requires StartsWith(line, p) && |p| > 3 && !IsSpace(p[0]) && !IsSpace(p[|p| - 1])
    requires p[0] != '/' || (p[3] != '-' && p[3] != 't')
    ensures MarkOf(line) == Other
  {
    assert line == p + line[|p|..];
    OtherMark(p, line[|p|..]);
  }

  lemma {:induction false} RowLineMark(line: string)
    requires IsRowLine(line)
    ensures MarkOf(line) == Other
  {
    if StartsWith(line, "pm.test(") {
      PrefixMark(line, "pm.test(");
    } else if StartsWith(line, "insomnia.test(") {
      PrefixMark(line, "insomnia.test(");
    } else if StartsWith(line, "// not exportable:") {
      PrefixMark(line, "// not exportable:");
    } else {
      PrefixMark(line, "// Testnizer assertion");
    }
  }

  lemma {:induction false} FixedMarks()
    ensures MarkOf(BEGIN) == Begin && MarkOf(END) == End && MarkOf(OPEN) == Other && MarkOf(CLOSE) == Other
  {
    MarkerEnds();
    TrimKeepsPrefix(BEGIN, "");
    assert BEGIN + "" == BEGIN && BEGIN + TrimEnd("") == BEGIN;
    TrimKeepsPrefix(END, "");
    assert END + "" == END && END + TrimEnd("") == END;
    assert |END| != |BEGIN|;
    OtherMark(OPEN, "");
    assert OPEN + "" == OPEN;
    OtherMark(CLOSE, "");
    assert CLOSE + "" == CLOSE;
  }

  // ---- The generated block, taken apart ----

  ghost predicate NoEnds(lines: seq<Line>) {
    forall i :: 0 <= i < |lines| ==> !lines[i].mark.End?
  }

  lemma {:induction false} OrdinaryMarks(helper: seq<string>)
    requires AllOrdinary(helper)
    ensures forall i :: 0 <= i < |helper| ==> Marked(helper)[i].mark == Other
  {
    if helper == [] {
    } else {
      OrdinaryMarks(helper[1..]);
    }
  }

  function OneRow(row: Row): seq<Line> {
    [Line(TAG + row.kind, Tag(Trim(row.kind))), Line(row.line, Other)]
  }

  lemma {:induction false} TwoMarked(a: string, b: string, rest: seq<string>)
    ensures Marked([a, b] + rest) == [Line(a, MarkOf(a)), Line(b, MarkOf(b))] + Marked(rest)
  {
    var t := [a, b] + rest;
    assert t[1..] == [b] + rest;
    assert t[1..][1..] == rest;
  }

  lemma {:induction false} OneRowMarked(row: Row, rest: seq<string>)
    requires IsRowLine(row.line)
    ensures Marked([TAG + row.kind, row.line] + rest) == OneRow(row) + Marked(rest)
  {
    TwoMarked(TAG + row.kind, row.line, rest);
    TagLineMark(row.kind);
    RowLineMark(row.line);
  }

  lemma {:induction false} RowMarks(rows: seq<Row>)
    requires GoodRows(rows)
    ensures rows != [] ==> Marked(RowTexts(rows)) == OneRow(rows[0]) + Marked(RowTexts(rows[1..]))
    ensures NoEnds(Marked(RowTexts(rows)))
  {
    if rows == [] {
    } else {
      RowMarks(rows[1..]);
      OneRowMarked(rows[0], RowTexts(rows[1..]));
    }
  }

  const FRONT := [Line(BEGIN, Begin), Line(OPEN, Other)]
  const BACK := [Line(CLOSE, Other), Line(END, End)]

  function MarkedBlock(helper: seq<string>, rows: seq<Row>): seq<Line> {
    FRONT + Marked(helper) + Marked(RowTexts(rows)) + BACK
  }

  lemma {:induction false} BlockMarks(helper: seq<string>, rows: seq<Row>)
    ensures Marked(BlockTexts(helper, rows)) == MarkedBlock(helper, rows)
  {
    FixedMarks();
    MarkedAppend([BEGIN, OPEN] + helper + RowTexts(rows), [CLOSE, END]);
    MarkedAppend([BEGIN, OPEN] + helper, RowTexts(rows));
    MarkedAppend([BEGIN, OPEN], helper);
    TwoMarked(BEGIN, OPEN, []);
    TwoMarked(CLOSE, END, []);
    assert [BEGIN, OPEN] + [] == [BEGIN, OPEN] && [CLOSE, END] + [] == [CLOSE, END];
    assert FRONT + [] == FRONT && BACK + [] == BACK;
  }

  lemma {:induction false} FrameIsFormed(middle: seq<Line>)
    requires NoEnds(middle)
    ensures FormedBlock(FRONT + middle + BACK)
  {
    var b := FRONT + middle + BACK;
    assert b[0] == FRONT[0] && b[1] == FRONT[1] && b[|b| - 1] == BACK[1] && b[|b| - 2] == BACK[0];
    forall k | 0 < k < |b| - 1
      ensures !b[k].mark.End?
    {
      assert 2 <= k < |b| - 2 ==> b[k] == middle[k - 2];
    }
  }

  lemma {:induction false} BlockIsWhole(helper: seq<string>, rows: seq<Row>)
    requires AllOrdinary(helper) && GoodRows(rows)
    ensures FormedBlock(MarkedBlock(helper, rows))
  {
    OrdinaryMarks(helper);
    RowMarks(rows);
    FrameIsFormed(Marked(helper) + Marked(RowTexts(rows)));
    Regrouped(FRONT, Marked(helper), Marked(RowTexts(rows)));
  }

  // ---- Which rows stay ----

  /** The rows whose kind does not come back from the extension. */
  function Kept(rows: seq<Row>, kinds: set<string>): seq<Row> {
    if rows == [] then []
    else if Trim(rows[0].kind) in kinds then Kept(rows[1..], kinds)
    else [rows[0]] + Kept(rows[1..], kinds)
  }

  lemma {:induction false} KeptIsGood(rows: seq<Row>, kinds: set<string>)
    requires GoodRows(rows)
    ensures GoodRows(Kept(rows, kinds))
  {
    if rows == [] {
    } else {
      KeptIsGood(rows[1..], kinds);
      assert ([rows[0]] + Kept(rows[1..], kinds))[1..] == Kept(rows[1..], kinds);
    }
  }

  lemma {:induction false} EnabledIsGood(rows: seq<Row>)
    requires GoodRows(rows)
    ensures GoodRows(Enabled(rows))
  {
    if rows == [] {
    } else {
      EnabledIsGood(rows[1..]);
      assert ([rows[0]] + Enabled(rows[1..]))[1..] == Enabled(rows[1..]);
    }
  }

  /** Lines that are no tags stay. */
  lemma {:induction false} OthersRemain(block: seq<Line>, k: nat, m: nat, kinds: set<string>)
    requires k <= m <= |block|
    requires forall i :: k <= i < m ==> !block[i].mark.Tag?
    ensures Remaining(block, k, kinds) == block[k..m] + Remaining(block, m, kinds)
    ensures RemainingTests(block, k, kinds) == RemainingTests(block, m, kinds)
    decreases m - k
  {
    if k < m {
      OthersRemain(block, k + 1, m, kinds);
      assert block[k..m] == [block[k]] + block[k + 1..m];
      assert block[k..m] + Remaining(block, m, kinds) == [block[k]] + (block[k + 1..m] + Remaining(block, m, kinds));
    } else {
      assert block[k..m] == [];
    }
  }

  /** A stretch of the block between `k` and `m` without tags, and what is left from `m` on. */
  lemma {:induction false} Stretch(block: seq<Line>, k: nat, m: nat, kinds: set<string>, left: seq<Line>)
    requires k <= m <= |block|
    requires forall i :: k <= i < m ==> !block[i].mark.Tag?
    requires Remaining(block, m, kinds) == left
    ensures Remaining(block, k, kinds) == block[k..m] + left
    ensures RemainingTests(block, k, kinds) == RemainingTests(block, m, kinds)
  {
    OthersRemain(block, k, m, kinds);
  }

  lemma {:induction false} BackRemains(block: seq<Line>, k: nat, kinds: set<string>)
    requires k <= |block| && block[k..] == BACK
    ensures Remaining(block, k, kinds) == BACK && RemainingTests(block, k, kinds) == 0
  {
    assert block[k] == BACK[0] && block[k + 1] == BACK[1];
    Stretch(block, k, k + 2, kinds, []);
    assert block[k..k + 2] + [] == BACK;
  }

  lemma {:induction false} RowGoes(block: seq<Line>, k: nat, row: Row, kinds: set<string>)
    requires k + 4 <= |block| && block[k] == OneRow(row)[0] && Trim(row.kind) in kinds
    ensures Remaining(block, k, kinds) == Remaining(block, k + 2, kinds)
    ensures RemainingTests(block, k, kinds) == RemainingTests(block, k + 2, kinds)
  {
  }

  lemma {:induction false} RowStays(block: seq<Line>, k: nat, row: Row, kinds: set<string>)
    requires k + 4 <= |block| && block[k] == OneRow(row)[0] && block[k + 1] == OneRow(row)[1]
    requires Trim(row.kind) !in kinds
    ensures Remaining(block, k, kinds) == OneRow(row) + Remaining(block, k + 2, kinds)
    ensures RemainingTests(block, k, kinds) == 1 + RemainingTests(block, k + 2, kinds)
  {
    var rest := Remaining(block, k + 2, kinds);
    assert Remaining(block, k + 1, kinds) == [block[k + 1]] + rest;
    assert [block[k]] + ([block[k + 1]] + rest) == OneRow(row) + rest;
  }

  /** The rows at the end of the block: exactly those of a kind to strip go, in pairs of lines. */
  lemma {:induction false} RowsRemain(block: seq<Line>, k: nat, rows: seq<Row>, kinds: set<string>)
    requires k <= |block| && block[k..] == Marked(RowTexts(rows)) + BACK
    requires GoodRows(rows)
    ensures Remaining(block, k, kinds) == Marked(RowTexts(Kept(rows, kinds))) + BACK
    ensures RemainingTests(block, k, kinds) == |Kept(rows, kinds)|
    decreases |rows|
  {
    if rows == [] {
      assert block[k..] == BACK && Marked(RowTexts(rows)) + BACK == BACK;
      BackRemains(block, k, kinds);
    } else {
      RowMarks(rows);
      RowAt(block, k, rows);
      RowsRemain(block, k + 2, rows[1..], kinds);
      if Trim(rows[0].kind) in kinds {
        RowGoes(block, k, rows[0], kinds);
      } else {
        RowStays(block, k, rows[0], kinds);
        KeptMarks(rows, kinds);
        Regrouped(OneRow(rows[0]), Marked(RowTexts(Kept(rows[1..], kinds))), BACK);
      }
    }
  }

  lemma {:induction false} KeptMarks(rows: seq<Row>, kinds: set<string>)
    requires rows != [] && GoodRows(rows) && Trim(rows[0].kind) !in kinds
    ensures Marked(RowTexts(Kept(rows, kinds))) == OneRow(rows[0]) + Marked(RowTexts(Kept(rows[1..], kinds)))
  {
    KeptIsGood(rows, kinds);
    RowMarks(Kept(rows, kinds));
    assert ([rows[0]] + Kept(rows[1..], kinds))[1..] == Kept(rows[1..], kinds);
  }

  lemma {:induction false} RowAt(block: seq<Line>, k: nat, rows: seq<Row>)
    requires rows != [] && k <= |block|
    requires block[k..] == Marked(RowTexts(rows)) + BACK
    requires Marked(RowTexts(rows)) == OneRow(rows[0]) + Marked(RowTexts(rows[1..]))
    ensures k + 4 <= |block|
    ensures block[k] == OneRow(rows[0])[0] && block[k + 1] == OneRow(rows[0])[1]
    ensures block[k + 2..] == Marked(RowTexts(rows[1..])) + BACK
  {
    var tail := block[k..];
    assert tail == OneRow(rows[0]) + (Marked(RowTexts(rows[1..])) + BACK);
    assert tail[0] == block[k] && tail[1] == block[k + 1];
    assert tail[2..] == block[k + 2..];
  }

  lemma {:induction false} FrontHasNoTag(front: seq<Line>, helper: seq<string>)
    requires AllOrdinary(helper) && front == FRONT + Marked(helper)
    ensures forall i :: 0 <= i < |front| ==> !front[i].mark.Tag?
  {
    OrdinaryMarks(helper);
    forall i | 0 <= i < |front|
      ensures !front[i].mark.Tag?
    {
      assert i >= 2 ==> front[i] == Marked(helper)[i - 2];
    }
  }

  lemma {:induction false} BehindRemains(front: seq<Line>, back: seq<Line>, rows: seq<Row>, kinds: set<string>)
    requires back == Marked(RowTexts(rows)) + BACK && GoodRows(rows)
    requires forall i :: 0 <= i < |front| ==> !front[i].mark.Tag?
    ensures Remaining(front + back, 0, kinds) == front + (Marked(RowTexts(Kept(rows, kinds))) + BACK)
    ensures RemainingTests(front + back, 0, kinds) == |Kept(rows, kinds)|
  {
    var b := front + back;
    assert b[0..|front|] == front && b[|front|..] == back;
    OthersRemain(b, 0, |front|, kinds);
    RowsRemain(b, |front|, rows, kinds);
  }

  /** Stripping the block keeps the frame, the helper, and the rows of the other kinds in order. */
  lemma {:induction false} BlockRemains(helper: seq<string>, rows: seq<Row>, kinds: set<string>)
    requires AllOrdinary(helper) && GoodRows(rows)
    ensures var b := MarkedBlock(helper, rows);
            && Remaining(b, 0, kinds) == MarkedBlock(helper, Kept(rows, kinds))
            && RemainingTests(b, 0, kinds) == |Kept(rows, kinds)|
  {
    var front := FRONT + Marked(helper);
    FrontHasNoTag(front, helper);
    BehindRemains(front, Marked(RowTexts(rows)) + BACK, rows, kinds);
    Regrouped(front, Marked(RowTexts(rows)), BACK);
    Regrouped(front, Marked(RowTexts(Kept(rows, kinds))), BACK);
  }

  // ---- Export, then import ----

  /** The user's part as stripping it alone leaves its lines. */
  function UserLines(postScript: string, kinds: set<string>): seq<string> {
    if UserPart(postScript) == "" then [] else Texts(StrippedLines(Marked(SplitAt(postScript, '\n')), kinds))
  }

  /** The lines of an exported script. */
  function ExportedTexts(postScript: string, rows: seq<Row>, helper: seq<string>): seq<string> {
    BlockTexts(Helper(Enabled(rows), helper), Enabled(rows)) +
    if UserPart(postScript) == "" then [] else SplitAt(postScript, '\n')
  }

  lemma {:induction false} RowTextsAreLines(rows: seq<Row>)
    requires GoodRows(rows)
    ensures NoneHas(RowTexts(rows), '\n')
  {
    if rows == [] {
    } else {
      RowTextsAreLines(rows[1..]);
      var pair := [TAG + rows[0].kind, rows[0].line];
      assert pair[1..] == [rows[0].line] && pair[1..][1..] == [];
      NoneHasAppend(pair, RowTexts(rows[1..]), '\n');
    }
  }

  lemma {:induction false} OrdinaryAreLines(helper: seq<string>)
    requires AllOrdinary(helper)
    ensures NoneHas(helper, '\n')
  {
    if helper == [] {
    } else {
      OrdinaryAreLines(helper[1..]);
    }
  }

  lemma {:induction false} MarkersAreLines()
    ensures '\n' !in BEGIN && '\n' !in END
  {
    assert '\n' !in "// ---" && '\n' !in " Testnizer Tests tab assertions (generated)" && '\n' !in " ---";
    assert '\n' !in " end Testnizer Tests tab assertions";
  }

  lemma {:induction false} BracketsAreLines()
    ensures '\n' !in OPEN && '\n' !in CLOSE
  {
  }

  lemma {:induction false} BlockTextsAreLines(helper: seq<string>, rows: seq<Row>)
    requires AllOrdinary(helper) && GoodRows(rows)
    ensures NoneHas(BlockTexts(helper, rows), '\n')
  {
    OrdinaryAreLines(helper);
    RowTextsAreLines(rows);
    MarkersAreLines();
    BracketsAreLines();
    assert [BEGIN, OPEN][1..] == [OPEN] && [OPEN][1..] == [];
    assert [CLOSE, END][1..] == [END] && [END][1..] == [];
    NoneHasAppend([BEGIN, OPEN], helper, '\n');
    NoneHasAppend([BEGIN, OPEN] + helper, RowTexts(rows), '\n');
    NoneHasAppend([BEGIN, OPEN] + helper + RowTexts(rows), [CLOSE, END], '\n');
  }

  lemma {:induction false} ExportSplits(postScript: string, rows: seq<Row>, helper: seq<string>)
    requires GoodRows(rows) && AllOrdinary(helper) && Enabled(rows) != []
    ensures var script := WithAssertionScript(postScript, rows, helper);
            && script.Some?
            && SplitAt(script.value, '\n') == ExportedTexts(postScript, rows, helper)
            && BEGIN <= script.value
  {
    var block := BlockTexts(Helper(Enabled(rows), helper), Enabled(rows));
    EnabledIsGood(rows);
    BlockTextsAreLines(Helper(Enabled(rows), helper), Enabled(rows));
    SplitOfJoin(block, '\n');
    BeginsWithBegin(block);
    if UserPart(postScript) != "" {
      SplitAppend(JoinWith(block, '\n'), postScript);
    } else {
      assert block + [] == block;
    }
  }

  lemma {:induction false} BeginsWithBegin(texts: seq<string>)
    requires |texts| > 1 && texts[0] == BEGIN
    ensures BEGIN <= JoinWith(texts, '\n') && |JoinWith(texts, '\n')| > 0
  {
    var s := JoinWith(texts, '\n');
    assert s == BEGIN + ("\n" + JoinWith(texts[1..], '\n'));
    assert s[..|BEGIN|] == BEGIN;
  }

  lemma {:induction false} NoBlankStart(s: string, n: nat)
    requires n <= |s| && s != "" && !IsSpace(s[0])
    ensures BlankStart(s, n) == 0
  {
    if n == 0 {
    } else {
      assert s[..n][0] == s[0];
      NoBlankStart(s, n - 1);
    }
  }

  /** A text that starts with the marker keeps its start. */
  lemma {:induction false} FinishKeeps(s: string)
    requires BEGIN <= s
    ensures Finish(s) == s
  {
    MarkerEnds();
    assert s[0] == BEGIN[0];
    NoBlankStart(s, |s|);
    assert s[0..] == s;
  }

  lemma {:induction false} ExportStrips(postScript: string, rows: seq<Row>, helper: seq<string>, kinds: set<string>)
    requires GoodRows(rows) && AllOrdinary(helper)
    ensures var kept := Kept(Enabled(rows), kinds);
            Texts(StrippedLines(Marked(ExportedTexts(postScript, rows, helper)), kinds)) ==
            (if kept == [] then [] else BlockTexts(Helper(Enabled(rows), helper), kept)) + UserLines(postScript, kinds)
  {
    var h := if AnyJsonPath(Enabled(rows)) then helper else [];
    var enabled := Enabled(rows);
    var kept := Kept(enabled, kinds);
    var userTexts := if UserPart(postScript) == "" then [] else SplitAt(postScript, '\n');
    var user := Marked(userTexts);
    var b := MarkedBlock(h, enabled);
    EnabledIsGood(rows);
    KeptIsGood(enabled, kinds);
    BlockIsWhole(h, enabled);
    BlockMarks(h, enabled);
    BlockMarks(h, kept);
    MarkedAppend(BlockTexts(h, enabled), userTexts);
    ParseBlock(b, user);
    FirstSegment(Block(b), Parse(user), kinds);
    BlockRemains(h, enabled, kinds);
    PrintOne(Block(MarkedBlock(h, kept)));
    var left := if kept == [] then [] else MarkedBlock(h, kept);
    assert StrippedLines(b + user, kinds) == left + StrippedLines(user, kinds);
    TextsAppend(left, StrippedLines(user, kinds));
    BlockTextsAreLines(h, kept);
    MarkedIsHonest(BlockTexts(h, kept));
    assert UserPart(postScript) == "" ==> user == [] && StrippedLines(user, kinds) == [];
  }

  lemma {:induction false} TextsAppend(a: seq<Line>, b: seq<Line>)
    ensures Texts(a + b) == Texts(a) + Texts(b)
  {
    if a == [] {
      assert a + b == b;
    } else {
      assert (a + b)[0] == a[0] && (a + b)[1..] == a[1..] + b;
      TextsAppend(a[1..], b);
    }
  }

  lemma {:induction false} StripOfLines(script: string, texts: seq<string>, left: seq<string>, kinds: set<string>)
    requires BEGIN <= script && SplitAt(script, '\n') == texts
    requires Texts(StrippedLines(Marked(texts), kinds)) == left
    ensures Strip(script, kinds) == Finish(JoinWith(left, '\n'))
  {
  }

  lemma {:induction false} BlockStaysInFront(h: seq<string>, kept: seq<Row>, user: seq<string>)
    ensures Finish(JoinWith(BlockTexts(h, kept) + user, '\n')) == JoinWith(BlockTexts(h, kept) + user, '\n')
  {
    BeginsWithBegin(BlockTexts(h, kept) + user);
    FinishKeeps(JoinWith(BlockTexts(h, kept) + user, '\n'));
  }

  /** What is left of an exported script's lines. */
  function LinesLeft(postScript: string, rows: seq<Row>, helper: seq<string>, kinds: set<string>): seq<string> {
    var kept := Kept(Enabled(rows), kinds);
    (if kept == [] then [] else BlockTexts(Helper(Enabled(rows), helper), kept)) + UserLines(postScript, kinds)
  }

  /**
   * Stripping an exported script: a row goes exactly when its kind is one of `kinds`, the other rows stay in their
   * block in order, and the user's part comes out as stripping that part alone leaves it.
   */
  lemma {:induction false} ExportThenStrip(postScript: string, rows: seq<Row>, helper: seq<string>, kinds: set<string>)
    requires GoodRows(rows) && AllOrdinary(helper) && Enabled(rows) != []
    ensures var script := WithAssertionScript(postScript, rows, helper);
            var left := JoinWith(LinesLeft(postScript, rows, helper, kinds), '\n');
            script.Some? && Strip(script.value, kinds) == if Kept(Enabled(rows), kinds) == [] then Finish(left) else left
  {
    ExportSplits(postScript, rows, helper);
    ExportStrips(postScript, rows, helper, kinds);
    StripOfLines(WithAssertionScript(postScript, rows, helper).value, ExportedTexts(postScript, rows, helper),
                 LinesLeft(postScript, rows, helper, kinds), kinds);
    BlockStaysInFront(Helper(Enabled(rows), helper), Kept(Enabled(rows), kinds), UserLines(postScript, kinds));
  }

  /** No line of the text is a begin marker. */
  ghost predicate NoBegin(lines: seq<Line>) {
    lines == [] || (!lines[0].mark.Begin? && NoBegin(lines[1..]))
  }

  lemma {:induction false} NothingToStrip(lines: seq<Line>, kinds: set<string>)
    requires NoBegin(lines)
    ensures StrippedLines(lines, kinds) == lines
  {
    if lines == [] {
    } else {
      NothingToStrip(lines[1..], kinds);
      FirstSegment(Single(lines[0]), Parse(lines[1..]), kinds);
      PrintOne(Single(lines[0]));
      assert [lines[0]] + lines[1..] == lines;
    }
  }

  /**
   * A user's script without a begin marker of its own comes back: minus its leading blank lines when every row went,
   * untouched behind the block of the remaining rows otherwise.
   */
  lemma {:induction false} UserScriptComesBack(postScript: string, rows: seq<Row>, helper: seq<string>, kinds: set<string>)
    requires GoodRows(rows) && AllOrdinary(helper) && Enabled(rows) != []
    requires NoBegin(Marked(SplitAt(postScript, '\n'))) && !Blank(postScript)
    ensures var script := WithAssertionScript(postScript, rows, helper);
            var kept := Kept(Enabled(rows), kinds);
            script.Some? && Strip(script.value, kinds) ==
            if kept == [] then WithoutBlankStart(postScript)
            else JoinWith(BlockTexts(Helper(Enabled(rows), helper), kept), '\n') + "\n" + postScript
  {
    var parts := SplitAt(postScript, '\n');
    ExportThenStrip(postScript, rows, helper, kinds);
    NothingToStrip(Marked(parts), kinds);
    SplitIsClean(postScript, '\n');
    MarkedIsHonest(parts);
    JoinOfSplit(postScript, '\n');
    var kept := Kept(Enabled(rows), kinds);
    assert [] + parts == parts;
    if kept == [] {
      NotBlankAfter(postScript);
    } else {
      JoinAppend(BlockTexts(Helper(Enabled(rows), helper), kept), parts, '\n');
    }
  }

  lemma {:induction false} NotBlankAfter(s: string)
    requires !Blank(s)
    ensures !Blank(WithoutBlankStart(s))
  {
    var k := BlankStart(s, |s|);
    BlankStartIs(s, |s|);
    assert s[k..][..|s| - k] == s[k..] && s[..k + (|s| - k)] == s;
    if Blank(s[k..]) {
      BlankTogether(s, k, |s| - k);
    }
  }

  /** With nothing of the user's, a script whose every row went is empty. */
  lemma {:induction false} NothingLeft(postScript: string, rows: seq<Row>, helper: seq<string>, kinds: set<string>)
    requires GoodRows(rows) && AllOrdinary(helper) && Enabled(rows) != [] && Blank(postScript)
    ensures var script := WithAssertionScript(postScript, rows, helper);
            script.Some? && (Strip(script.value, kinds) == "" <==> Kept(Enabled(rows), kinds) == [])
  {
    ExportThenStrip(postScript, rows, helper, kinds);
    var kept := Kept(Enabled(rows), kinds);
    assert [] + UserLines(postScript, kinds) == [];
    if kept != [] {
      BeginsWithBegin(LinesLeft(postScript, rows, helper, kinds));
    }
  }
}
