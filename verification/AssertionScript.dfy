/**
 * The generated block of assertion rows in `assertions-to-script.ts`: written in front of the user's script on export,
 * stripped again on import. A row is its kind and the one line `rowLine` writes for it.
 */
module AssertionScript {
  import opened JsText
  import opened Sequences
  import opened Splitting

  const BEGIN := "// ---" + " Testnizer Tests tab assertions (generated)" + " ---"
  const END := "// ---" + " end Testnizer Tests tab assertions" + " ---"
  const TAG := "// tn-assert:"
  const OPEN := ";(function () {"
  const CLOSE := "})();"

  datatype Row = Row(kind: string, enabled: bool, line: string)

  // ---- What a line is to the importer ----

  datatype Mark = Begin | End | Tag(kind: string) | Other

  datatype Line = Line(text: string, mark: Mark)

  function MarkOf(text: string): Mark {
    var t := Trim(text);
    if t == BEGIN then Begin
    else if t == END then End
    else if StartsWith(t, TAG) then Tag(Trim(t[|TAG|..]))
    else Other
  }

  function Marked(texts: seq<string>): (lines: seq<Line>)
    ensures |lines| == |texts|
  {
    if texts == [] then [] else [Line(texts[0], MarkOf(texts[0]))] + Marked(texts[1..])
  }

  function Texts(lines: seq<Line>): seq<string> {
    if lines == [] then [] else [lines[0].text] + Texts(lines[1..])
  }

  // ---- The parts of a script ----

  datatype Segment = Single(line: Line) | Block(lines: seq<Line>) | Unfinished(lines: seq<Line>)

  function FindEnd(lines: seq<Line>, from: nat): (e: nat)
    requires from <= |lines|
    ensures from <= e <= |lines|
    decreases |lines| - from
  {
    if from == |lines| || lines[from].mark.End? then from else FindEnd(lines, from + 1)
  }

  function Parse(lines: seq<Line>): seq<Segment> {
    if lines == [] then []
    else if !lines[0].mark.Begin? then [Single(lines[0])] + Parse(lines[1..])
    else
      var e := FindEnd(lines, 1);
      if e == |lines| then [Unfinished(lines)] else [Block(lines[..e + 1])] + Parse(lines[e + 1..])
  }

  function Text(s: Segment): seq<Line> {
    match s
    case Single(line) => [line]
    case Block(lines) => lines
    case Unfinished(lines) => lines
  }

  function Print(segments: seq<Segment>): seq<Line> {
    if segments == [] then [] else Text(segments[0]) + Print(segments[1..])
  }

  // ---- Stripping ----

  /** The tag at `k` goes, with its one line. */
  predicate Goes(block: seq<Line>, k: nat, kinds: set<string>)
    requires k < |block|
  {
    block[k].mark.Tag? && block[k].mark.kind in kinds && k + 2 < |block|
  }

  function Remaining(block: seq<Line>, k: nat, kinds: set<string>): seq<Line>
    requires k <= |block|
    decreases |block| - k
  {
    if k == |block| then []
    else if Goes(block, k, kinds) then Remaining(block, k + 2, kinds)
    else [block[k]] + Remaining(block, k + 1, kinds)
  }

  function RemainingTests(block: seq<Line>, k: nat, kinds: set<string>): nat
    requires k <= |block|
    decreases |block| - k
  {
    if k == |block| then 0
    else if Goes(block, k, kinds) then RemainingTests(block, k + 2, kinds)
    else (if block[k].mark.Tag? then 1 else 0) + RemainingTests(block, k + 1, kinds)
  }

  function StripSegment(s: Segment, kinds: set<string>): seq<Segment> {
    if !s.Block? then [s]
    else if RemainingTests(s.lines, 0, kinds) > 0 then [Block(Remaining(s.lines, 0, kinds))]
    else []
  }

  function StripAll(segments: seq<Segment>, kinds: set<string>): seq<Segment> {
    if segments == [] then [] else StripSegment(segments[0], kinds) + StripAll(segments[1..], kinds)
  }

  function StrippedLines(lines: seq<Line>, kinds: set<string>): seq<Line> {
    Print(StripAll(Parse(lines), kinds))
  }

  /** How much of the text its leading blank lines take: the run of white space up to its last line break. */
  function BlankStart(s: string, n: nat): (k: nat)
    requires n <= |s|
    ensures k <= n
    decreases n
  {
    if n == 0 then 0 else if s[n - 1] == '\n' && Blank(s[..n]) then n else BlankStart(s, n - 1)
  }

  /** `replace(/^\s*\n/, '')`. */
  function WithoutBlankStart(s: string): string {
    s[BlankStart(s, |s|)..]
  }

  function Finish(s: string): string {
    var result := WithoutBlankStart(s);
    if Blank(result) then "" else result
  }

  function Strip(script: string, kinds: set<string>): string {
    if !Includes(script, BEGIN) then script
    else Finish(JoinWith(Texts(StrippedLines(Marked(SplitAt(script, '\n')), kinds)), '\n'))
  }

  // ---- The loops ----

  lemma {:induction false} PrintAppend(a: seq<Segment>, b: seq<Segment>)
    ensures Print(a + b) == Print(a) + Print(b)
  {
    if a == [] {
      assert a + b == b;
    } else {
      assert (a + b)[0] == a[0] && (a + b)[1..] == a[1..] + b;
      PrintAppend(a[1..], b);
    }
  }

  lemma {:induction false} PrintOne(s: Segment)
    ensures Print([s]) == Text(s)
  {
    assert [s][1..] == [];
    assert Text(s) + [] == Text(s);
  }

  /** What stripping a script adds for its first part. */
  lemma {:induction false} FirstSegment(s: Segment, rest: seq<Segment>, kinds: set<string>)
    ensures Print(StripAll([s] + rest, kinds)) == Print(StripSegment(s, kinds)) + Print(StripAll(rest, kinds))
  {
    assert ([s] + rest)[1..] == rest;
    PrintAppend(StripSegment(s, kinds), StripAll(rest, kinds));
  }

  method StripBlock(lines: seq<Line>, i: nat, end: nat, kinds: set<string>) returns (kept: seq<Line>)
    requires i <= end < |lines|
    ensures kept == Print(StripSegment(Block(lines[i..end + 1]), kinds))
  {
    ghost var whole := lines[i..end + 1];
    var block := [];
    var remainingTests := 0;
    var k := i;
    while k <= end
      invariant i <= k <= end + 1
      invariant block + Remaining(whole, k - i, kinds) == Remaining(whole, 0, kinds)
      invariant remainingTests + RemainingTests(whole, k - i, kinds) == RemainingTests(whole, 0, kinds)
    {
      assert whole[k - i] == lines[k];
      if lines[k].mark.Tag? && lines[k].mark.kind in kinds && k + 1 < end {
        k := k + 2;
      } else {
        if lines[k].mark.Tag? {
          remainingTests := remainingTests + 1;
        }
        Regrouped(block, [lines[k]], Remaining(whole, k + 1 - i, kinds));
        block := block + [lines[k]];
        k := k + 1;
      }
    }
    kept := if remainingTests > 0 then block else [];
    BlockPrint(whole, block, kinds);
  }

  lemma {:induction false} BlockPrint(whole: seq<Line>, block: seq<Line>, kinds: set<string>)
    requires block + [] == Remaining(whole, 0, kinds)
    ensures Print(StripSegment(Block(whole), kinds)) == if RemainingTests(whole, 0, kinds) > 0 then block else []
  {
    assert block + [] == block;
    PrintOne(Block(Remaining(whole, 0, kinds)));
  }

  method FindEndMarker(lines: seq<Line>, i: nat) returns (end: nat)
    requires i < |lines|
    ensures i < end <= |lines| && end == FindEnd(lines, i + 1)
  {
    end := i + 1;
    while end < |lines| && !lines[end].mark.End?
      invariant i < end <= |lines| && FindEnd(lines, end) == FindEnd(lines, i + 1)
    {
      end := end + 1;
    }
  }

  /** The parts from line `i` on. */
  function ParseFrom(lines: seq<Line>, i: nat): seq<Segment>
    requires i <= |lines|
    decreases |lines| - i
  {
    if i == |lines| then []
    else if !lines[i].mark.Begin? then [Single(lines[i])] + ParseFrom(lines, i + 1)
    else
      var e := FindEnd(lines, i + 1);
      if e == |lines| then [Unfinished(lines[i..])] else [Block(lines[i..e + 1])] + ParseFrom(lines, e + 1)
  }

  lemma {:induction false} FindEndInRest(lines: seq<Line>, i: nat, from: nat)
    requires i <= from <= |lines|
    ensures FindEnd(lines[i..], from - i) == FindEnd(lines, from) - i
    decreases |lines| - from
  {
    if from >= |lines| {
    } else {
      assert lines[i..][from - i] == lines[from];
      FindEndInRest(lines, i, from + 1);
    }
  }

  lemma {:induction false} ParseAtBlock(rest: seq<Line>, e: nat, after: seq<Line>, block: seq<Line>)
    requires rest != [] && rest[0].mark.Begin? && FindEnd(rest, 1) == e < |rest|
    requires rest[e + 1..] == after && rest[..e + 1] == block
    ensures Parse(rest) == [Block(block)] + Parse(after)
  {
  }

  lemma {:induction false} ParseAtLine(rest: seq<Line>, after: seq<Line>)
    requires rest != [] && !rest[0].mark.Begin? && rest[1..] == after
    ensures Parse(rest) == [Single(rest[0])] + Parse(after)
  {
  }

  lemma {:induction false} RestSlices(lines: seq<Line>, i: nat, e: nat)
    requires i <= e <= |lines|
    ensures lines[i..][e - i..] == lines[e..]
    ensures lines[i..][..e - i] == lines[i..e]
    ensures i < |lines| ==> lines[i..][0] == lines[i]
  {
  }

  lemma {:induction false} LineCase(lines: seq<Line>, i: nat)
    requires i < |lines| && !lines[i].mark.Begin?
    requires ParseFrom(lines, i + 1) == Parse(lines[i + 1..])
    ensures ParseFrom(lines, i) == Parse(lines[i..])
  {
    RestSlices(lines, i, i + 1);
    ParseAtLine(lines[i..], lines[i + 1..]);
    AtLine(lines, i);
  }

  lemma {:induction false} BlockCase(lines: seq<Line>, i: nat, e: nat)
    requires i < e < |lines| && lines[i].mark.Begin? && FindEnd(lines, i + 1) == e
    requires ParseFrom(lines, e + 1) == Parse(lines[e + 1..])
    ensures ParseFrom(lines, i) == Parse(lines[i..])
  {
    FindEndInRest(lines, i, i + 1);
    RestSlices(lines, i, e + 1);
    ParseAtBlock(lines[i..], e - i, lines[e + 1..], lines[i..e + 1]);
    AtBlock(lines, i, e);
  }

  lemma {:induction false} UnfinishedCase(lines: seq<Line>, i: nat)
    requires i < |lines| && lines[i].mark.Begin? && FindEnd(lines, i + 1) == |lines|
    ensures ParseFrom(lines, i) == Parse(lines[i..])
  {
    FindEndInRest(lines, i, i + 1);
    RestSlices(lines, i, i);
  }

  lemma {:induction false} ParseFromIsParse(lines: seq<Line>, i: nat)
    requires i <= |lines|
    ensures ParseFrom(lines, i) == Parse(lines[i..])
    decreases |lines| - i
  {
    if i == |lines| {
      assert lines[i..] == [];
    } else if !lines[i].mark.Begin? {
      ParseFromIsParse(lines, i + 1);
      LineCase(lines, i);
    } else if FindEnd(lines, i + 1) == |lines| {
      UnfinishedCase(lines, i);
    } else {
      ParseFromIsParse(lines, FindEnd(lines, i + 1) + 1);
      BlockCase(lines, i, FindEnd(lines, i + 1));
    }
  }

  /** `out` and the stripped `rest` make up `whole`. */
  ghost predicate OnTheWay(whole: seq<Line>, out: seq<Line>, rest: seq<Segment>, kinds: set<string>) {
    out + Print(StripAll(rest, kinds)) == whole
  }

  lemma {:induction false} Over(whole: seq<Line>, out: seq<Line>, s: Segment, rest: seq<Segment>, kinds: set<string>)
    requires OnTheWay(whole, out, [s] + rest, kinds)
    ensures OnTheWay(whole, out + Print(StripSegment(s, kinds)), rest, kinds)
  {
    FirstSegment(s, rest, kinds);
    Regrouped(out, Print(StripSegment(s, kinds)), Print(StripAll(rest, kinds)));
  }

  method StripExportedAssertions(script: string, kinds: set<string>) returns (r: string)
    ensures r == Strip(script, kinds)
  {
    if !Includes(script, BEGIN) {
      return script;
    }
    var lines := Marked(SplitAt(script, '\n'));
    var out := StripLines(lines, kinds);
    var result := WithoutBlankStart(JoinWith(Texts(out), '\n'));
    r := if Blank(result) then "" else result;
  }

  lemma {:induction false} AtLine(lines: seq<Line>, i: nat)
    requires i < |lines| && !lines[i].mark.Begin?
    ensures ParseFrom(lines, i) == [Single(lines[i])] + ParseFrom(lines, i + 1)
  {
  }

  lemma {:induction false} AtBlock(lines: seq<Line>, i: nat, end: nat)
    requires i < end < |lines| && lines[i].mark.Begin? && FindEnd(lines, i + 1) == end
    ensures ParseFrom(lines, i) == [Block(lines[i..end + 1])] + ParseFrom(lines, end + 1)
  {
  }

  lemma {:induction false} AtUnfinished(lines: seq<Line>, i: nat)
    requires i < |lines| && lines[i].mark.Begin? && FindEnd(lines, i + 1) == |lines|
    ensures ParseFrom(lines, i) == [Unfinished(lines[i..])] + ParseFrom(lines, |lines|)
  {
  }

  /** From a begin marker on: the block with its stripped rows left out, or all the rest if the block has no end. */
  method OverBlock(lines: seq<Line>, i: nat, kinds: set<string>) returns (next: nat, kept: seq<Line>, ghost s: Segment)
    requires i < |lines| && lines[i].mark.Begin?
    ensures i < next <= |lines|
    ensures ParseFrom(lines, i) == [s] + ParseFrom(lines, next)
    ensures kept == Print(StripSegment(s, kinds))
  {
    var end := FindEndMarker(lines, i);
    if end >= |lines| {
      AtUnfinished(lines, i);
      PrintOne(Unfinished(lines[i..]));
      return |lines|, lines[i..], Unfinished(lines[i..]);
    }
    kept := StripBlock(lines, i, end, kinds);
    AtBlock(lines, i, end);
    return end + 1, kept, Block(lines[i..end + 1]);
  }

  method StripLines(lines: seq<Line>, kinds: set<string>) returns (out: seq<Line>)
    ensures out == StrippedLines(lines, kinds)
  {
    out := [];
    var i := 0;
    ghost var whole := StrippedLines(lines, kinds);
    Departure(lines, kinds);
    while i < |lines|
      invariant i <= |lines| && OnTheWay(whole, out, ParseFrom(lines, i), kinds)
    {
      if !lines[i].mark.Begin? {
        AtLine(lines, i);
        Over(whole, out, Single(lines[i]), ParseFrom(lines, i + 1), kinds);
        PrintOne(Single(lines[i]));
        out := out + [lines[i]];
        i := i + 1;
      } else {
        var next, kept, s := OverBlock(lines, i, kinds);
        Over(whole, out, s, ParseFrom(lines, next), kinds);
        out := out + kept;
        i := next;
      }
    }
    assert out + [] == out;
  }

  lemma {:induction false} Departure(lines: seq<Line>, kinds: set<string>)
    ensures OnTheWay(StrippedLines(lines, kinds), [], ParseFrom(lines, 0), kinds)
  {
    ParseFromIsParse(lines, 0);
    assert lines[0..] == lines;
    assert [] + StrippedLines(lines, kinds) == StrippedLines(lines, kinds);
  }
}
