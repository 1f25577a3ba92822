/** Nothing of a body is lost or moved: its blocks stand in it in order, with only white space between them. */
module SseCover {
  import opened Options
  import opened JsText
  import opened Sequences
  import opened SseBlocks
  import opened SseFixpoint

  /** The body with these blocks in it and these texts before, between and behind them. */
  function Glue(blocks: seq<SseBlock>, gaps: seq<string>): string
    requires |gaps| == |blocks| + 1
  {
    if blocks == [] then gaps[0] else gaps[0] + blocks[0].raw + Glue(blocks[1..], gaps[1..])
  }

  predicate IsBreakChar(c: char) {
    c == '\n' || c == '\r'
  }

  predicate IsCrlf(s: string, k: nat) {
    k + 1 < |s| && s[k] == '\r' && s[k + 1] == '\n'
  }

  /** A text starts with two line terminators: `\r\n` counts as one. */
  predicate TwoBreaks(s: string) {
    s != "" && IsBreakChar(s[0]) && var k := if IsCrlf(s, 0) then 2 else 1; k < |s| && IsBreakChar(s[k])
  }

  lemma {:induction false} TwoBreaksCount(s: string)
    ensures TwoBreaks(s) <==> RunCount(s) >= 2
  {
    var k := FirstToken(s);
    if k > 0 && k < |s| {
      assert s[k..][0] == s[k];
    }
  }

  predicate EndsInBreak(s: string) {
    s == "" || IsBreakChar(s[|s| - 1])
  }

  /**
   * What may stand around blocks: white space; behind a block that another one follows, a blank line; and in front of a
   * block, whole lines only.
   */
  ghost predicate Around(blocks: seq<SseBlock>, gaps: seq<string>) {
    && |gaps| == |blocks| + 1
    && (forall i :: 0 <= i < |gaps| ==> Blank(gaps[i]))
    && (forall i :: 0 < i < |blocks| ==> TwoBreaks(gaps[i]))
    && (forall i :: 0 <= i < |blocks| ==> EndsInBreak(gaps[i]))
  }

  /** A block is separated as it was in the body, or by `last` when nothing separates it there. */
  ghost predicate Separated(blocks: seq<SseBlock>, gaps: seq<string>, last: Separator) {
    && |gaps| == |blocks| + 1
    && forall i :: 0 <= i < |blocks| ==>
         blocks[i].separator == if !TwoBreaks(gaps[i + 1]) then last else if IsCrlf(gaps[i + 1], 0) then CrlfCrlf else LfLf
  }

  // ---- One stretch of the body ----

  lemma {:induction false} BreaksBehind(s: string)
    ensures var r := WithoutTrailingBreaks(s); forall i :: |r| <= i < |s| ==> IsBreakChar(s[i])
  {
    if s == "" || !IsBreak(s[|s| - 1]) {
    } else {
      var t := s[..|s| - 1];
      BreaksBehind(t);
      forall i | |WithoutTrailingBreaks(s)| <= i < |s|
        ensures IsBreakChar(s[i])
      {
        assert i < |t| ==> s[i] == t[i];
      }
    }
  }

  lemma {:induction false} RunIsBreaks(s: string)
    ensures forall i :: 0 <= i < RunLength(s) ==> IsBreakChar(s[i])
  {
    var k := FirstToken(s);
    if k == 0 {
    } else {
      RunIsBreaks(s[k..]);
      forall i | 0 <= i < RunLength(s)
        ensures IsBreakChar(s[i])
      {
        assert i >= k ==> s[i] == s[k..][i - k];
      }
    }
  }

  /** The text in front of a separator does not end in a break: the separator would have started there. */
  lemma {:induction false} TextEndsPlain(s: string)
    requires TextLength(s) < |s|
    ensures EndsPlain(s[..TextLength(s)])
  {
    var n := TextLength(s);
    if n == 0 {
    } else {
      assert s[1..][TextLength(s[1..])..] == s[n..] && s[..n] == [s[0]] + s[1..][..n - 1];
      TextEndsPlain(s[1..]);
      if n == 1 {
        TextEnds(s);
        TwoBreaksCount(s[1..]);
        TwoBreaksCount(s);
        assert s[1] == s[1..][0];
      }
    }
  }

  lemma {:induction false} PlainStays(s: string)
    requires EndsPlain(s)
    ensures WithoutTrailingBreaks(s) == s
  {
  }

  // ---- All of it ----

  lemma {:induction false} AroundNone(s: string, last: Separator) returns (gaps: seq<string>)
    requires Pushed(s, last) == []
    ensures Around([], gaps) && Separated([], gaps, last) && Glue([], gaps) == s
  {
    var raw := WithoutTrailingBreaks(s);
    TrimmedBlank(raw);
    BreaksBehind(s);
    gaps := [s];
    forall i | 0 <= i < |s|
      ensures IsSpace(s[i])
    {
      assert i < |raw| ==> s[i] == raw[i];
    }
  }

  lemma {:induction false} QuietSuffix(s: string, n: nat)
    requires n <= |s| && TextLength(s) == |s|
    ensures !TwoBreaks(s[n..])
  {
    if n == 0 {
      assert s[0..] == s;
      TwoBreaksCount(s);
    } else if s != "" {
      assert s[1..][n - 1..] == s[n..];
      QuietSuffix(s[1..], n - 1);
    }
  }

  lemma {:induction false} AroundOne(b: SseBlock, suffix: string, last: Separator) returns (gaps: seq<string>)
    requires b.separator == last && Blank(suffix) && !TwoBreaks(suffix)
    ensures Around([b], gaps) && Separated([b], gaps, last) && Glue([b], gaps) == b.raw + suffix
  {
    gaps := ["", suffix];
    assert gaps[1..] == [suffix] && [b][1..] == [];
    assert "" + b.raw + suffix == b.raw + suffix;
  }

  lemma {:induction false} AroundLast(s: string, last: Separator) returns (gaps: seq<string>)
    requires TextLength(s) == |s| && Pushed(s, last) != []
    ensures Around(Pushed(s, last), gaps) && Separated(Pushed(s, last), gaps, last) && Glue(Pushed(s, last), gaps) == s
  {
    var raw := WithoutTrailingBreaks(s);
    BreaksBehind(s);
    QuietSuffix(s, |raw|);
    gaps := AroundOne(BlockOf(raw, last), s[|raw|..], last);
    assert raw + s[|raw|..] == s;
  }

  /** What a match of the separator is. */
  predicate ProperSeparator(sep: string) {
    Blank(sep) && TwoBreaks(sep) && EndsInBreak(sep)
  }

  lemma {:induction false} SeparatorFacts(rest: string, r: nat)
    requires r == RunLength(rest) && RunCount(rest) >= 2
    ensures ProperSeparator(rest[..r])
  {
    TwoBreaksCount(rest);
    AtLeastTwo(rest);
    RunIsBreaks(rest);
    var k := FirstToken(rest);
    assert RunLength(rest[k..]) > 0;
    assert r > k;
  }

  lemma {:induction false} TwoBreaksMore(sep: string, x: string)
    requires TwoBreaks(sep)
    ensures TwoBreaks(sep + x) && (IsCrlf(sep + x, 0) <==> StartsWith(sep, "\r\n"))
  {
  }

  lemma {:induction false} BlankJoin(a: string, b: string)
    requires Blank(a) && Blank(b)
    ensures Blank(a + b)
  {
  }

  /** A blank stretch in front is only more white space. */
  lemma {:induction false} AroundBlank(t: string, sep: string, blocks: seq<SseBlock>, rest: seq<string>, last: Separator)
    returns (gaps: seq<string>)
    requires Blank(t) && Blank(sep) && sep != "" && EndsInBreak(sep)
    requires Around(blocks, rest) && Separated(blocks, rest, last)
    ensures Around(blocks, gaps) && Separated(blocks, gaps, last)
    ensures Glue(blocks, gaps) == t + sep + Glue(blocks, rest)
  {
    var first := t + sep + rest[0];
    BlankJoin(t, sep);
    BlankJoin(t + sep, rest[0]);
    gaps := [first] + rest[1..];
    assert gaps[1..] == rest[1..];
    if blocks != [] {
      Regrouped(t + sep, rest[0], blocks[0].raw);
      Regrouped(t + sep, rest[0] + blocks[0].raw, Glue(blocks[1..], rest[1..]));
    }
  }

  lemma {:induction false} SeparatedBehind(b: SseBlock, first: string, blocks: seq<SseBlock>, rest: seq<string>, last: Separator)
    requires |rest| == |blocks| + 1 && Separated(blocks, rest, last) && TwoBreaks(first)
    requires b.separator == if IsCrlf(first, 0) then CrlfCrlf else LfLf
    ensures Separated([b] + blocks, ["", first] + rest[1..], last)
  {
    var all, gaps := [b] + blocks, ["", first] + rest[1..];
    forall i | 0 < i < |all|
      ensures all[i] == blocks[i - 1] && gaps[i + 1] == rest[i]
    {
    }
  }

  lemma {:induction false} AroundBehind(b: SseBlock, first: string, blocks: seq<SseBlock>, rest: seq<string>)
    requires |rest| == |blocks| + 1 && Around(blocks, rest) && Blank(first) && TwoBreaks(first)
    requires EndsInBreak(rest[0]) ==> EndsInBreak(first)
    ensures Around([b] + blocks, ["", first] + rest[1..])
  {
    var all, gaps := [b] + blocks, ["", first] + rest[1..];
    forall i | 1 < i < |gaps|
      ensures gaps[i] == rest[i - 1]
    {
    }
  }

  /** A block in front, with its separator and whatever white space follows that. */
  lemma {:induction false} AroundBlock(b: SseBlock, sep: string, blocks: seq<SseBlock>, rest: seq<string>, last: Separator)
    returns (gaps: seq<string>)
    requires Around(blocks, rest) && Separated(blocks, rest, last)
    requires Blank(sep) && sep != "" && EndsInBreak(sep) && TwoBreaks(sep + rest[0])
    requires b.separator == if IsCrlf(sep + rest[0], 0) then CrlfCrlf else LfLf
    ensures Around([b] + blocks, gaps) && Separated([b] + blocks, gaps, last)
    ensures Glue([b] + blocks, gaps) == b.raw + sep + Glue(blocks, rest)
  {
    BlankJoin(sep, rest[0]);
    gaps := ["", sep + rest[0]] + rest[1..];
    assert ([b] + blocks)[1..] == blocks && gaps[1..] == [sep + rest[0]] + rest[1..];
    SeparatedBehind(b, sep + rest[0], blocks, rest, last);
    AroundBehind(b, sep + rest[0], blocks, rest);
    GlueBehind(b.raw, sep, blocks, rest);
  }

  lemma {:induction false} GlueBehind(raw: string, sep: string, blocks: seq<SseBlock>, rest: seq<string>)
    requires |rest| == |blocks| + 1
    ensures "" + raw + Glue(blocks, [sep + rest[0]] + rest[1..]) == raw + sep + Glue(blocks, rest)
  {
    var gaps := [sep + rest[0]] + rest[1..];
    assert gaps[1..] == rest[1..];
    assert "" + raw == raw;
    if blocks == [] {
      Regrouped(raw, sep, rest[0]);
    } else {
      Regrouped(sep, rest[0], blocks[0].raw);
      Regrouped(sep, rest[0] + blocks[0].raw, Glue(blocks[1..], rest[1..]));
      Regrouped(raw, sep, Glue(blocks, rest));
    }
  }

  ghost predicate Covers(blocks: seq<SseBlock>, gaps: seq<string>, last: Separator, s: string) {
    Around(blocks, gaps) && Separated(blocks, gaps, last) && Glue(blocks, gaps) == s
  }

  lemma {:induction false} StretchCovers(t: string, sep: string, tail: string, bs: seq<SseBlock>, others: seq<string>, last: Separator)
    returns (gaps: seq<string>)
    requires EndsPlain(t) && ProperSeparator(sep) && Covers(bs, others, last, tail)
    ensures Covers(Pushed(t, SeparatorOf(sep)) + bs, gaps, last, t + sep + tail)
  {
    PlainStays(t);
    if Pushed(t, SeparatorOf(sep)) == [] {
      TrimmedBlank(t);
      gaps := AroundBlank(t, sep, bs, others, last);
      assert [] + bs == bs;
    } else {
      TwoBreaksMore(sep, others[0]);
      gaps := AroundBlock(BlockOf(t, SeparatorOf(sep)), sep, bs, others, last);
    }
  }

  lemma {:induction false} WholeCovers(s: string, last: Separator) returns (gaps: seq<string>)
    requires TextLength(s) == |s|
    ensures Covers(Pushed(s, last), gaps, last, s) && Blocks(s, last) == Pushed(s, last)
  {
    assert s[|s|..] == [];
    if Pushed(s, last) == [] {
      gaps := AroundNone(s, last);
    } else {
      gaps := AroundLast(s, last);
    }
  }

  lemma {:induction false} ThreePieces(s: string, n: nat, rest: string, r: nat)
    requires n <= |s| && rest == s[n..] && r <= |rest|
    ensures s == s[..n] + rest[..r] + rest[r..]
  {
    assert rest == rest[..r] + rest[r..];
    Regrouped(s[..n], rest[..r], rest[r..]);
  }

  /** The first stretch of a body, its separator, and what is behind it. */
  lemma {:induction false} FirstStretch(s: string, last: Separator) returns (t: string, sep: string, tail: string)
    requires TextLength(s) < |s|
    ensures s == t + sep + tail && |tail| < |s| && EndsPlain(t) && ProperSeparator(sep)
    ensures Blocks(s, last) == Pushed(t, SeparatorOf(sep)) + Blocks(tail, last)
  {
    var n := TextLength(s);
    var rest := s[n..];
    TextEnds(s);
    AtLeastTwo(rest);
    var r := RunLength(rest);
    TextEndsPlain(s);
    SeparatorFacts(rest, r);
    ThreePieces(s, n, rest, r);
    BlocksUnfold(s, n, rest, s[..n], r, rest[..r], rest[r..], last);
    t, sep, tail := s[..n], rest[..r], rest[r..];
  }

  lemma {:induction false} BlocksCover(s: string, last: Separator) returns (gaps: seq<string>)
    ensures Covers(Blocks(s, last), gaps, last, s)
    decreases |s|
  {
    if TextLength(s) == |s| {
      gaps := WholeCovers(s, last);
    } else {
      var t, sep, tail := FirstStretch(s, last);
      var others := BlocksCover(tail, last);
      gaps := StretchCovers(t, sep, tail, Blocks(tail, last), others, last);
    }
  }

  lemma {:induction false} IncludesCrlf(s: string)
    ensures Includes(s, "\r\n") <==> exists k :: 0 <= k < |s| && IsCrlf(s, k)
  {
    if s == "" {
    } else {
      IncludesCrlf(s[1..]);
      assert "\r\n" <= s <==> IsCrlf(s, 0);
      forall k | 0 < k < |s|
        ensures IsCrlf(s, k) <==> IsCrlf(s[1..], k - 1)
      {
      }
      if Includes(s[1..], "\r\n") {
        var k :| 0 <= k < |s[1..]| && IsCrlf(s[1..], k);
        assert IsCrlf(s, k + 1);
      }
    }
  }

  /**
   * The blocks of a body stand in it in order and whole: around them is white space, between two of them a blank line.
   * Each keeps the separator it had; one without takes `\r\n\r\n` exactly when a `\r\n` stands anywhere in the body.
   */
  lemma {:induction false} NothingLost(body: string) returns (gaps: seq<string>, last: Separator)
    ensures Around(Split(body), gaps) && Glue(Split(body), gaps) == body
    ensures Separated(Split(body), gaps, last)
    ensures last == CrlfCrlf <==> exists k :: 0 <= k < |body| && IsCrlf(body, k)
  {
    last := if Includes(body, "\r\n") then CrlfCrlf else LfLf;
    IncludesCrlf(body);
    gaps := BlocksCover(body, last);
  }

  /** Inside a block there is no blank line, it does not end in a break, and it is not all white space. */
  lemma {:induction false} BlocksAreStretches(body: string, i: nat)
    requires i < |Split(body)|
    ensures var raw := Split(body)[i].raw;
            && !Blank(raw) && !IsBreakChar(raw[|raw| - 1])
            && forall k :: 0 <= k < |raw| ==> !TwoBreaks(raw[k..])
  {
    BlocksTight(body, if Includes(body, "\r\n") then CrlfCrlf else LfLf);
    var raw := Split(body)[i].raw;
    assert Tight(Split(body)[i]);
    if Blank(raw) {
      BlankTrims(raw);
    }
    forall k | 0 <= k < |raw|
      ensures !TwoBreaks(raw[k..])
    {
      QuietInside(raw, k);
    }
  }

  lemma {:induction false} QuietInside(t: string, k: nat)
    requires NoBlankLine(t) && k <= |t|
    ensures !TwoBreaks(t[k..])
  {
    TwoBreaksCount(t);
    if k == 0 {
      assert t[0..] == t;
    } else {
      assert t[1..][k - 1..] == t[k..];
      QuietInside(t[1..], k - 1);
    }
  }

  // ---- Lines ----

  /** A text with these lines in it and these terminators behind all but the last. */
  function Stacked(lines: seq<string>, ends: seq<string>): string
    requires |lines| == |ends| + 1
  {
    if ends == [] then lines[0] else lines[0] + ends[0] + Stacked(lines[1..], ends[1..])
  }

  predicate IsEnd(e: string) {
    e == "\n" || e == "\r\n" || e == "\r"
  }

  /** Lines without breaks, terminators between them, and no `\r\n` taken for two. */
  ghost predicate Stacks(lines: seq<string>, ends: seq<string>, s: string) {
    && |lines| == |ends| + 1 && Stacked(lines, ends) == s
    && (forall i :: 0 <= i < |ends| ==> IsEnd(ends[i]))
    && (forall i :: 0 <= i < |lines| ==> NoBreaks(lines[i]))
    && (forall i :: 0 <= i < |ends| && ends[i] == "\r" ==> !FeedNext(lines, ends, i + 1))
  }

  predicate NoBreaks(line: string) {
    forall k :: 0 <= k < |line| ==> !IsBreakChar(line[k])
  }

  /** The text from line `i` on starts with a line feed. */
  predicate FeedNext(lines: seq<string>, ends: seq<string>, i: nat)
    requires |lines| == |ends| + 1
  {
    i < |ends| && lines[i] == "" && ends[i] == "\n"
  }

  lemma {:induction false} StacksBreak(e: string, lines: seq<string>, ends: seq<string>, s: string)
    requires IsEnd(e) && Stacks(lines, ends, s) && (e == "\r" ==> !FeedNext(lines, ends, 0))
    ensures Stacks([""] + lines, [e] + ends, e + s)
  {
    var l, d := [""] + lines, [e] + ends;
    assert l[1..] == lines && d[1..] == ends;
    assert "" + e + s == e + s;
    forall i | 0 <= i < |d| && d[i] == "\r"
      ensures !FeedNext(l, d, i + 1)
    {
      assert i > 0 ==> !FeedNext(lines, ends, i);
    }
  }

  lemma {:induction false} StacksChar(c: char, lines: seq<string>, ends: seq<string>, s: string)
    requires !IsBreakChar(c) && Stacks(lines, ends, s)
    ensures Stacks([[c] + lines[0]] + lines[1..], ends, [c] + s)
  {
    var l := [[c] + lines[0]] + lines[1..];
    assert l[1..] == lines[1..];
    if ends != [] {
      Regrouped([c], lines[0], ends[0]);
      Regrouped([c], lines[0] + ends[0], Stacked(lines[1..], ends[1..]));
    }
    forall i | 0 <= i < |ends| && ends[i] == "\r"
      ensures !FeedNext(l, ends, i + 1)
    {
      assert !FeedNext(lines, ends, i + 1);
    }
  }

  lemma {:induction false} StartsWithFeed(lines: seq<string>, ends: seq<string>, s: string)
    requires Stacks(lines, ends, s) && FeedNext(lines, ends, 0)
    ensures s != "" && s[0] == '\n'
  {
    assert s == lines[0] + ends[0] + Stacked(lines[1..], ends[1..]);
  }

  /** The lines of a text hold no break, and between them stand its terminators, `\r\n` as one. */
  lemma {:induction false} LinesCover(s: string) returns (ends: seq<string>)
    ensures Stacks(Lines(s), ends, s)
    decreases |s|
  {
    var k := FirstToken(s);
    if s == "" {
      ends := [];
    } else if k > 0 {
      var rest := LinesCover(s[k..]);
      ends := [s[..k]] + rest;
      assert s == s[..k] + s[k..];
      if s[..k] == "\r" && FeedNext(Lines(s[k..]), rest, 0) {
        StartsWithFeed(Lines(s[k..]), rest, s[k..]);
      }
      StacksBreak(s[..k], Lines(s[k..]), rest, s[k..]);
    } else {
      ends := LinesCover(s[1..]);
      assert s == [s[0]] + s[1..];
      StacksChar(s[0], Lines(s[1..]), ends, s[1..]);
    }
  }

  predicate TwoBraces(s: string, k: nat) {
    k + 1 < |s| && s[k] == '{' && s[k + 1] == '{'
  }

  predicate Opens(s: string) {
    exists k :: 0 <= k < |s| && TwoBraces(s, k)
  }

  /** An id is a template exactly when two opening braces stand next to each other in some usable id of the block. */
  lemma {:induction false} TemplateIff(lines: seq<string>, n: nat)
    requires n <= |lines|
    ensures HasTemplateId(lines, n) <==> exists i :: 0 <= i < n && IdOf(lines[i]).Some? && Opens(IdOf(lines[i]).value)
  {
    if n == 0 {
    } else {
      TemplateIff(lines, n - 1);
      if IdOf(lines[n - 1]).Some? {
        IncludesBraces(IdOf(lines[n - 1]).value);
      }
    }
  }

  lemma {:induction false} IncludesBraces(s: string)
    ensures Includes(s, "{{") <==> Opens(s)
  {
    if s == "" {
    } else {
      IncludesBraces(s[1..]);
      assert "{{" <= s <==> TwoBraces(s, 0);
      forall k: nat | 0 < k
        ensures TwoBraces(s, k) <==> TwoBraces(s[1..], k - 1)
      {
      }
      if k :| 0 <= k < |s[1..]| && TwoBraces(s[1..], k) {
        assert TwoBraces(s, k + 1);
      }
    }
  }
}
