/** Stripping a script twice is stripping it once. */
module AssertionScriptLaws {
  import opened JsText
  import opened Sequences
  import opened Splitting
  import opened AssertionScript

  // ---- Parsing is undone by printing, both ways ----

  ghost predicate FormedBlock(lines: seq<Line>) {
    && |lines| >= 2
    && lines[0].mark.Begin?
    && lines[|lines| - 1].mark.End?
    && forall k :: 0 < k < |lines| - 1 ==> !lines[k].mark.End?
  }

  ghost predicate FormedTail(lines: seq<Line>) {
    && lines != []
    && lines[0].mark.Begin?
    && forall k :: 0 < k < |lines| ==> !lines[k].mark.End?
  }

  ghost predicate Formed(segments: seq<Segment>) {
    segments == [] ||
    (match segments[0]
     case Single(line) => !line.mark.Begin? && Formed(segments[1..])
     case Block(lines) => FormedBlock(lines) && Formed(segments[1..])
     case Unfinished(lines) => FormedTail(lines) && |segments| == 1)
  }

  lemma {:induction false} FindEndFinds(lines: seq<Line>, from: nat)
    requires from <= |lines|
    ensures var e := FindEnd(lines, from);
            && (e < |lines| ==> lines[e].mark.End?)
            && forall k :: from <= k < e ==> !lines[k].mark.End?
    decreases |lines| - from
  {
    if from >= |lines| || lines[from].mark.End? {
    } else {
      FindEndFinds(lines, from + 1);
    }
  }

  lemma {:induction false} FindEndIs(lines: seq<Line>, from: nat, e: nat)
    requires from <= e <= |lines|
    requires e < |lines| ==> lines[e].mark.End?
    requires forall k :: from <= k < e ==> !lines[k].mark.End?
    ensures FindEnd(lines, from) == e
    decreases e - from
  {
    if from >= e {
    } else {
      FindEndIs(lines, from + 1, e);
    }
  }

  lemma {:induction false} BlockIsFormed(lines: seq<Line>, e: nat)
    requires lines != [] && lines[0].mark.Begin? && 1 <= e < |lines| && FindEnd(lines, 1) == e
    ensures FormedBlock(lines[..e + 1])
  {
    FindEndFinds(lines, 1);
  }

  lemma {:induction false} TailIsFormed(lines: seq<Line>)
    requires lines != [] && lines[0].mark.Begin? && FindEnd(lines, 1) == |lines|
    ensures FormedTail(lines)
  {
    FindEndFinds(lines, 1);
  }

  lemma {:induction false} FormedCons(s: Segment, rest: seq<Segment>)
    requires Formed(rest)
    requires s.Single? ==> !s.line.mark.Begin?
    requires s.Block? ==> FormedBlock(s.lines)
    requires s.Unfinished? ==> FormedTail(s.lines) && rest == []
    ensures Formed([s] + rest)
  {
    assert ([s] + rest)[1..] == rest;
  }

  lemma {:induction false} PrintCons(s: Segment, rest: seq<Segment>)
    ensures Print([s] + rest) == Text(s) + Print(rest)
  {
    assert ([s] + rest)[1..] == rest;
  }

  lemma {:induction false} ParseForms(lines: seq<Line>)
    ensures Formed(Parse(lines)) && Print(Parse(lines)) == lines
    decreases |lines|
  {
    if lines == [] {
    } else {
      if !lines[0].mark.Begin? {
        ParseForms(lines[1..]);
        FormedCons(Single(lines[0]), Parse(lines[1..]));
        PrintCons(Single(lines[0]), Parse(lines[1..]));
        assert [lines[0]] + lines[1..] == lines;
      } else {
        var e := FindEnd(lines, 1);
        if e == |lines| {
          TailIsFormed(lines);
          FormedCons(Unfinished(lines), []);
          PrintOne(Unfinished(lines));
          assert [Unfinished(lines)] + [] == [Unfinished(lines)];
        } else {
          ParseForms(lines[e + 1..]);
          BlockIsFormed(lines, e);
          FormedCons(Block(lines[..e + 1]), Parse(lines[e + 1..]));
          PrintCons(Block(lines[..e + 1]), Parse(lines[e + 1..]));
          assert lines[..e + 1] + lines[e + 1..] == lines;
        }
      }
    }
  }

  lemma {:induction false} ParseSingle(line: Line, rest: seq<Line>)
    requires !line.mark.Begin?
    ensures Parse([line] + rest) == [Single(line)] + Parse(rest)
  {
    assert ([line] + rest)[1..] == rest;
  }

  lemma {:induction false} ParseBlock(lines: seq<Line>, rest: seq<Line>)
    requires FormedBlock(lines)
    ensures Parse(lines + rest) == [Block(lines)] + Parse(rest)
  {
    var e := |lines| - 1;
    var whole := lines + rest;
    forall k | 0 <= k <= e ensures whole[k] == lines[k] {}
    FindEndIs(whole, 1, e);
    assert whole[..e + 1] == lines && whole[e + 1..] == rest;
    ParseAtBlock(whole, e, rest, lines);
  }

  lemma {:induction false} ParseTail(lines: seq<Line>)
    requires FormedTail(lines)
    ensures Parse(lines) == [Unfinished(lines)]
  {
    FindEndIs(lines, 1, |lines|);
  }

  lemma {:induction false} ParsePrint(segments: seq<Segment>)
    requires Formed(segments)
    ensures Parse(Print(segments)) == segments
    decreases |segments|
  {
    if segments == [] {
    } else {
      var s, rest := segments[0], segments[1..];
      assert segments == [s] + rest;
      match s {
        case Single(line) =>
          ParsePrint(rest);
          ParseSingle(line, Print(rest));
        case Block(lines) =>
          ParsePrint(rest);
          ParseBlock(lines, Print(rest));
        case Unfinished(lines) =>
          ParseTail(lines);
          assert rest == [];
          assert lines + [] == lines;
      }
    }
  }

  // ---- Stripping a block twice ----

  ghost predicate Clean(block: seq<Line>, kinds: set<string>) {
    forall j :: 0 <= j < |block| ==> !Goes(block, j, kinds)
  }

  lemma {:induction false} RemainingIsClean(block: seq<Line>, k: nat, kinds: set<string>)
    requires k <= |block|
    ensures Clean(Remaining(block, k, kinds), kinds)
    ensures |Remaining(block, k, kinds)| <= |block| - k
    decreases |block| - k
  {
    if k >= |block| {
    } else {
      if Goes(block, k, kinds) {
        RemainingIsClean(block, k + 2, kinds);
      } else {
        RemainingIsClean(block, k + 1, kinds);
        var rest := Remaining(block, k + 1, kinds);
        var r := [block[k]] + rest;
        forall j | 0 <= j < |r|
          ensures !Goes(r, j, kinds)
        {
          if j > 0 {
            assert r[j] == rest[j - 1];
            assert !Goes(rest, j - 1, kinds);
          }
        }
      }
    }
  }

  lemma {:induction false} CleanStays(block: seq<Line>, k: nat, kinds: set<string>)
    requires k <= |block| && Clean(block, kinds)
    ensures Remaining(block, k, kinds) == block[k..]
    decreases |block| - k
  {
    if k >= |block| {
    } else {
      CleanStays(block, k + 1, kinds);
      assert [block[k]] + block[k + 1..] == block[k..];
    }
  }

  function TagCount(lines: seq<Line>): nat {
    if lines == [] then 0 else (if lines[0].mark.Tag? then 1 else 0) + TagCount(lines[1..])
  }

  lemma {:induction false} TestsAreTags(block: seq<Line>, k: nat, kinds: set<string>)
    requires k <= |block|
    ensures RemainingTests(block, k, kinds) == TagCount(Remaining(block, k, kinds))
    decreases |block| - k
  {
    if k >= |block| {
    } else {
      if Goes(block, k, kinds) {
        TestsAreTags(block, k + 2, kinds);
      } else {
        TestsAreTags(block, k + 1, kinds);
        assert ([block[k]] + Remaining(block, k + 1, kinds))[1..] == Remaining(block, k + 1, kinds);
      }
    }
  }

  /** What stripping leaves of a block keeps its ends, and has no end marker in between. */
  lemma {:induction false} RemainingShape(block: seq<Line>, k: nat, kinds: set<string>)
    requires k < |block| && block[|block| - 1].mark.End?
    requires forall j :: 0 < j < |block| - 1 ==> !block[j].mark.End?
    ensures var r := Remaining(block, k, kinds);
            && r != []
            && r[|r| - 1] == block[|block| - 1]
            && (forall j :: 0 <= j < |r| - 1 && (k > 0 || j > 0) ==> !r[j].mark.End?)
            && (!Goes(block, k, kinds) ==> r[0] == block[k])
    decreases |block| - k
  {
    if Goes(block, k, kinds) {
      RemainingShape(block, k + 2, kinds);
    } else if k + 1 < |block| {
      RemainingShape(block, k + 1, kinds);
      var rest := Remaining(block, k + 1, kinds);
      var r := [block[k]] + rest;
      forall j | 0 < j < |r|
        ensures r[j] == rest[j - 1]
      {
      }
    } else {
      assert Remaining(block, k + 1, kinds) == [];
    }
  }

  lemma {:induction false} StrippedBlockIsFormed(block: seq<Line>, kinds: set<string>)
    requires FormedBlock(block)
    ensures FormedBlock(Remaining(block, 0, kinds))
  {
    RemainingShape(block, 0, kinds);
    RemainingIsClean(block, 0, kinds);
    var r := Remaining(block, 0, kinds);
    assert r[0] == block[0];
    assert r[|r| - 1].mark.End? && r[0].mark.Begin?;
  }

  lemma {:induction false} BlockTwice(block: seq<Line>, kinds: set<string>)
    requires RemainingTests(block, 0, kinds) > 0
    ensures StripSegment(Block(Remaining(block, 0, kinds)), kinds) == [Block(Remaining(block, 0, kinds))]
  {
    var r := Remaining(block, 0, kinds);
    RemainingIsClean(block, 0, kinds);
    CleanStays(r, 0, kinds);
    assert r[0..] == r;
    TestsAreTags(block, 0, kinds);
    TestsAreTags(r, 0, kinds);
  }

  lemma {:induction false} StripAllCons(s: Segment, rest: seq<Segment>, kinds: set<string>)
    ensures StripAll([s] + rest, kinds) == StripSegment(s, kinds) + StripAll(rest, kinds)
  {
    assert ([s] + rest)[1..] == rest;
  }

  /** Stripped parts are still a script's parts, and stripping them again changes nothing. */
  lemma {:induction false} StripAllTwice(segments: seq<Segment>, kinds: set<string>)
    requires Formed(segments)
    ensures Formed(StripAll(segments, kinds))
    ensures StripAll(StripAll(segments, kinds), kinds) == StripAll(segments, kinds)
    decreases |segments|
  {
    if segments == [] {
    } else {
      var s, rest := segments[0], segments[1..];
      assert Formed(rest) by {
        if s.Unfinished? {
          assert rest == [];
        }
      }
      StripAllTwice(rest, kinds);
      var stripped := StripAll(rest, kinds);
      if s.Block? {
        StrippedBlockIsFormed(s.lines, kinds);
        if RemainingTests(s.lines, 0, kinds) > 0 {
          var t := Block(Remaining(s.lines, 0, kinds));
          FormedCons(t, stripped);
          BlockTwice(s.lines, kinds);
          StripAllCons(t, stripped, kinds);
        } else {
          assert [] + stripped == stripped;
        }
      } else {
        assert s.Unfinished? ==> stripped == [];
        FormedCons(s, stripped);
        StripAllCons(s, stripped, kinds);
      }
    }
  }

  // ---- Lines and text ----

  /** The lines are what splitting a script gives. */
  ghost predicate Honest(lines: seq<Line>) {
    forall l: Line :: l in lines ==> l.mark == MarkOf(l.text) && '\n' !in l.text
  }

  lemma {:induction false} MarkedIsHonest(texts: seq<string>)
    requires NoneHas(texts, '\n')
    ensures Honest(Marked(texts))
    ensures Texts(Marked(texts)) == texts
  {
    if texts == [] {
    } else {
      MarkedIsHonest(texts[1..]);
      var head := Line(texts[0], MarkOf(texts[0]));
      assert ([head] + Marked(texts[1..]))[1..] == Marked(texts[1..]);
      assert [texts[0]] + texts[1..] == texts;
    }
  }

  lemma {:induction false} TextsOfHonest(lines: seq<Line>)
    requires Honest(lines)
    ensures Marked(Texts(lines)) == lines && NoneHas(Texts(lines), '\n')
    ensures lines != [] ==> Texts(lines) != []
  {
    if lines == [] {
    } else {
      assert lines[0] in lines;
      assert forall l: Line :: l in lines[1..] ==> l in lines;
      TextsOfHonest(lines[1..]);
      var texts := Texts(lines);
      assert texts[1..] == Texts(lines[1..]);
      assert [lines[0]] + lines[1..] == lines;
      assert Line(lines[0].text, MarkOf(lines[0].text)) == lines[0];
    }
  }

  lemma {:induction false} RemainingMembers(block: seq<Line>, k: nat, kinds: set<string>, l: Line)
    requires k <= |block| && l in Remaining(block, k, kinds)
    ensures l in block
    decreases |block| - k
  {
    if Goes(block, k, kinds) {
      RemainingMembers(block, k + 2, kinds, l);
    } else if l != block[k] {
      RemainingMembers(block, k + 1, kinds, l);
    }
  }

  lemma {:induction false} StripMembers(segments: seq<Segment>, kinds: set<string>, l: Line)
    requires l in Print(StripAll(segments, kinds))
    ensures l in Print(segments)
    decreases |segments|
  {
    var s, rest := segments[0], segments[1..];
    assert segments == [s] + rest;
    FirstSegment(s, rest, kinds);
    if l in Print(StripSegment(s, kinds)) {
      if s.Block? {
        PrintOne(Block(Remaining(s.lines, 0, kinds)));
        RemainingMembers(s.lines, 0, kinds, l);
      } else {
        PrintOne(s);
      }
    } else {
      StripMembers(rest, kinds, l);
    }
  }

  lemma {:induction false} StrippedIsHonest(lines: seq<Line>, kinds: set<string>)
    requires Honest(lines)
    ensures Honest(StrippedLines(lines, kinds))
  {
    ParseForms(lines);
    forall l: Line | l in StrippedLines(lines, kinds)
      ensures l in lines
    {
      StripMembers(Parse(lines), kinds, l);
    }
  }

  /** Lines that stripping would leave alone. */
  ghost predicate Settled(lines: seq<Line>, kinds: set<string>) {
    StripAll(Parse(lines), kinds) == Parse(lines)
  }

  lemma {:induction false} StrippedIsSettled(lines: seq<Line>, kinds: set<string>)
    ensures Settled(StrippedLines(lines, kinds), kinds)
  {
    ParseForms(lines);
    StripAllTwice(Parse(lines), kinds);
    ParsePrint(StripAll(Parse(lines), kinds));
  }

  lemma {:induction false} SettledStays(lines: seq<Line>, kinds: set<string>)
    requires Settled(lines, kinds)
    ensures StrippedLines(lines, kinds) == lines
  {
    ParseForms(lines);
  }

  // ---- Blank lines at the start ----

  lemma {:induction false} BlankIsOther(text: string)
    requires Blank(text)
    ensures MarkOf(text) == Other
  {
    BlankTrims(text);
  }

  ghost predicate AllBlank(texts: seq<string>) {
    texts == [] || (Blank(texts[0]) && AllBlank(texts[1..]))
  }

  lemma {:induction false} SplitOfBlank(t: string)
    requires Blank(t)
    ensures AllBlank(SplitAt(t, '\n'))
  {
    if t != "" {
      SplitOfBlank(t[1..]);
      var rest := SplitAt(t[1..], '\n');
      if t[0] == '\n' {
        ConsCons("", rest);
      } else {
        ConsCons([t[0]] + rest[0], rest[1..]);
      }
    } else {
      assert [""][1..] == [];
    }
  }

  lemma {:induction false} SplitAppend(a: string, b: string)
    ensures SplitAt(a + "\n" + b, '\n') == SplitAt(a, '\n') + SplitAt(b, '\n')
  {
    var parts := SplitAt(a, '\n');
    SplitIsClean(a, '\n');
    JoinOfSplit(a, '\n');
    SplitIsClean(b, '\n');
    JoinOfSplit(b, '\n');
    NoneHasAppend(parts, SplitAt(b, '\n'), '\n');
    JoinAppend(parts, SplitAt(b, '\n'), '\n');
    SplitOfJoin(parts + SplitAt(b, '\n'), '\n');
  }

  lemma {:induction false} MarkedAppend(a: seq<string>, b: seq<string>)
    ensures Marked(a + b) == Marked(a) + Marked(b)
  {
    if a == [] {
      assert a + b == b;
    } else {
      AppendSlices(a, b);
      MarkedAppend(a[1..], b);
    }
  }

  /** Blank lines in front do not matter to whether the rest is settled. */
  lemma {:induction false} BlankLinesSettle(blank: seq<string>, lines: seq<Line>, kinds: set<string>)
    requires AllBlank(blank) && Settled(Marked(blank) + lines, kinds)
    ensures Settled(lines, kinds)
    decreases |blank|
  {
    if blank == [] {
      assert Marked(blank) + lines == lines;
    } else {
      var head := Line(blank[0], MarkOf(blank[0]));
      var rest := Marked(blank[1..]) + lines;
      BlankIsOther(blank[0]);
      assert Marked(blank) + lines == [head] + rest;
      ParseSingle(head, rest);
      StripAllCons(Single(head), Parse(rest), kinds);
      assert ([Single(head)] + StripAll(Parse(rest), kinds))[1..] == StripAll(Parse(rest), kinds);
      assert ([Single(head)] + Parse(rest))[1..] == Parse(rest);
      BlankLinesSettle(blank[1..], lines, kinds);
    }
  }

  lemma {:induction false} BlankStartIs(s: string, n: nat)
    requires n <= |s|
    ensures var k := BlankStart(s, n);
            && (k > 0 ==> s[k - 1] == '\n' && Blank(s[..k]))
            && forall m :: k < m <= n && s[m - 1] == '\n' ==> !Blank(s[..m])
    decreases n
  {
    if n == 0 || (s[n - 1] == '\n' && Blank(s[..n])) {
    } else {
      BlankStartIs(s, n - 1);
    }
  }

  lemma {:induction false} BlankTogether(s: string, k: nat, j: nat)
    requires k + j <= |s| && Blank(s[..k]) && Blank(s[k..][..j])
    ensures Blank(s[..k + j])
  {
    var t := s[..k + j];
    forall i | 0 <= i < |t|
      ensures IsSpace(t[i])
    {
      assert i < k ==> s[..k][i] == t[i];
      assert i >= k ==> s[k..][..j][i - k] == t[i];
    }
  }

  /** Nothing is left to remove at the start. */
  lemma {:induction false} NoBlankStartLeft(s: string)
    ensures WithoutBlankStart(WithoutBlankStart(s)) == WithoutBlankStart(s)
  {
    var k := BlankStart(s, |s|);
    var r := s[k..];
    BlankStartIs(s, |s|);
    BlankStartIs(r, |r|);
    var j := BlankStart(r, |r|);
    if j > 0 {
      assert s[k + j - 1] == r[j - 1] == '\n';
      BlankTogether(s, k, j);
    }
    assert r[0..] == r;
  }

  lemma {:induction false} CutAt(s: string, k: nat)
    requires 0 < k <= |s| && s[k - 1] == '\n' && Blank(s[..k])
    ensures s == s[..k - 1] + "\n" + s[k..]
    ensures Blank(s[..k - 1])
  {
    assert forall i :: 0 <= i < k - 1 ==> s[..k - 1][i] == s[..k][i];
  }

  // ---- Main result ----

  /** What is left of settled lines once their blank start is gone is settled too. */
  lemma {:induction false} ResultIsSettled(lines: seq<Line>, kinds: set<string>, r: string)
    requires Honest(lines) && lines != [] && Settled(lines, kinds)
    requires r == WithoutBlankStart(JoinWith(Texts(lines), '\n'))
    ensures Settled(Marked(SplitAt(r, '\n')), kinds)
  {
    var s := JoinWith(Texts(lines), '\n');
    TextsOfHonest(lines);
    SplitOfJoin(Texts(lines), '\n');
    var k := BlankStart(s, |s|);
    BlankStartIs(s, |s|);
    if k == 0 {
      assert r == s;
    } else {
      var front := s[..k - 1];
      CutAt(s, k);
      SplitAppend(front, r);
      SplitOfBlank(front);
      MarkedAppend(SplitAt(front, '\n'), SplitAt(r, '\n'));
      BlankLinesSettle(SplitAt(front, '\n'), Marked(SplitAt(r, '\n')), kinds);
    }
  }

  /** On any text at all, stripping again changes nothing. */
  lemma {:induction false} StripTwice(script: string, kinds: set<string>)
    ensures Strip(Strip(script, kinds), kinds) == Strip(script, kinds)
  {
    var r := Strip(script, kinds);
    if Includes(script, BEGIN) && Includes(r, BEGIN) {
      var parts := SplitAt(script, '\n');
      SplitIsClean(script, '\n');
      MarkedIsHonest(parts);
      var lines := StrippedLines(Marked(parts), kinds);
      StrippedIsHonest(Marked(parts), kinds);
      StrippedIsSettled(Marked(parts), kinds);
      assert r != "";
      assert lines != [];
      ResultIsSettled(lines, kinds, r);
      SettledStays(Marked(SplitAt(r, '\n')), kinds);
      SplitIsClean(r, '\n');
      MarkedIsHonest(SplitAt(r, '\n'));
      JoinOfSplit(r, '\n');
      NoBlankStartLeft(JoinWith(Texts(lines), '\n'));
    }
  }
}
