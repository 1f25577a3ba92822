/** Writing every block verbatim with its separator and splitting again changes nothing. */
module SseFixpoint {
  import opened Options
  import opened JsText
  import opened SseBlocks

  /** What goes out on the wire. */
  function Wire(blocks: seq<SseBlock>): string {
    if blocks == [] then []
    else blocks[0].raw + (SeparatorText(blocks[0].separator) + Wire(blocks[1..]))
  }

  /** No blank line anywhere in `t`. */
  predicate NoBlankLine(t: string) {
    RunCount(t) < 2 && (t == [] || NoBlankLine(t[1..]))
  }

  predicate StartsPlain(t: string) {
    t == [] || !IsBreak(t[0])
  }

  predicate EndsPlain(t: string) {
    t == [] || !IsBreak(t[|t| - 1])
  }

  /** A block as a splitter should give it: not blank, no blank line inside, no break behind it. */
  predicate Tight(b: SseBlock) {
    Trim(b.raw) != "" && NoBlankLine(b.raw) && EndsPlain(b.raw) && b == BlockOf(b.raw, b.separator)
  }

  ghost predicate WellFormed(blocks: seq<SseBlock>) {
    && (forall i :: 0 <= i < |blocks| ==> Tight(blocks[i]))
    && (forall i :: 0 < i < |blocks| ==> StartsPlain(blocks[i].raw))
  }

  // ---- Any well-formed list survives the wire ----

  lemma {:induction false} RunStopsInside(u: string, x: string)
    requires u != [] && EndsPlain(u)
    ensures RunCount(u + x) == RunCount(u)
  {
    var k := FirstToken(u);
    assert FirstToken(u + x) == k;
    if k == 0 {
    } else {
      assert k < |u|;
      assert (u + x)[k..] == u[k..] + x;
      RunStopsInside(u[k..], x);
    }
  }

  lemma {:induction false} TextOf(r: string, x: string)
    requires NoBlankLine(r) && EndsPlain(r) && RunCount(x) >= 2
    ensures TextLength(r + x) == |r|
  {
    if r == [] {
      assert r + x == x;
    } else {
      RunStopsInside(r, x);
      assert (r + x)[1..] == r[1..] + x;
      TextOf(r[1..], x);
    }
  }

  lemma SeparatorRun(sep: Separator, tail: string)
    requires StartsPlain(tail)
    ensures var x := SeparatorText(sep) + tail;
            && RunLength(x) == |SeparatorText(sep)| && RunCount(x) >= 2
            && x[..RunLength(x)] == SeparatorText(sep) && x[RunLength(x)..] == tail
    ensures SeparatorOf(SeparatorText(sep)) == sep
  {
    var x := SeparatorText(sep) + tail;
    if sep.LfLf? {
      assert x[1..] == "\n" + tail && x[1..][1..] == tail;
      assert FirstToken(tail) == 0;
    } else {
      var y := x[2..];
      assert y == "\r\n" + tail && y[2..] == tail;
      assert FirstToken(x) == 2 && FirstToken(y) == 2 && FirstToken(tail) == 0;
      assert RunLength(y) == 2 && RunCount(y) == 1;
    }
  }

  lemma TightPushed(b: SseBlock)
    requires Tight(b)
    ensures Pushed(b.raw, b.separator) == [b]
  {
  }

  lemma WireStartsPlain(blocks: seq<SseBlock>)
    requires forall i :: 0 <= i < |blocks| ==> Tight(blocks[i]) && StartsPlain(blocks[i].raw)
    ensures StartsPlain(Wire(blocks))
  {
    if blocks != [] {
      assert blocks[0].raw != "";
    }
  }

  /** One written block in front of a wire text is cut off again, whole. */
  lemma BlockComesBack(b: SseBlock, tail: string, last: Separator)
    requires Tight(b) && StartsPlain(tail)
    ensures Blocks(b.raw + (SeparatorText(b.separator) + tail), last) == [b] + Blocks(tail, last)
  {
    var x := SeparatorText(b.separator) + tail;
    var s := b.raw + x;
    SeparatorRun(b.separator, tail);
    TextOf(b.raw, x);
    assert s[|b.raw|..] == x && s[..|b.raw|] == b.raw;
    BlocksUnfold(s, |b.raw|, x, b.raw, RunLength(x), SeparatorText(b.separator), tail, last);
    TightPushed(b);
  }

  /** Splitting is a left inverse of writing, on every well-formed list. */
  lemma {:induction false} SplitOfWire(blocks: seq<SseBlock>, last: Separator)
    requires WellFormed(blocks)
    ensures Blocks(Wire(blocks), last) == blocks
  {
    if blocks == [] {
      assert Trim("") == "";
    } else {
      WireStartsPlain(blocks[1..]);
      BlockComesBack(blocks[0], Wire(blocks[1..]), last);
      SplitOfWire(blocks[1..], last);
    }
  }

  // ---- Splitting gives well-formed lists ----

  lemma {:induction false} PrefixCount(s: string, n: nat)
    requires n <= |s|
    ensures RunCount(s[..n]) <= RunCount(s)
    decreases |s|
  {
    var k := FirstToken(s);
    if n == 0 || k == 0 {
    } else {
      if k <= n {
        assert FirstToken(s[..n]) == k;
        assert s[..n][k..] == s[k..][..n - k];
        PrefixCount(s[k..], n - k);
      } else {
        assert n == 1 && s[..n][1..] == [];
        assert RunCount(s[..n][1..]) == 0;
      }
    }
  }

  lemma {:induction false} PrefixQuiet(s: string, n: nat)
    requires n <= |s| && NoBlankLine(s)
    ensures NoBlankLine(s[..n])
  {
    PrefixCount(s, n);
    if n == 0 {
    } else {
      assert s[..n][1..] == s[1..][..n - 1];
      PrefixQuiet(s[1..], n - 1);
    }
  }

  lemma {:induction false} TextQuiet(s: string)
    ensures NoBlankLine(s[..TextLength(s)])
  {
    var n := TextLength(s);
    if n > 0 {
      PrefixCount(s, n);
      assert s[..n][1..] == s[1..][..n - 1];
      TextQuiet(s[1..]);
    } else {
      assert s[..n] == [];
    }
  }

  lemma PushedTight(text: string, sep: Separator)
    requires NoBlankLine(text)
    ensures forall i :: 0 <= i < |Pushed(text, sep)| ==> Tight(Pushed(text, sep)[i])
    ensures StartsPlain(text) ==> forall i :: 0 <= i < |Pushed(text, sep)| ==> StartsPlain(Pushed(text, sep)[i].raw)
  {
    var raw := WithoutTrailingBreaks(text);
    assert raw == text[..|raw|];
    PrefixQuiet(text, |raw|);
  }

  lemma JoinWellFormed(a: seq<SseBlock>, b: seq<SseBlock>)
    requires |a| <= 1 && forall i :: 0 <= i < |a| ==> Tight(a[i])
    requires forall i :: 0 <= i < |b| ==> Tight(b[i]) && StartsPlain(b[i].raw)
    ensures WellFormed(a + b)
    ensures (forall i :: 0 <= i < |a| ==> StartsPlain(a[i].raw)) ==> forall i :: 0 <= i < |a + b| ==> StartsPlain((a + b)[i].raw)
  {
  }

  lemma AfterRunStartsPlain(s: string)
    ensures StartsPlain(s[RunLength(s)..])
  {
  }

  lemma PrefixStartsPlain(s: string, n: nat)
    requires n <= |s| && StartsPlain(s)
    ensures StartsPlain(s[..n])
  {
  }

  /** Every block is tight, and only a block that opens the body can start with a break. */
  lemma {:induction false} BlocksTight(s: string, last: Separator)
    ensures WellFormed(Blocks(s, last))
    ensures StartsPlain(s) ==> forall i :: 0 <= i < |Blocks(s, last)| ==> StartsPlain(Blocks(s, last)[i].raw)
    decreases |s|
  {
    var n := TextLength(s);
    TextQuiet(s);
    if n == |s| {
      assert s[..n] == s && s[n..] == [];
      PushedTight(s, last);
    } else {
      var rest := s[n..];
      TextEnds(s);
      AtLeastTwo(rest);
      var r := RunLength(rest);
      BlocksUnfold(s, n, rest, s[..n], r, rest[..r], rest[r..], last);
      PushedTight(s[..n], SeparatorOf(rest[..r]));
      AfterRunStartsPlain(rest);
      BlocksTight(rest[r..], last);
      if StartsPlain(s) {
        PrefixStartsPlain(s, n);
      }
      JoinWellFormed(Pushed(s[..n], SeparatorOf(rest[..r])), Blocks(rest[r..], last));
    }
  }

  /** Splitting is a fixpoint: the written form of a split body splits into the identical list, text,
      separator and id of every block, whatever mix of line endings the body had. */
  lemma Fixpoint(body: string)
    ensures WellFormed(Split(body))
    ensures Split(Wire(Split(body))) == Split(body)
  {
    BlocksTight(body, if Includes(body, "\r\n") then CrlfCrlf else LfLf);
    var wire := Wire(Split(body));
    SplitOfWire(Split(body), if Includes(wire, "\r\n") then CrlfCrlf else LfLf);
  }
}
