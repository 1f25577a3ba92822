/** `mock-sse-blocks.ts`: a raw SSE body cut into the blocks that go out on the wire verbatim. */
module SseBlocks {
  import opened Options
  import opened JsText

  datatype Separator = LfLf | CrlfCrlf

  datatype SseBlock = SseBlock(raw: string, separator: Separator, id: Option<string>, dynamicId: bool)

  function SeparatorText(s: Separator): string {
    if s.LfLf? then "\n\n" else "\r\n\r\n"
  }

  predicate IsBreak(c: char) {
    c == '\n' || c == '\r'
  }

  // ---- `/(?:\r\n|\n|\r(?!\n)){2,}/g` ----

  /** Length of the line terminator `s` starts with: one of the three alternatives, never two. */
  function FirstToken(s: string): (n: nat)
    ensures n <= |s| && n <= 2
    ensures n > 0 <==> s != [] && IsBreak(s[0])
  {
    if s == [] then 0
    else if |s| >= 2 && s[0] == '\r' && s[1] == '\n' then 2
    else if IsBreak(s[0]) then 1
    else 0
  }

  /** Length of the longest run of terminators `s` starts with. */
  function RunLength(s: string): (n: nat)
    ensures n <= |s|
    ensures n < |s| ==> !IsBreak(s[n])
  {
    if FirstToken(s) == 0 then 0 else FirstToken(s) + RunLength(s[FirstToken(s)..])
  }

  /** How many terminators that run holds. */
  function RunCount(s: string): (n: nat)
    ensures n <= RunLength(s)
    ensures n > 0 <==> s != [] && IsBreak(s[0])
  {
    if FirstToken(s) == 0 then 0 else 1 + RunCount(s[FirstToken(s)..])
  }

  /** The text in front of the first blank line, or all of `s`. */
  function TextLength(s: string): (n: nat)
    ensures n <= |s|
  {
    if s == [] || RunCount(s) >= 2 then 0 else 1 + TextLength(s[1..])
  }

  lemma {:induction false} TextEnds(s: string)
    ensures TextLength(s) < |s| ==> RunCount(s[TextLength(s)..]) >= 2
  {
    if s == [] || RunCount(s) >= 2 {
    } else {
      TextEnds(s[1..]);
      assert s[1..][TextLength(s[1..])..] == s[TextLength(s)..];
    }
  }

  // ---- `id:` lines ----

  /** `raw.split(/\r\n|\n|\r/)`. */
  function Lines(s: string): (ls: seq<string>)
    ensures |ls| > 0
  {
    if s == [] then [""]
    else if FirstToken(s) > 0 then [""] + Lines(s[FirstToken(s)..])
    else
      var rest := Lines(s[1..]);
      [[s[0]] + rest[0]] + rest[1..]
  }

  /** The value of an `id` line, or none when the line is not one or its value holds NULL. */
  function IdOf(line: string): Option<string> {
    if line != "id" && !StartsWith(line, "id:") then None
    else
      var value := if line == "id" then "" else line[3..];
      var trimmed := if StartsWith(value, " ") then value[1..] else value;
      if '\0' in trimmed then None else Some(trimmed)
  }

  /** The last usable `id` line of the first `n` lines wins. */
  function LastId(lines: seq<string>, n: nat): Option<string>
    requires n <= |lines|
  {
    if n == 0 then None
    else if IdOf(lines[n - 1]).Some? then IdOf(lines[n - 1])
    else LastId(lines, n - 1)
  }

  /** Some usable `id` line among the first `n` is a template. */
  predicate HasTemplateId(lines: seq<string>, n: nat)
    requires n <= |lines|
  {
    n > 0 && ((IdOf(lines[n - 1]).Some? && Includes(IdOf(lines[n - 1]).value, "{{")) || HasTemplateId(lines, n - 1))
  }

  method ReadId(raw: string) returns (id: Option<string>, dynamicId: bool)
    ensures id == LastId(Lines(raw), |Lines(raw)|)
    ensures dynamicId <==> HasTemplateId(Lines(raw), |Lines(raw)|)
  {
    id, dynamicId := None, false;
    var lines := Lines(raw);
    for i := 0 to |lines|
      invariant id == LastId(lines, i)
      invariant dynamicId <==> HasTemplateId(lines, i)
    {
      var line := lines[i];
      if line != "id" && !StartsWith(line, "id:") {
        continue;
      }
      var value := if line == "id" then "" else line[3..];
      if StartsWith(value, " ") {
        value := value[1..];
      }
      if '\0' in value {
        continue;
      }
      if Includes(value, "{{") {
        dynamicId := true;
      }
      id := Some(value);
    }
  }

  /** A reader's last event id after one block, line by line as section 9.2.6 of the HTML Standard
      says: field name up to the first colon, one leading space of the value dropped, an `id` value
      holding NULL ignored. */
  function ReaderLine(line: string, buffer: string): string {
    var colon := ColonAt(line);
    var field := line[..colon];
    var after := if colon < |line| then line[colon + 1..] else "";
    var value := if StartsWith(after, " ") then after[1..] else after;
    if field == "id" && '\0' !in value then value else buffer
  }

  function ColonAt(line: string): (n: nat)
    ensures n <= |line|
    ensures n < |line| ==> line[n] == ':'
    ensures forall i :: 0 <= i < n ==> line[i] != ':'
  {
    if line == [] || line[0] == ':' then 0 else 1 + ColonAt(line[1..])
  }

  function ReaderId(lines: seq<string>, n: nat, buffer: string): string
    requires n <= |lines|
  {
    if n == 0 then buffer else ReaderLine(lines[n - 1], ReaderId(lines, n - 1, buffer))
  }

  /** A field is called `id` only on a line `id` or `id:...`. */
  lemma NotIdField(line: string, colon: nat)
    requires colon == ColonAt(line) && line != "id" && !StartsWith(line, "id:")
    ensures line[..colon] != "id"
  {
    if colon == 2 && |line| > 2 {
      assert line == line[..2] + [':'] + line[3..];
      assert "id:" == "id" + [':'];
    }
  }

  lemma ReaderLineAgrees(line: string, buffer: string)
    ensures ReaderLine(line, buffer) == if IdOf(line).Some? then IdOf(line).value else buffer
  {
    var colon := ColonAt(line);
    if StartsWith(line, "id:") {
      assert line[0] == 'i' && line[1] == 'd' && line[2] == ':';
      assert colon == 2;
      assert line[..2] == "id";
    } else if line == "id" {
      assert colon == 2;
    } else {
      NotIdField(line, colon);
    }
  }

  /** The id the mock keeps for a block is the one a standard reader ends the block with. */
  lemma {:induction false} ReaderAgrees(lines: seq<string>, n: nat, buffer: string)
    requires n <= |lines|
    ensures ReaderId(lines, n, buffer) == if LastId(lines, n).Some? then LastId(lines, n).value else buffer
  {
    if n == 0 {
    } else {
      ReaderAgrees(lines, n - 1, buffer);
      ReaderLineAgrees(lines[n - 1], ReaderId(lines, n - 1, buffer));
    }
  }

  // ---- The byte order mark ----

  const MARK := '\U{FEFF}'

  predicate IsMarked(raw: string) {
    raw != "" && raw[0] == MARK
  }

  /** A reader drops one byte order mark at the start of the stream, so from its first block only. */
  function Unmarked(raw: string): string {
    if IsMarked(raw) then raw[1..] else raw
  }

  lemma {:induction false} LastIdBehindFirst(marked: seq<string>, lines: seq<string>, n: nat)
    requires 0 < n <= |lines| == |marked| && IdOf(marked[0]) == None
    requires forall i :: 0 < i < |lines| ==> marked[i] == lines[i]
    ensures LastId(lines, n) == if LastId(marked, n).Some? then LastId(marked, n) else IdOf(lines[0])
  {
    if n == 1 {
      assert LastId(lines, 0) == None && LastId(marked, 0) == None;
    } else {
      LastIdBehindFirst(marked, lines, n - 1);
    }
  }

  lemma {:induction false} NoneMeansNone(lines: seq<string>, n: nat)
    requires 0 < n <= |lines| && LastId(lines, n) == None
    ensures IdOf(lines[0]) == None
  {
    if n == 1 {
    } else {
      NoneMeansNone(lines, n - 1);
    }
  }

  /**
   * The mock does not drop the mark. For the first block it still keeps the id a reader ends with, unless the line
   * behind the mark is the only one that sets an id.
   */
  lemma {:induction false} MarkedBlockAgreesIff(raw: string)
    ensures var kept, held := Lines(raw), Lines(Unmarked(raw));
            LastId(kept, |kept|) == LastId(held, |held|) <==> LastId(kept, |kept|).Some? || IdOf(held[0]).None?
  {
    var kept, held := Lines(raw), Lines(Unmarked(raw));
    if IsMarked(raw) {
      assert kept == [[MARK] + held[0]] + held[1..];
      assert kept[0][0] == MARK && "id"[0] == 'i' && "id:"[0] == 'i';
      LastIdBehindFirst(kept, held, |held|);
    } else if LastId(kept, |kept|).None? {
      NoneMeansNone(kept, |kept|);
    }
  }

  // ---- Splitting ----

  /** `text.replace(/(?:\r\n|\n|\r)+$/, '')`. */
  function WithoutTrailingBreaks(s: string): (r: string)
    ensures r <= s
    ensures r != [] ==> !IsBreak(r[|r| - 1])
  {
    if s != [] && IsBreak(s[|s| - 1]) then WithoutTrailingBreaks(s[..|s| - 1]) else s
  }

  function BlockOf(raw: string, separator: Separator): SseBlock {
    var lines := Lines(raw);
    SseBlock(raw, separator, LastId(lines, |lines|), HasTemplateId(lines, |lines|))
  }

  /** `push`: nothing for a blank text. */
  function Pushed(text: string, separator: Separator): seq<SseBlock> {
    var raw := WithoutTrailingBreaks(text);
    if Trim(raw) == "" then [] else [BlockOf(raw, separator)]
  }

  function SeparatorOf(sep: string): Separator {
    if StartsWith(sep, "\r\n") then CrlfCrlf else LfLf
  }

  /** The blocks of `s`; `last` is the separator of a final block that has none of its own. */
  function Blocks(s: string, last: Separator): seq<SseBlock>
    decreases |s|
  {
    var n := TextLength(s);
    var rest := s[n..];
    if rest == [] then Pushed(s, last)
    else
      TextEnds(s);
      Pushed(s[..n], SeparatorOf(rest[..RunLength(rest)])) + Blocks(rest[RunLength(rest)..], last)
  }

  function Split(body: string): seq<SseBlock> {
    Blocks(body, if Includes(body, "\r\n") then CrlfCrlf else LfLf)
  }

  method Push(out: seq<SseBlock>, text: string, sep: Option<string>, bodyCrlf: bool) returns (out': seq<SseBlock>)
    ensures out' == out + Pushed(text, if sep.Some? then SeparatorOf(sep.value) else if bodyCrlf then CrlfCrlf else LfLf)
  {
    var raw := WithoutTrailingBreaks(text);
    if Trim(raw) == "" {
      return out;
    }
    var crlf := if sep.Some? then StartsWith(sep.value, "\r\n") else bodyCrlf;
    var id, dynamicId := ReadId(raw);
    out' := out + [SseBlock(raw, if crlf then CrlfCrlf else LfLf, id, dynamicId)];
  }

  lemma SliceOfSlice(body: string, last: nat, at: nat, end: nat)
    requires last <= at <= end <= |body|
    ensures body[last..][..at - last] == body[last..at]
    ensures body[last..][at - last..] == body[at..]
    ensures body[at..][..end - at] == body[at..end]
    ensures body[at..][end - at..] == body[end..]
  {
  }

  lemma AtLeastTwo(s: string)
    requires RunCount(s) >= 2
    ensures RunLength(s) >= 2
  {
  }

  lemma Append3(out: seq<SseBlock>, a: seq<SseBlock>, b: seq<SseBlock>)
    ensures out + (a + b) == out + a + b
  {
  }

  lemma BlocksUnfold(s: string, n: nat, rest: string, text: string, r: nat, sep: string, tail: string, final: Separator)
    requires n == TextLength(s) < |s| && rest == s[n..] && text == s[..n]
    requires r == RunLength(rest) && sep == rest[..r] && tail == rest[r..]
    ensures Blocks(s, final) == Pushed(text, SeparatorOf(sep)) + Blocks(tail, final)
  {
  }

  /** One match of the separator, at `at`, when the last one ended at `last`. */
  lemma MatchStep(body: string, last: nat, at: nat, end: nat, final: Separator)
    requires last <= at < |body| && at == last + TextLength(body[last..]) && end == at + RunLength(body[at..])
    ensures end <= |body|
    ensures Blocks(body[last..], final) == Pushed(body[last..at], SeparatorOf(body[at..end])) + Blocks(body[end..], final)
  {
    var s, rest, text, sep, tail := body[last..], body[at..], body[last..at], body[at..end], body[end..];
    assert rest == s[at - last..] && text == s[..at - last] && sep == rest[..end - at] && tail == rest[end - at..] by {
      SliceOfSlice(body, last, at, end);
    }
    BlocksUnfold(s, at - last, rest, text, end - at, sep, tail, final);
  }

  lemma MatchNotEmpty(body: string, last: nat, at: nat)
    requires last <= at < |body| && at == last + TextLength(body[last..])
    ensures RunLength(body[at..]) >= 2
  {
    TextEnds(body[last..]);
    SliceOfSlice(body, last, at, at);
    AtLeastTwo(body[at..]);
  }

  lemma LastStep(body: string, last: nat, final: Separator)
    requires last <= |body| && last + TextLength(body[last..]) == |body|
    ensures Blocks(body[last..], final) == Pushed(body[last..], final)
  {
    assert body[last..][TextLength(body[last..])..] == [];
  }

  method SplitSseBlocks(body: string) returns (out: seq<SseBlock>)
    ensures out == Split(body)
  {
    out := [];
    if body == "" {
      return;
    }
    var bodyCrlf := Includes(body, "\r\n");
    ghost var final := if bodyCrlf then CrlfCrlf else LfLf;
    assert body[0..] == body;
    var last, at := 0, TextLength(body);
    while at < |body|
      invariant 0 <= last <= at <= |body| && at == last + TextLength(body[last..])
      invariant out + Blocks(body[last..], final) == Split(body)
      decreases |body| - last
    {
      var end := at + RunLength(body[at..]);
      MatchStep(body, last, at, end, final);
      MatchNotEmpty(body, last, at);
      Append3(out, Pushed(body[last..at], SeparatorOf(body[at..end])), Blocks(body[end..], final));
      out := Push(out, body[last..at], Some(body[at..end]), bodyCrlf);
      last := end;
      at := last + TextLength(body[last..]);
    }
    LastStep(body, last, final);
    out := Push(out, body[last..], None, bodyCrlf);
  }
}
