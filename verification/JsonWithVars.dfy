/** Bare `{{placeholders}}` in JSON text, swapped for string tokens and put back: `json-with-vars.ts`. */
module JsonWithVars {
  import opened Decimals
  import opened JsText
  import opened Options
  import opened Sequences

  const MARK := "__TNZ_VAR_"

  /** The text a scan of JSON is cut into: single characters, and whole bare placeholders. */
  datatype Piece = Chr(c: char) | Var(v: string)

  /** `text.indexOf('}}', from)`; the text's length when there is none. */
  function CloseAt(text: string, from: nat): (e: nat)
    ensures e < |text| ==> from <= e && e + 2 <= |text| && text[e] == '}' && text[e + 1] == '}'
    decreases |text| - from
  {
    if from + 2 > |text| then |text|
    else if text[from] == '}' && text[from + 1] == '}' then from
    else CloseAt(text, from + 1)
  }

  predicate OpensVar(text: string, i: nat) {
    i + 1 < |text| && text[i] == '{' && text[i + 1] == '{' && CloseAt(text, i + 2) < |text|
  }

  /** The pieces from `i` on; `inString` says on which side of a quote `i` is. */
  function Pieces(text: string, i: nat, inString: bool): seq<Piece>
    decreases |text| - i
  {
    if i >= |text| then []
    else if inString && text[i] == '\\' && i + 1 < |text| then
      [Chr(text[i])] + ([Chr(text[i + 1])] + Pieces(text, i + 2, true))
    else if inString then [Chr(text[i])] + Pieces(text, i + 1, text[i] != '"')
    else if text[i] == '"' then [Chr(text[i])] + Pieces(text, i + 1, true)
    else if OpensVar(text, i) then
      var e := CloseAt(text, i + 2);
      [Var(text[i..e + 2])] + Pieces(text, e + 2, false)
    else [Chr(text[i])] + Pieces(text, i + 1, false)
  }

  function VarsOf(pieces: seq<Piece>): seq<string> {
    if pieces == [] then []
    else if pieces[0].Var? then [pieces[0].v] + VarsOf(pieces[1..])
    else VarsOf(pieces[1..])
  }

  function Token(n: nat): string {
    "\"" + MARK + Decimal(n) + "__\""
  }

  /** The pieces with the placeholders swapped, numbered from `n` on. */
  function Swapped(pieces: seq<Piece>, n: nat): string {
    if pieces == [] then ""
    else if pieces[0].Var? then Token(n) + Swapped(pieces[1..], n + 1)
    else [pieces[0].c] + Swapped(pieces[1..], n)
  }

  function PiecesOf(text: string): seq<Piece> {
    Pieces(text, 0, false)
  }

  // ---- The scan ----

  /** What the scan has written and collected, together with what the rest will give, is the whole. */
  ghost predicate OnTheWay(all: seq<Piece>, out: string, vars: seq<string>, rest: seq<Piece>) {
    out + Swapped(rest, |vars|) == Swapped(all, 0) && vars + VarsOf(rest) == VarsOf(all)
  }

  lemma {:induction false} OverChr(all: seq<Piece>, out: string, vars: seq<string>, c: char, rest: seq<Piece>,
                                   pieces: seq<Piece>)
    requires OnTheWay(all, out, vars, pieces) && pieces == [Chr(c)] + rest
    ensures OnTheWay(all, out + [c], vars, rest)
  {
    assert pieces[1..] == rest;
    Regrouped(out, [c], Swapped(rest, |vars|));
  }

  lemma {:induction false} OverVar(all: seq<Piece>, out: string, vars: seq<string>, v: string, rest: seq<Piece>,
                                   pieces: seq<Piece>)
    requires OnTheWay(all, out, vars, pieces) && pieces == [Var(v)] + rest
    ensures OnTheWay(all, out + Token(|vars|), vars + [v], rest)
  {
    assert pieces[1..] == rest;
    Regrouped(out, Token(|vars|), Swapped(rest, |vars| + 1));
    Regrouped(vars, [v], VarsOf(rest));
  }

  lemma {:induction false} AtEscape(text: string, i: nat)
    requires i + 1 < |text| && text[i] == '\\'
    ensures Pieces(text, i, true) == [Chr(text[i])] + ([Chr(text[i + 1])] + Pieces(text, i + 2, true))
  {
  }

  lemma {:induction false} AtChr(text: string, i: nat, inString: bool)
    requires i < |text|
    requires if inString then text[i] != '\\' || i + 1 == |text| else text[i] == '"' || !OpensVar(text, i)
    ensures Pieces(text, i, inString) == [Chr(text[i])] + Pieces(text, i + 1, (text[i] == '"') != inString)
  {
  }

  lemma {:induction false} AtVar(text: string, i: nat)
    requires OpensVar(text, i)
    ensures Pieces(text, i, false) ==
            [Var(text[i..CloseAt(text, i + 2) + 2])] + Pieces(text, CloseAt(text, i + 2) + 2, false)
  {
  }

  method SwapVars(text: string) returns (out: string, vars: seq<string>)
    ensures out == Swapped(PiecesOf(text), 0)
    ensures vars == VarsOf(PiecesOf(text))
  {
    ghost var all := PiecesOf(text);
    out := "";
    vars := [];
    var inString := false;
    var i := 0;
    Departure(all);
    while i < |text|
      invariant OnTheWay(all, out, vars, Pieces(text, i, inString))
      decreases |text| - i
    {
      var ch := text[i];
      if inString && ch == '\\' && i + 1 < |text| {
        AtEscape(text, i);
        var rest := Pieces(text, i + 2, true);
        OverChr(all, out, vars, ch, [Chr(text[i + 1])] + rest, Pieces(text, i, true));
        OverChr(all, out + [ch], vars, text[i + 1], rest, [Chr(text[i + 1])] + rest);
        out := out + [ch] + [text[i + 1]];
        i := i + 2;
      } else if !inString && OpensVar(text, i) {
        var end := CloseAt(text, i + 2);
        AtVar(text, i);
        OverVar(all, out, vars, text[i..end + 2], Pieces(text, end + 2, false), Pieces(text, i, false));
        out := out + Token(|vars|);
        vars := vars + [text[i..end + 2]];
        i := end + 2;
      } else {
        AtChr(text, i, inString);
        OverChr(all, out, vars, ch, Pieces(text, i + 1, (ch == '"') != inString), Pieces(text, i, inString));
        out := out + [ch];
        inString := (ch == '"') != inString;
        i := i + 1;
      }
    }
    Arrival(all, out, vars);
  }

  lemma {:induction false} Departure(all: seq<Piece>)
    ensures OnTheWay(all, "", [], all)
  {
    assert "" + Swapped(all, 0) == Swapped(all, 0) && [] + VarsOf(all) == VarsOf(all);
  }

  lemma {:induction false} Arrival(all: seq<Piece>, out: string, vars: seq<string>)
    requires OnTheWay(all, out, vars, [])
    ensures out == Swapped(all, 0) && vars == VarsOf(all)
  {
    assert out + "" == out && vars + [] == vars;
  }

  // ---- Restoring ----

  /** How many digits `s[k..]` starts with. */
  function DigitRun(s: string, k: nat): (d: nat)
    requires k <= |s|
    ensures k + d <= |s|
    ensures AllDigits(s[k..k + d])
    decreases |s| - k
  {
    if k == |s| || !IsDigit(s[k]) then 0
    else
      var d := DigitRun(s, k + 1);
      assert s[k..k + 1 + d] == [s[k]] + s[k + 1..k + 1 + d];
      1 + d
  }

  datatype Match = Match(number: nat, length: nat)

  /** `/"__TNZ_VAR_(\d+)__"/` at the start of `s`. */
  function MatchAt(s: string): (m: Option<Match>)
    ensures m.Some? ==> 0 < m.value.length <= |s|
  {
    var head := "\"" + MARK;
    if !StartsWith(s, head) then None
    else
      var d := DigitRun(s, |head|);
      if d > 0 && StartsWith(s[|head| + d..], "__\"")
      then Some(Match(Value(s[|head|..|head| + d]), |head| + d + 3))
      else None
  }

  /** `json.replace(/.../g, (m, n) => vars[Number(n)] ?? m)`. */
  function Restore(json: string, vars: seq<string>): string
    decreases |json|
  {
    if json == "" then ""
    else
      var m := MatchAt(json);
      if m.None? then [json[0]] + Restore(json[1..], vars)
      else (if m.value.number < |vars| then vars[m.value.number] else json[..m.value.length])
           + Restore(json[m.value.length..], vars)
  }

  // ---- The text is all there ----

  function TextOf(pieces: seq<Piece>): string {
    if pieces == [] then ""
    else (if pieces[0].Var? then pieces[0].v else [pieces[0].c]) + TextOf(pieces[1..])
  }

  lemma {:induction false} TextOfCons(p: Piece, rest: seq<Piece>)
    ensures TextOf([p] + rest) == (if p.Var? then p.v else [p.c]) + TextOf(rest)
  {
    assert ([p] + rest)[1..] == rest;
  }

  lemma {:induction false} OneAndRest(text: string, i: nat)
    requires i < |text|
    ensures text[i..] == [text[i]] + text[i + 1..]
  {
  }

  lemma {:induction false} VarAndRest(text: string, i: nat, e: nat)
    requires i <= e <= |text|
    ensures text[i..] == text[i..e] + text[e..]
  {
  }

  /** The scan loses nothing and adds nothing. */
  lemma {:induction false} PiecesAreText(text: string, i: nat, inString: bool)
    requires i <= |text|
    ensures TextOf(Pieces(text, i, inString)) == text[i..]
    decreases |text| - i
  {
    if i == |text| {
      assert text[i..] == "";
    } else if inString && text[i] == '\\' && i + 1 < |text| {
      var rest := Pieces(text, i + 2, true);
      PiecesAreText(text, i + 2, true);
      AtEscape(text, i);
      TextOfCons(Chr(text[i]), [Chr(text[i + 1])] + rest);
      TextOfCons(Chr(text[i + 1]), rest);
      OneAndRest(text, i);
      OneAndRest(text, i + 1);
    } else if !inString && OpensVar(text, i) && text[i] != '"' {
      var e := CloseAt(text, i + 2) + 2;
      PiecesAreText(text, e, false);
      AtVar(text, i);
      TextOfCons(Var(text[i..e]), Pieces(text, e, false));
      VarAndRest(text, i, e);
    } else {
      PiecesAreText(text, i + 1, (text[i] == '"') != inString);
      AtChr(text, i, inString);
      TextOfCons(Chr(text[i]), Pieces(text, i + 1, (text[i] == '"') != inString));
      OneAndRest(text, i);
    }
  }

  // ---- Where the placeholders are ----

  predicate CloseHere(text: string, q: nat) {
    q + 1 < |text| && text[q] == '}' && text[q + 1] == '}'
  }

  /** `{{` with a `}}` somewhere behind it. */
  ghost predicate OpenHere(text: string, i: nat) {
    i + 1 < |text| && text[i] == '{' && text[i + 1] == '{' && exists q: nat :: q >= i + 2 && CloseHere(text, q)
  }

  /** The stretch of the text from `{{` up to and with the first `}}` behind it. */
  ghost predicate Placeholder(text: string, i: nat, v: string) {
    && i + |v| <= |text| && v == text[i..i + |v|] && |v| >= 4
    && v[0] == '{' && v[1] == '{' && v[|v| - 2] == '}' && v[|v| - 1] == '}'
    && forall q: nat :: i + 2 <= q < i + |v| - 2 ==> !CloseHere(text, q)
  }

  /** Outside of a JSON string, inside of one, or behind a backslash inside. */
  datatype Side = Outside | Inside | Escaped

  function Behind(side: Side, c: char): Side {
    match side
    case Outside => if c == '"' then Inside else Outside
    case Inside => if c == '\\' then Escaped else if c == '"' then Outside else Inside
    case Escaped => Inside
  }

  /** The text from `i` on, piece by piece: outside of strings every placeholder is one piece, and nothing else is. */
  ghost predicate Reads(text: string, i: nat, side: Side, pieces: seq<Piece>)
    decreases |pieces|
  {
    if pieces == [] then i == |text|
    else match pieces[0]
      case Chr(c) => i < |text| && c == text[i] && (side == Outside ==> !OpenHere(text, i)) && Reads(text, i + 1, Behind(side, c), pieces[1..])
      case Var(v) => side == Outside && Placeholder(text, i, v) && Reads(text, i + |v|, Outside, pieces[1..])
  }

  lemma {:induction false} ClosesFirst(text: string, from: nat)
    ensures forall q: nat :: from <= q < CloseAt(text, from) ==> !CloseHere(text, q)
    decreases |text| - from
  {
    if from + 2 > |text| || (text[from] == '}' && text[from + 1] == '}') {
    } else {
      ClosesFirst(text, from + 1);
    }
  }

  lemma {:induction false} OpensIff(text: string, i: nat)
    ensures OpensVar(text, i) <==> OpenHere(text, i)
  {
    var e := CloseAt(text, i + 2);
    ClosesFirst(text, i + 2);
    if OpensVar(text, i) {
      assert CloseHere(text, e);
    }
  }

  lemma {:induction false} ReadsMore(text: string, i: nat, side: Side, piece: Piece, rest: seq<Piece>)
    requires match piece
             case Chr(c) => i < |text| && c == text[i] && (side == Outside ==> !OpenHere(text, i)) && Reads(text, i + 1, Behind(side, c), rest)
             case Var(v) => side == Outside && Placeholder(text, i, v) && Reads(text, i + |v|, Outside, rest)
    ensures Reads(text, i, side, [piece] + rest)
  {
    assert ([piece] + rest)[1..] == rest;
  }

  lemma {:induction false} PiecesRead(text: string, i: nat, inString: bool)
    requires i <= |text|
    ensures Reads(text, i, if inString then Inside else Outside, Pieces(text, i, inString))
    decreases |text| - i
  {
    if i == |text| {
    } else if inString && text[i] == '\\' && i + 1 < |text| {
      PiecesRead(text, i + 2, true);
      var rest := Pieces(text, i + 2, true);
      AtEscape(text, i);
      ReadsMore(text, i + 1, Escaped, Chr(text[i + 1]), rest);
      ReadsMore(text, i, Inside, Chr(text[i]), [Chr(text[i + 1])] + rest);
    } else if !inString && OpensVar(text, i) && text[i] != '"' {
      var e := CloseAt(text, i + 2) + 2;
      PiecesRead(text, e, false);
      ClosesFirst(text, i + 2);
      AtVar(text, i);
      ReadsMore(text, i, Outside, Var(text[i..e]), Pieces(text, e, false));
    } else if inString && text[i] == '\\' {
      assert Pieces(text, i, true) == [Chr(text[i])] + [];
      ReadsMore(text, i, Inside, Chr(text[i]), []);
    } else {
      PiecesRead(text, i + 1, (text[i] == '"') != inString);
      OpensIff(text, i);
      AtChr(text, i, inString);
      ReadsMore(text, i, if inString then Inside else Outside, Chr(text[i]), Pieces(text, i + 1, (text[i] == '"') != inString));
    }
  }

  /** Outside of strings exactly the placeholders are collected, each up to its first `}}`. */
  lemma {:induction false} ScanFindsPlaceholders(text: string)
    ensures Reads(text, 0, Outside, PiecesOf(text))
  {
    PiecesRead(text, 0, false);
  }

  /** What a placeholder is replaced by. */
  lemma {:induction false} TokenText()
    ensures Token(0) == "\"__TNZ_VAR_0__\"" && Token(12) == "\"__TNZ_VAR_12__\""
  {
    assert Decimal(12 / 10) == "1";
  }

  // ---- Strings are not touched ----

  /** The inside of a JSON string literal: no quote and no last backslash that is not escaped. */
  predicate StringBody(s: string) {
    s == "" ||
    (if s[0] == '\\' then |s| > 1 && StringBody(s[2..]) else s[0] != '"' && StringBody(s[1..]))
  }

  function Chars(s: string): seq<Piece> {
    if s == "" then [] else [Chr(s[0])] + Chars(s[1..])
  }

  lemma {:induction false} CharsOfMore(c: char, rest: string)
    ensures Chars([c] + rest) == [Chr(c)] + Chars(rest)
  {
    assert ([c] + rest)[1..] == rest;
  }

  lemma {:induction false} SliceOfMore(text: string, i: nat, j: nat)
    requires i < j <= |text|
    ensures text[i..j] == [text[i]] + text[i + 1..j]
  {
  }

  /** One character of the literal, once the rest of it is through. */
  lemma {:induction false} VerbatimStep(text: string, i: nat, j: nat, pieces: seq<Piece>, behind: seq<Piece>)
    requires i < j <= |text| && pieces == [Chr(text[i])] + (Chars(text[i + 1..j]) + behind)
    ensures pieces == Chars(text[i..j]) + behind
  {
    SliceOfMore(text, i, j);
    CharsOfMore(text[i], text[i + 1..j]);
    Regrouped([Chr(text[i])], Chars(text[i + 1..j]), behind);
  }

  lemma {:induction false} BodyIsVerbatim(text: string, i: nat, j: nat)
    requires i <= j < |text| && StringBody(text[i..j]) && text[j] == '"'
    ensures Pieces(text, i, true) == Chars(text[i..j + 1]) + Pieces(text, j + 1, false)
    decreases j - i
  {
    var behind := Pieces(text, j + 1, false);
    if i == j {
      AtChr(text, i, true);
      assert Chars(text[i + 1..j + 1]) + behind == behind;
    } else if text[i] == '\\' {
      SliceOfMore(text, i, j);
      assert text[i..j][2..] == text[i + 2..j];
      BodyIsVerbatim(text, i + 2, j);
      AtEscape(text, i);
      VerbatimStep(text, i + 1, j + 1, [Chr(text[i + 1])] + Pieces(text, i + 2, true), behind);
    } else {
      SliceOfMore(text, i, j);
      BodyIsVerbatim(text, i + 1, j);
      AtChr(text, i, true);
    }
    BodyStep(text, i, j);
  }

  lemma {:induction false} BodyStep(text: string, i: nat, j: nat)
    requires i <= j < |text| && Pieces(text, i, true) == [Chr(text[i])] + (Chars(text[i + 1..j + 1]) + Pieces(text, j + 1, false))
    ensures Pieces(text, i, true) == Chars(text[i..j + 1]) + Pieces(text, j + 1, false)
  {
    VerbatimStep(text, i, j + 1, Pieces(text, i, true), Pieces(text, j + 1, false));
  }

  /** A string literal goes through as it is, placeholders inside included, and the scan is outside of it behind it. */
  lemma {:induction false} StringIsVerbatim(text: string, i: nat, j: nat)
    requires i < j < |text| && text[i] == '"' && StringBody(text[i + 1..j]) && text[j] == '"'
    ensures Pieces(text, i, false) == Chars(text[i..j + 1]) + Pieces(text, j + 1, false)
  {
    AtChr(text, i, false);
    BodyIsVerbatim(text, i + 1, j);
    VerbatimStep(text, i, j + 1, Pieces(text, i, false), Pieces(text, j + 1, false));
  }

  // ---- Restoring what was swapped ----

  /** Text in which placeholder tokens may stand anywhere, in any order, any number of times. */
  datatype Part = Plain(c: char) | Ref(n: nat)

  function Written(parts: seq<Part>): string {
    if parts == [] then ""
    else (if parts[0].Ref? then Token(parts[0].n) else [parts[0].c]) + Written(parts[1..])
  }

  function Filled(parts: seq<Part>, vars: seq<string>): string {
    if parts == [] then ""
    else (if parts[0].Ref? then (if parts[0].n < |vars| then vars[parts[0].n] else Token(parts[0].n)) else [parts[0].c])
         + Filled(parts[1..], vars)
  }

  /** The plain characters right in front of everything else. */
  function PlainRun(parts: seq<Part>): string {
    if parts == [] || parts[0].Ref? then "" else [parts[0].c] + PlainRun(parts[1..])
  }

  /** Nowhere do plain characters spell the mark. */
  ghost predicate Unmarked(parts: seq<Part>) {
    parts == [] || (!StartsWith(PlainRun(parts), MARK) && Unmarked(parts[1..]))
  }

  lemma {:induction false} DigitRunIs(s: string, k: nat, digits: string)
    requires k + |digits| < |s| && s[k..k + |digits|] == digits && AllDigits(digits) && !IsDigit(s[k + |digits|])
    ensures DigitRun(s, k) == |digits|
    decreases |digits|
  {
    if digits == "" {
    } else {
      assert s[k] == digits[0];
      assert s[k + 1..k + 1 + |digits[1..]|] == digits[1..];
      DigitRunIs(s, k + 1, digits[1..]);
    }
  }

  /** A token is recognised, and only up to its own end. */
  lemma {:induction false} TokenMatches(n: nat, rest: string)
    ensures MatchAt(Token(n) + rest) == Some(Match(n, |Token(n)|))
    ensures (Token(n) + rest)[|Token(n)|..] == rest && (Token(n) + rest)[..|Token(n)|] == Token(n)
  {
    var head := "\"" + MARK;
    var digits := Decimal(n);
    var s := Token(n) + rest;
    var tail := "__\"" + rest;
    assert s == head + (digits + tail);
    assert s[..|head|] == head;
    assert s[|head|..|head| + |digits|] == digits && s[|head| + |digits|..] == tail;
    assert s[|head| + |digits|] == tail[0] == '_';
    DigitRunIs(s, |head|, digits);
    assert tail[..3] == "__\"";
    DecimalReadsBack(n);
  }

  /** Quotes are no part of the mark, so a mark in the written text comes from plain characters only. */
  lemma {:induction false} MarkIsPlain(parts: seq<Part>, mark: string)
    requires StartsWith(Written(parts), mark) && '"' !in mark
    ensures StartsWith(PlainRun(parts), mark)
    decreases |mark|
  {
    if mark == "" {
    } else {
      var w := Written(parts);
      assert w[0] == mark[0];
      assert parts != [] && parts[0].Plain?;
      assert w[1..] == Written(parts[1..]);
      assert w[1..][..|mark| - 1] == mark[1..] by {
        assert w[..|mark|] == mark;
      }
      MarkIsPlain(parts[1..], mark[1..]);
      assert mark == [mark[0]] + mark[1..];
    }
  }

  lemma {:induction false} NoQuoteInMark()
    ensures '"' !in MARK
  {
  }

  lemma {:induction false} PlainDoesNotMatch(c: char, parts: seq<Part>)
    requires !StartsWith(PlainRun(parts), MARK)
    ensures MatchAt([c] + Written(parts)) == None
  {
    var s := [c] + Written(parts);
    var head := "\"" + MARK;
    if StartsWith(s, head) {
      assert s[1..] == Written(parts);
      assert head[1..] == MARK;
      assert s[..|head|][1..] == s[1..][..|MARK|];
      NoQuoteInMark();
      MarkIsPlain(parts, MARK);
    }
  }

  /** Wherever the tokens ended up, each is replaced by its own placeholder and nothing else changes. */
  lemma {:induction false} RestoreFills(parts: seq<Part>, vars: seq<string>)
    requires Unmarked(parts)
    ensures Restore(Written(parts), vars) == Filled(parts, vars)
    decreases |parts|
  {
    if parts == [] {
    } else {
      var rest := Written(parts[1..]);
      RestoreFills(parts[1..], vars);
      if parts[0].Ref? {
        TokenMatches(parts[0].n, rest);
      } else {
        assert !StartsWith(PlainRun(parts[1..]), MARK) by {
          if parts[1..] == [] {
            assert |PlainRun(parts[1..])| == 0 && |MARK| > 0;
          }
        }
        PlainDoesNotMatch(parts[0].c, parts[1..]);
        assert ([parts[0].c] + rest)[1..] == rest;
      }
    }
  }

  // ---- Round trip ----

  /** The pieces of a scan with their tokens numbered from `n`. */
  function Numbered(pieces: seq<Piece>, n: nat): seq<Part> {
    if pieces == [] then []
    else if pieces[0].Var? then [Ref(n)] + Numbered(pieces[1..], n + 1)
    else [Plain(pieces[0].c)] + Numbered(pieces[1..], n)
  }

  lemma {:induction false} SwappedIsWritten(pieces: seq<Piece>, n: nat)
    ensures Written(Numbered(pieces, n)) == Swapped(pieces, n)
  {
    if pieces == [] {
    } else {
      if pieces[0].Var? {
        SwappedIsWritten(pieces[1..], n + 1);
        assert ([Ref(n)] + Numbered(pieces[1..], n + 1))[1..] == Numbered(pieces[1..], n + 1);
      } else {
        SwappedIsWritten(pieces[1..], n);
        assert ([Plain(pieces[0].c)] + Numbered(pieces[1..], n))[1..] == Numbered(pieces[1..], n);
      }
    }
  }

  lemma {:induction false} FilledIsText(pieces: seq<Piece>, n: nat, vars: seq<string>)
    requires n <= |vars| && vars[n..] == VarsOf(pieces)
    ensures Filled(Numbered(pieces, n), vars) == TextOf(pieces)
    decreases |pieces|
  {
    if pieces == [] {
    } else {
      if pieces[0].Var? {
        assert vars[n] == vars[n..][0] == pieces[0].v;
        assert vars[n + 1..] == vars[n..][1..];
        FilledIsText(pieces[1..], n + 1, vars);
        assert ([Ref(n)] + Numbered(pieces[1..], n + 1))[1..] == Numbered(pieces[1..], n + 1);
      } else {
        FilledIsText(pieces[1..], n, vars);
        assert ([Plain(pieces[0].c)] + Numbered(pieces[1..], n))[1..] == Numbered(pieces[1..], n);
      }
    }
  }

  lemma {:induction false} RunStartsText(pieces: seq<Piece>, n: nat)
    ensures StartsWith(TextOf(pieces), PlainRun(Numbered(pieces, n)))
    decreases |pieces|
  {
    if pieces == [] || !pieces[0].Chr? {
    } else {
      RunStartsText(pieces[1..], n);
      assert ([Plain(pieces[0].c)] + Numbered(pieces[1..], n))[1..] == Numbered(pieces[1..], n);
    }
  }

  lemma {:induction false} IncludesLater(s: string, k: nat, t: string)
    requires k <= |s| && Includes(s[k..], t)
    ensures Includes(s, t)
    decreases k
  {
    if k == 0 {
      assert s[0..] == s;
    } else {
      assert s[1..][k - 1..] == s[k..];
      IncludesLater(s[1..], k - 1, t);
    }
  }

  lemma {:induction false} NumberedIsUnmarked(pieces: seq<Piece>, n: nat)
    requires !Includes(TextOf(pieces), MARK)
    ensures Unmarked(Numbered(pieces, n))
    decreases |pieces|
  {
    if pieces == [] {
    } else {
      var t := TextOf(pieces);
      var first := if pieces[0].Var? then pieces[0].v else [pieces[0].c];
      assert t[|first|..] == TextOf(pieces[1..]);
      if Includes(TextOf(pieces[1..]), MARK) {
        IncludesLater(t, |first|, MARK);
      }
      RunStartsText(pieces, n);
      StartOfStart(t, PlainRun(Numbered(pieces, n)));
      if pieces[0].Var? {
        NumberedIsUnmarked(pieces[1..], n + 1);
        assert ([Ref(n)] + Numbered(pieces[1..], n + 1))[1..] == Numbered(pieces[1..], n + 1);
      } else {
        NumberedIsUnmarked(pieces[1..], n);
        assert ([Plain(pieces[0].c)] + Numbered(pieces[1..], n))[1..] == Numbered(pieces[1..], n);
      }
    }
  }

  lemma {:induction false} StartOfStart(t: string, run: string)
    requires StartsWith(t, run) && !Includes(t, MARK)
    ensures !StartsWith(run, MARK)
  {
    if StartsWith(run, MARK) {
      PrefixOfPrefix(t, run, MARK);
    }
  }

  lemma {:induction false} PrefixOfPrefix(t: string, run: string, mark: string)
    requires StartsWith(t, run) && StartsWith(run, mark)
    ensures StartsWith(t, mark)
  {
    assert t[..|mark|] == run[..|mark|];
  }

  /** For text without the mark, restoring the swapped text gives the text back. */
  lemma {:induction false} SwapThenRestore(text: string)
    requires !Includes(text, MARK)
    ensures Restore(Swapped(PiecesOf(text), 0), VarsOf(PiecesOf(text))) == text
  {
    var pieces := PiecesOf(text);
    var vars := VarsOf(pieces);
    PiecesAreText(text, 0, false);
    assert text[0..] == text && vars[0..] == vars;
    SwappedIsWritten(pieces, 0);
    NumberedIsUnmarked(pieces, 0);
    RestoreFills(Numbered(pieces, 0), vars);
    FilledIsText(pieces, 0, vars);
  }

  // ---- Restoring, character by character ----

  /** `s` begins with `"__TNZ_VAR_`, these digits and `__"`, and `rest` follows. */
  predicate TokenInFront(s: string, digits: string, rest: string) {
    && digits != "" && (forall i :: 0 <= i < |digits| ==> '0' <= digits[i] <= '9')
    && s == "\"__TNZ_VAR_" + (digits + ("__\"" + rest))
  }

  lemma {:induction false} FrontMatches(s: string, digits: string, rest: string)
    requires TokenInFront(s, digits, rest)
    ensures AllDigits(digits) && MatchAt(s) == Some(Match(Value(digits), |s| - |rest|))
    ensures s[|s| - |rest|..] == rest
  {
    var head := "\"" + MARK;
    var tail := "__\"" + rest;
    assert s[..|head|] == head;
    assert s[|head|..|head| + |digits|] == digits && s[|head| + |digits|..] == tail;
    assert s[|head| + |digits|] == tail[0] == '_';
    DigitRunIs(s, |head|, digits);
    assert tail[..3] == "__\"";
  }

  lemma {:induction false} MatchInFront(s: string) returns (digits: string, rest: string)
    requires MatchAt(s).Some?
    ensures TokenInFront(s, digits, rest)
  {
    var head := "\"" + MARK;
    var d := DigitRun(s, |head|);
    digits := s[|head|..|head| + d];
    var tail := s[|head| + d..];
    rest := tail[3..];
    assert tail == "__\"" + rest;
    assert s == s[..|head|] + (digits + tail);
  }

  /** A token is replaced by the placeholder its digits count to, or stays when there is no such placeholder. */
  lemma {:induction false} RestoreToken(s: string, digits: string, rest: string, vars: seq<string>)
    requires TokenInFront(s, digits, rest)
    ensures AllDigits(digits)
    ensures Restore(s, vars) ==
            (if Value(digits) < |vars| then vars[Value(digits)] else "\"__TNZ_VAR_" + (digits + "__\"")) + Restore(rest, vars)
  {
    FrontMatches(s, digits, rest);
    assert s[..|s| - |rest|] == "\"__TNZ_VAR_" + (digits + "__\"");
  }

  /** A character where no token begins is kept. */
  lemma {:induction false} RestoreChar(c: char, rest: string, vars: seq<string>)
    requires forall digits, behind :: !TokenInFront([c] + rest, digits, behind)
    ensures Restore([c] + rest, vars) == [c] + Restore(rest, vars)
  {
    var s := [c] + rest;
    assert s[1..] == rest;
    if MatchAt(s).Some? {
      var digits, behind := MatchInFront(s);
    }
  }
}
