/** The string operations of JavaScript the shared modules are written with. */
module JsText {
  /** `\s`, and what `trim` removes. */
  predicate IsSpace(c: char) {
    || '\t' <= c <= '\r'
    || c == ' '
    || c == '\U{00A0}' || c == '\U{1680}'
    || '\U{2000}' <= c <= '\U{200A}'
    || c == '\U{2028}' || c == '\U{2029}' || c == '\U{202F}' || c == '\U{205F}' || c == '\U{3000}' || c == '\U{FEFF}'
  }

  function TrimStart(s: string): string {
    if s != [] && IsSpace(s[0]) then TrimStart(s[1..]) else s
  }

  function TrimEnd(s: string): string {
    if s != [] && IsSpace(s[|s| - 1]) then TrimEnd(s[..|s| - 1]) else s
  }

  function Trim(s: string): string {
    TrimEnd(TrimStart(s))
  }

  predicate Blank(s: string) {
    forall i :: 0 <= i < |s| ==> IsSpace(s[i])
  }

  predicate StartsWith(s: string, prefix: string) {
    prefix <= s
  }

  /** `s.includes(t)`. */
  predicate Includes(s: string, t: string) {
    t <= s || (s != [] && Includes(s[1..], t))
  }

  // ---- White space ----

  lemma {:induction false} TrimmedBlank(s: string)
    requires Trim(s) == ""
    ensures Blank(s)
  {
    TrimStartBlank(s);
    TrimEndBlank(TrimStart(s));
  }

  lemma {:induction false} TrimStartBlank(s: string)
    ensures Blank(TrimStart(s)) ==> Blank(s)
  {
    if s == "" || !IsSpace(s[0]) {
    } else {
      TrimStartBlank(s[1..]);
      assert s == [s[0]] + s[1..];
    }
  }

  lemma {:induction false} TrimEndBlank(s: string)
    requires TrimEnd(s) == ""
    ensures Blank(s)
  {
    if s == "" {
    } else {
      TrimEndBlank(s[..|s| - 1]);
      assert s == s[..|s| - 1] + [s[|s| - 1]];
    }
  }

  lemma {:induction false} BlankTrims(s: string)
    requires Blank(s)
    ensures TrimStart(s) == "" && TrimEnd(s) == "" && Trim(s) == ""
  {
    if s == "" {
    } else {
      BlankTrims(s[1..]);
      BlankTrims(s[..|s| - 1]);
    }
  }

  lemma {:induction false} TrimStartIsRest(s: string) returns (before: string)
    ensures s == before + TrimStart(s) && Blank(before)
    ensures TrimStart(s) != "" ==> !IsSpace(TrimStart(s)[0])
  {
    if s == "" || !IsSpace(s[0]) {
      before := "";
    } else {
      before := TrimStartIsRest(s[1..]);
      before := [s[0]] + before;
    }
  }

  lemma {:induction false} TrimEndIsFront(s: string) returns (behind: string)
    ensures s == TrimEnd(s) + behind && Blank(behind)
    ensures TrimEnd(s) != "" ==> !IsSpace(TrimEnd(s)[|TrimEnd(s)| - 1])
  {
    if s == "" || !IsSpace(s[|s| - 1]) {
      behind := "";
    } else {
      behind := TrimEndIsFront(s[..|s| - 1]);
      behind := behind + [s[|s| - 1]];
    }
  }

  /** What is left is the stretch between the white space at both ends. */
  lemma {:induction false} TrimIsMiddle(s: string) returns (before: string, behind: string)
    ensures s == before + Trim(s) + behind && Blank(before) && Blank(behind)
    ensures Trim(s) != "" ==> !IsSpace(Trim(s)[0]) && !IsSpace(Trim(s)[|Trim(s)| - 1])
  {
    before := TrimStartIsRest(s);
    behind := TrimEndIsFront(TrimStart(s));
  }

  lemma {:induction false} BlankInFront(before: string, s: string)
    requires Blank(before)
    ensures TrimStart(before + s) == TrimStart(s)
  {
    if before == "" {
      assert before + s == s;
    } else {
      assert (before + s)[1..] == before[1..] + s;
      BlankInFront(before[1..], s);
    }
  }

  lemma {:induction false} BlankBehind(s: string, behind: string)
    requires Blank(behind)
    ensures TrimEnd(s + behind) == TrimEnd(s)
  {
    if behind == "" {
      assert s + behind == s;
    } else {
      var t := s + behind;
      assert t[..|t| - 1] == s + behind[..|behind| - 1];
      BlankBehind(s, behind[..|behind| - 1]);
    }
  }

  lemma {:induction false} StartStays(s: string, behind: string)
    requires !Blank(s)
    ensures TrimStart(s + behind) == TrimStart(s) + behind
  {
    if !IsSpace(s[0]) {
    } else {
      assert (s + behind)[1..] == s[1..] + behind;
      assert s == [s[0]] + s[1..];
      StartStays(s[1..], behind);
    }
  }

  /** White space around a text changes nothing of what is left. */
  lemma BlankAround(before: string, s: string, behind: string)
    requires Blank(before) && Blank(behind)
    ensures Trim(before + s + behind) == Trim(s)
  {
    if Blank(s) {
      BlankTrims(before + s + behind);
      BlankTrims(s);
    } else {
      assert before + s + behind == before + (s + behind);
      BlankInFront(before, s + behind);
      StartStays(s, behind);
      BlankBehind(TrimStart(s), behind);
    }
  }

  lemma {:induction false} IncludesBehind(a: string, t: string, b: string)
    ensures Includes(a + t + b, t)
  {
    if a == "" {
      assert (a + t + b)[..|t|] == t;
    } else {
      assert (a + t + b)[1..] == a[1..] + t + b;
      IncludesBehind(a[1..], t, b);
    }
  }

  lemma {:induction false} IncludedStands(s: string, t: string) returns (a: string, b: string)
    requires Includes(s, t)
    ensures s == a + t + b
  {
    if t <= s {
      a, b := "", s[|t|..];
    } else {
      a, b := IncludedStands(s[1..], t);
      a := [s[0]] + a;
    }
  }

  /** A text includes another exactly when it is that text with something in front and behind. */
  lemma IncludesIff(s: string, t: string)
    ensures Includes(s, t) <==> exists a: string, b: string :: s == a + t + b
  {
    if Includes(s, t) {
      var a, b := IncludedStands(s, t);
    }
    forall a: string, b: string | s == a + t + b
      ensures Includes(s, t)
    {
      IncludesBehind(a, t, b);
    }
  }

  /** The white space and line terminators of ECMAScript, by code point. */
  const SPACES := {9, 10, 11, 12, 13, 32, 0xA0, 0x1680, 0x2000, 0x2001, 0x2002, 0x2003, 0x2004, 0x2005, 0x2006, 0x2007, 0x2008,
                   0x2009, 0x200A, 0x2028, 0x2029, 0x202F, 0x205F, 0x3000, 0xFEFF}

  lemma SpaceIff(c: char)
    ensures IsSpace(c) <==> c as int in SPACES
  {
  }
}
