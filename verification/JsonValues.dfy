/** JSON texts by their grammar (RFC 8259): what the array reader of `ConversationSplice` makes of them. */
module JsonValues {
  import opened ConversationSplice
  import opened Options
  import opened Sequences

  /** A character of a string, plain or behind a backslash. */
  datatype Unit = Plain(c: char) | Escape(c: char)

  /** Numbers and names are kept as their characters. */
  datatype Value = Atom(chars: string) | Str(units: seq<Unit>) | Arr(elements: seq<Value>) | Obj(entries: seq<Entry>)

  datatype Entry = Entry(key: seq<Unit>, value: Value)

  function UnitsText(units: seq<Unit>): string {
    if units == [] then ""
    else (if units[0].Plain? then [units[0].c] else ['\\', units[0].c]) + UnitsText(units[1..])
  }

  function Quoted(units: seq<Unit>): string {
    "\"" + UnitsText(units) + "\""
  }

  function TextOf(v: Value): string {
    match v
    case Atom(chars) => chars
    case Str(units) => Quoted(units)
    case Arr(elements) => "[" + ElementsText(elements) + "]"
    case Obj(entries) => "{" + EntriesText(entries) + "}"
  }

  function ElementsText(vs: seq<Value>): string {
    if vs == [] then "" else (if |vs| == 1 then TextOf(vs[0]) else TextOf(vs[0]) + "," + ElementsText(vs[1..]))
  }

  function EntriesText(es: seq<Entry>): string {
    if es == [] then ""
    else
      var first := Quoted(es[0].key) + ":" + TextOf(es[0].value);
      if |es| == 1 then first else first + "," + EntriesText(es[1..])
  }

  /** No bare quote or backslash. */
  predicate ProperUnits(units: seq<Unit>) {
    units == [] || ((units[0].Plain? ==> units[0].c != '"' && units[0].c != '\\') && ProperUnits(units[1..]))
  }

  predicate ProperAtom(chars: string) {
    chars != "" && NoMarks(chars)
  }

  predicate NoMarks(chars: string) {
    forall i :: 0 <= i < |chars| ==> chars[i] !in "\"[]{},"
  }

  predicate Proper(v: Value) {
    match v
    case Atom(chars) => ProperAtom(chars)
    case Str(units) => ProperUnits(units)
    case Arr(elements) => AllProper(elements)
    case Obj(entries) => ProperEntries(entries)
  }

  predicate AllProper(vs: seq<Value>) {
    vs == [] || (Proper(vs[0]) && AllProper(vs[1..]))
  }

  predicate ProperEntries(es: seq<Entry>) {
    es == [] || (ProperUnits(es[0].key) && Proper(es[0].value) && ProperEntries(es[1..]))
  }

  // ---- Reading a value comes back to where it started ----

  lemma {:induction false} AfterBoth(r: Reader, a: string, b: string)
    requires After(r, a).Some?
    ensures After(r, a + b) == After(After(r, a).value, b)
    decreases a
  {
    if a == "" {
      assert a + b == b;
    } else {
      AppendSlices(a, b);
      AfterBoth(Read(r, a[0]).value, a[1..], b);
    }
  }

  lemma {:induction false} AfterOne(r: Reader, c: char)
    requires !TopComma(r, c)
    ensures After(r, [c]) == Read(r, c)
  {
    assert [c][1..] == "";
  }

  lemma {:induction false} ThroughMarkless(r: Reader, chars: string)
    requires !r.inString && NoMarks(chars)
    ensures After(r, chars) == Some(r)
    decreases chars
  {
    if chars == "" {
    } else {
      assert chars[0] !in "\"[]{},";
      ThroughMarkless(r, chars[1..]);
    }
  }

  lemma {:induction false} ThroughUnits(r: Reader, units: seq<Unit>)
    requires r.inString && !r.escaped && ProperUnits(units)
    ensures After(r, UnitsText(units)) == Some(r)
    decreases units
  {
    if units == [] {
    } else {
      var rest := UnitsText(units[1..]);
      ThroughUnits(r, units[1..]);
      if units[0].Plain? {
        AfterOne(r, units[0].c);
        AfterBoth(r, [units[0].c], rest);
      } else {
        AfterOne(r, '\\');
        AfterOne(r.(escaped := true), units[0].c);
        AfterBoth(r, ['\\'], [units[0].c]);
        assert ['\\'] + [units[0].c] == ['\\', units[0].c];
        AfterBoth(r, ['\\', units[0].c], rest);
      }
    }
  }

  /** Where no string is open and nothing is behind a backslash. */
  predicate Between(r: Reader) {
    !r.inString && !r.escaped
  }

  lemma {:induction false} ThroughQuoted(r: Reader, units: seq<Unit>)
    requires Between(r) && ProperUnits(units)
    ensures After(r, Quoted(units)) == Some(r)
  {
    var inside := r.(inString := true);
    AfterOne(r, '"');
    ThroughUnits(inside, units);
    AfterBoth(r, "\"", UnitsText(units));
    AfterOne(inside, '"');
    AfterBoth(r, "\"" + UnitsText(units), "\"");
  }

  lemma {:induction false} ThroughBrackets(r: Reader, open: char, inner: string, close: char)
    requires Between(r) && ((open == '[' && close == ']') || (open == '{' && close == '}'))
    requires After(r.(depth := r.depth + 1), inner) == Some(r.(depth := r.depth + 1))
    ensures After(r, [open] + inner + [close]) == Some(r)
  {
    AfterOne(r, open);
    AfterBoth(r, [open], inner);
    AfterOne(r.(depth := r.depth + 1), close);
    AfterBoth(r, [open] + inner, [close]);
  }

  lemma {:induction false} ThroughComma(r: Reader, a: string, b: string)
    requires Between(r) && r.depth > 0 && After(r, a) == Some(r) && After(r, b) == Some(r)
    ensures After(r, a + "," + b) == Some(r)
  {
    AfterOne(r, ',');
    AfterBoth(r, a, ",");
    AfterBoth(r, a + ",", b);
  }

  lemma {:induction false} ThroughEntry(r: Reader, key: string, value: string)
    requires Between(r) && After(r, key) == Some(r) && After(r, value) == Some(r)
    ensures After(r, key + ":" + value) == Some(r)
  {
    AfterOne(r, ':');
    AfterBoth(r, key, ":");
    AfterBoth(r, key + ":", value);
  }

  lemma {:induction false} ThroughValue(r: Reader, v: Value)
    requires Between(r) && Proper(v)
    ensures After(r, TextOf(v)) == Some(r)
    decreases v
  {
    match v
    case Atom(chars) => ThroughMarkless(r, chars);
    case Str(units) => ThroughQuoted(r, units);
    case Arr(elements) =>
      ThroughElements(r.(depth := r.depth + 1), elements);
      ThroughBrackets(r, '[', ElementsText(elements), ']');
    case Obj(entries) =>
      ThroughEntries(r.(depth := r.depth + 1), entries);
      ThroughBrackets(r, '{', EntriesText(entries), '}');
  }

  lemma {:induction false} ThroughElements(r: Reader, vs: seq<Value>)
    requires Between(r) && r.depth > 0 && AllProper(vs)
    ensures After(r, ElementsText(vs)) == Some(r)
    decreases vs
  {
    if vs == [] {
    } else {
      ThroughValue(r, vs[0]);
      if |vs| > 1 {
        ThroughElements(r, vs[1..]);
        ThroughComma(r, TextOf(vs[0]), ElementsText(vs[1..]));
      }
    }
  }

  lemma {:induction false} ThroughEntries(r: Reader, es: seq<Entry>)
    requires Between(r) && r.depth > 0 && ProperEntries(es)
    ensures After(r, EntriesText(es)) == Some(r)
    decreases es
  {
    if es == [] {
    } else {
      ThroughQuoted(r, es[0].key);
      ThroughValue(r, es[0].value);
      ThroughEntry(r, Quoted(es[0].key), TextOf(es[0].value));
      if |es| > 1 {
        ThroughEntries(r, es[1..]);
        ThroughComma(r, Quoted(es[0].key) + ":" + TextOf(es[0].value), EntriesText(es[1..]));
      }
    }
  }

  /** The text of any JSON value, however it nests and whatever its strings hold, is one element. */
  lemma {:induction false} ValueIsElement(v: Value)
    requires Proper(v)
    ensures IsElement(TextOf(v))
  {
    ThroughValue(OUTSIDE, v);
  }

  /** An array of JSON values is read back as the texts of those values, none cut and none run together. */
  lemma {:induction false} ArrayReadsBack(vs: seq<Value>)
    requires forall i :: 0 <= i < |vs| ==> Proper(vs[i])
    ensures var texts := seq(|vs|, i requires 0 <= i < |vs| => TextOf(vs[i])); ParseArray(Stringify(texts)) == Some(texts)
  {
    var texts := seq(|vs|, i requires 0 <= i < |vs| => TextOf(vs[i]));
    forall i | 0 <= i < |texts|
      ensures IsElement(texts[i])
    {
      ValueIsElement(vs[i]);
    }
    ParseOfStringify(texts);
  }

  // ---- And nothing else is read ----

  ghost predicate Closed(ts: seq<string>) {
    forall i :: 0 <= i < |ts| ==> After(OUTSIDE, ts[i]) == Some(OUTSIDE)
  }

  lemma {:induction false} OneMoreClosed(first: string, rest: seq<string>)
    requires After(OUTSIDE, first) == Some(OUTSIDE) && Closed(rest)
    ensures Closed([first] + rest)
  {
  }

  lemma {:induction false} AtComma(current: string, t: string)
    requires t != "" && t[0] == ','
    ensures current + t == current + ("," + ("" + t[1..]))
  {
  }

  lemma {:induction false} OneMoreRead(r: Reader, current: string, t: string)
    requires t != "" && After(OUTSIDE, current) == Some(r) && !TopComma(r, t[0]) && Read(r, t[0]).Some?
    ensures After(OUTSIDE, current + [t[0]]) == Read(r, t[0]) && current + [t[0]] + t[1..] == current + t
  {
    AfterOne(r, t[0]);
    AfterBoth(OUTSIDE, current, [t[0]]);
  }

  lemma {:induction false} ElementsAreClosed(r: Reader, current: string, t: string)
    requires After(OUTSIDE, current) == Some(r) && Elements(r, current, t).Some?
    ensures var ts := Elements(r, current, t).value; ts != [] && current + t == Commas(ts) && Closed(ts)
    decreases t
  {
    if t == "" {
      assert current + t == current;
    } else if TopComma(r, t[0]) {
      ElementsAreClosed(OUTSIDE, "", t[1..]);
      var rest := Elements(OUTSIDE, "", t[1..]).value;
      CommasOfMore(current, rest);
      AtComma(current, t);
      OneMoreClosed(current, rest);
    } else {
      OneMoreRead(r, current, t);
      ElementsAreClosed(Read(r, t[0]).value, current + [t[0]], t[1..]);
    }
  }

  /** A text that is read as an array is those elements between brackets and commas, each with its strings and brackets
      closed. */
  lemma {:induction false} OnlyArraysAreRead(t: string)
    requires ParseArray(t).Some?
    ensures var ts := ParseArray(t).value;
            RTrim(t) == "[" + Commas(ts) + "]" && Closed(ts)
  {
    var s := RTrim(t);
    var inner := s[1..|s| - 1];
    assert s == "[" + inner + "]";
    if |s| > 2 {
      ElementsAreClosed(OUTSIDE, "", inner);
      assert "" + inner == inner;
    }
  }
}
