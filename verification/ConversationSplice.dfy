/**
 * Stored AI conversations, `ai-conversation.repo.ts`: an answer is spliced into the JSON text of the row without
 * reading the conversation back.
 *
 * The JSON text of one turn is uninterpreted, except that its brackets and quotes are balanced. A Dafny string is a
 * sequence of code points, which is what `length` and `substr` of SQLite count.
 */
module ConversationSplice {
  import opened Options

  const AI_CONVERSATION_MAX_BYTES: nat := 2 * 1024 * 1024

  // ---- JSON text ----

  /** Where a reader of JSON text is: how many brackets are open, and whether it is inside a string. */
  datatype Reader = Reader(depth: nat, inString: bool, escaped: bool)

  const OUTSIDE := Reader(0, false, false)

  predicate TopComma(r: Reader, c: char) {
    r == OUTSIDE && c == ','
  }

  /** `None`: a bracket closes that was not opened. */
  function Read(r: Reader, c: char): Option<Reader> {
    if r.inString then
      Some(if r.escaped then r.(escaped := false)
           else if c == '\\' then r.(escaped := true)
           else if c == '"' then r.(inString := false)
           else r)
    else if c == '"' then Some(r.(inString := true))
    else if c == '[' || c == '{' then Some(r.(depth := r.depth + 1))
    else if c == ']' || c == '}' then (if r.depth == 0 then None else Some(r.(depth := r.depth - 1)))
    else Some(r)
  }

  /** Reading a text that has no comma between elements in it. */
  function After(r: Reader, t: string): Option<Reader>
    decreases t
  {
    if t == "" then Some(r)
    else if TopComma(r, t[0]) || Read(r, t[0]).None? then None
    else After(Read(r, t[0]).value, t[1..])
  }

  /** The text of one array element. */
  predicate IsElement(t: string) {
    t != "" && After(OUTSIDE, t) == Some(OUTSIDE)
  }

  ghost predicate AreElements(ts: seq<string>) {
    forall i :: 0 <= i < |ts| ==> IsElement(ts[i])
  }

  function Commas(ts: seq<string>): string {
    if ts == [] then "" else if |ts| == 1 then ts[0] else ts[0] + "," + Commas(ts[1..])
  }

  /** `JSON.stringify` of the array. */
  function Stringify(ts: seq<string>): string {
    "[" + Commas(ts) + "]"
  }

  /** The elements behind `current`, which is the part of one read so far. */
  function Elements(r: Reader, current: string, t: string): Option<seq<string>>
    decreases t
  {
    if t == "" then (if r == OUTSIDE then Some([current]) else None)
    else if TopComma(r, t[0]) then
      var rest := Elements(OUTSIDE, "", t[1..]);
      if rest.None? then None else Some([current] + rest.value)
    else if Read(r, t[0]).None? then None
    else Elements(Read(r, t[0]).value, current + [t[0]], t[1..])
  }

  // ---- Spaces behind a text ----

  /** SQLite's `rtrim`: spaces only. */
  function RTrim(t: string): string {
    if t != "" && t[|t| - 1] == ' ' then RTrim(t[..|t| - 1]) else t
  }

  /** What is left ends in no space, and only spaces went. */
  lemma {:induction false} RTrimIsFront(t: string)
    ensures RTrim(t) <= t && forall i :: |RTrim(t)| <= i < |t| ==> t[i] == ' '
    ensures RTrim(t) != "" ==> RTrim(t)[|RTrim(t)| - 1] != ' '
  {
    if t == "" || t[|t| - 1] != ' ' {
    } else {
      RTrimIsFront(t[..|t| - 1]);
    }
  }

  lemma NothingMore(t: string)
    ensures RTrim(RTrim(t)) == RTrim(t)
  {
    RTrimIsFront(t);
  }

  // ---- Reading an array ----

  /** `json_valid` and `JSON.parse`, down to the elements; spaces behind the array do not matter. */
  function ParseArray(t: string): Option<seq<string>> {
    ParseTrimmed(RTrim(t))
  }

  function ParseTrimmed(t: string): Option<seq<string>> {
    if |t| < 2 || t[0] != '[' || t[|t| - 1] != ']' then None
    else if |t| == 2 then Some([])
    else Elements(OUTSIDE, "", t[1..|t| - 1])
  }

  lemma {:induction false} ReadOneElement(r: Reader, current: string, e: string, rest: string)
    requires After(r, e).Some?
    ensures Elements(r, current, e + rest) == Elements(After(r, e).value, current + e, rest)
    decreases e
  {
    if e == "" {
      assert e + rest == rest && current + e == current;
    } else {
      assert (e + rest)[1..] == e[1..] + rest;
      ReadOneElement(Read(r, e[0]).value, current + [e[0]], e[1..], rest);
      assert current + [e[0]] + e[1..] == current + e;
    }
  }

  lemma {:induction false} ReadLastElement(e: string)
    requires IsElement(e)
    ensures Elements(OUTSIDE, "", e) == Some([e])
  {
    ReadOneElement(OUTSIDE, "", e, "");
    assert e + "" == e && "" + e == e;
  }

  lemma {:induction false} ReadFirstElement(e: string, rest: string)
    requires IsElement(e) && Elements(OUTSIDE, "", rest).Some?
    ensures Elements(OUTSIDE, "", e + ("," + rest)) == Some([e] + Elements(OUTSIDE, "", rest).value)
  {
    var tail := "," + rest;
    ReadOneElement(OUTSIDE, "", e, tail);
    assert "" + e == e && tail[1..] == rest;
  }

  lemma {:induction false} CommasOfMore(first: string, rest: seq<string>)
    requires rest != []
    ensures Commas([first] + rest) == first + ("," + Commas(rest))
  {
    assert ([first] + rest)[1..] == rest;
  }

  lemma {:induction false} ElementsOfCommas(ts: seq<string>)
    requires ts != [] && AreElements(ts)
    ensures Elements(OUTSIDE, "", Commas(ts)) == Some(ts)
  {
    var first, rest := ts[0], ts[1..];
    assert IsElement(first);
    assert [first] + rest == ts;
    if |ts| == 1 {
      ReadLastElement(first);
      assert [first] == ts;
    } else {
      ElementsOfCommas(rest);
      ReadFirstElement(first, Commas(rest));
      CommasOfMore(first, rest);
    }
  }

  lemma {:induction false} CommasNotEmpty(ts: seq<string>)
    requires AreElements(ts)
    ensures Commas(ts) == "" <==> ts == []
  {
    if ts != [] {
      assert IsElement(ts[0]);
    }
  }

  /** A stored array is read back as it was written. */
  lemma {:induction false} ParseOfStringify(ts: seq<string>)
    requires AreElements(ts)
    ensures ParseArray(Stringify(ts)) == Some(ts)
  {
    var t := Stringify(ts);
    assert RTrim(t) == t;
    CommasNotEmpty(ts);
    assert t[1..|t| - 1] == Commas(ts);
    if ts != [] {
      ElementsOfCommas(ts);
    }
  }

  // ---- Bytes ----

  function Utf8Size(c: char): nat {
    if c as int < 0x80 then 1 else if c as int < 0x800 then 2 else if c as int < 0x10000 then 3 else 4
  }

  /** How many code points UTF-8 writes in at most `n` bytes: 7 bits in one, 11 in two, 16 in three, 21 in four. */
  function Room(n: nat): nat {
    if n == 0 then 0 else if n == 1 then 0x80 else if n == 2 then 0x800 else if n == 3 then 0x1_0000 else 0x20_0000
  }

  /** A character takes the fewest bytes that have room for it. */
  lemma Utf8SizeIsLeast(c: char)
    ensures 1 <= Utf8Size(c) <= 4
    ensures Room(Utf8Size(c) - 1) <= c as int < Room(Utf8Size(c))
  {
  }

  /** `Buffer.byteLength(t, 'utf-8')`. */
  function Bytes(t: string): nat {
    if t == "" then 0 else Utf8Size(t[0]) + Bytes(t[1..])
  }

  lemma {:induction false} BytesAdd(a: string, b: string)
    ensures Bytes(a + b) == Bytes(a) + Bytes(b)
  {
    if a == "" {
      assert a + b == b;
    } else {
      assert (a + b)[1..] == a[1..] + b;
      BytesAdd(a[1..], b);
    }
  }

  // ---- The splice ----

  /** The text the UPDATE stores. */
  function Spliced(stored: string, count: nat, added: string): string
    requires |RTrim(stored)| > 0 && |added| > 0
  {
    if count == 0 then added
    else RTrim(stored)[..|RTrim(stored)| - 1] + "," + added[1..]
  }

  lemma {:induction false} CommasAppend(a: seq<string>, b: seq<string>)
    requires a != [] && b != []
    ensures Commas(a + b) == Commas(a) + "," + Commas(b)
  {
    assert (a + b)[0] == a[0] && (a + b)[1..] == a[1..] + b;
    if |a| == 1 {
      assert a[1..] + b == b;
    } else {
      CommasAppend(a[1..], b);
      assert a[0] + "," + (Commas(a[1..]) + "," + Commas(b)) == a[0] + "," + Commas(a[1..]) + "," + Commas(b);
    }
  }

  lemma {:induction false} NothingToTrim(ts: seq<string>)
    ensures RTrim(Stringify(ts)) == Stringify(ts) && |Stringify(ts)| >= 2
  {
  }

  lemma {:induction false} WithoutBrackets(ts: seq<string>)
    ensures Stringify(ts)[..|Stringify(ts)| - 1] == "[" + Commas(ts)
    ensures Stringify(ts)[1..] == Commas(ts) + "]"
  {
  }

  /** The spliced text is, character by character, what writing the whole conversation anew would give. */
  lemma {:induction false} SpliceIsStringify(ts: seq<string>, added: seq<string>)
    requires added != []
    ensures |RTrim(Stringify(ts))| > 0
    ensures Spliced(Stringify(ts), |ts|, Stringify(added)) == Stringify(ts + added)
  {
    NothingToTrim(ts);
    if ts == [] {
      assert ts + added == added;
    } else {
      WithoutBrackets(ts);
      WithoutBrackets(added);
      CommasAppend(ts, added);
      assert "[" + Commas(ts) + "," + (Commas(added) + "]") == "[" + (Commas(ts) + "," + Commas(added)) + "]";
    }
  }

  lemma {:induction false} SpliceSize(ts: seq<string>, added: seq<string>)
    requires added != []
    ensures Bytes(Stringify(ts + added)) <= Bytes(Stringify(ts)) + Bytes(Stringify(added))
  {
    BytesAdd("[" + Commas(ts + added), "]");
    BytesAdd("[", Commas(ts + added));
    BytesAdd("[" + Commas(ts), "]");
    BytesAdd("[", Commas(ts));
    BytesAdd("[" + Commas(added), "]");
    BytesAdd("[", Commas(added));
    assert Bytes("[") == 1 && Bytes("]") == 1 && Bytes(",") == 1;
    if ts == [] {
      assert ts + added == added;
    } else {
      CommasAppend(ts, added);
      BytesAdd(Commas(ts) + ",", Commas(added));
      BytesAdd(Commas(ts), ",");
    }
  }

  // ---- The table ----

  /** A row as this code writes it, the text of an array of turns; spaces may follow. */
  ghost predicate Written(messages: string) {
    && ParseArray(messages).Some?
    && AreElements(ParseArray(messages).value)
    && RTrim(messages) == Stringify(ParseArray(messages).value)
  }

  predicate UnderCap(messages: string) {
    Bytes(messages) <= 2_097_152
  }

  lemma {:induction false} StringifyIsWritten(ts: seq<string>)
    requires AreElements(ts)
    ensures Written(Stringify(ts)) && ParseArray(Stringify(ts)) == Some(ts)
  {
    ParseOfStringify(ts);
  }

  /** A row that is either written by this code or not the text of an array at all. */
  ghost predicate Sound(messages: string) {
    ParseArray(messages).Some? ==> Written(messages)
  }

  lemma {:induction false} BytesOfFront(t: string)
    ensures Bytes(RTrim(t)) <= Bytes(t)
  {
    RTrimIsFront(t);
    BytesAdd(RTrim(t), t[|RTrim(t)|..]);
    assert t == RTrim(t) + t[|RTrim(t)|..];
  }

  lemma {:induction false} SpliceIsWritten(stored: string, added: seq<string>)
    requires Written(stored) && AreElements(added) && added != []
    requires Fits(stored, added)
    ensures |RTrim(stored)| > 0
    ensures var after := Spliced(stored, |ParseArray(stored).value|, Stringify(added));
            Written(after) && UnderCap(after) && ParseArray(after) == Some(ParseArray(stored).value + added)
  {
    var ts := ParseArray(stored).value;
    NothingMore(stored);
    BytesOfFront(stored);
    SpliceIsStringify(ts, added);
    SpliceSize(ts, added);
    StringifyIsWritten(ts + added);
  }

  /** The turns of a row's text; an unreadable one has none. */
  function TurnsOf(messages: string): seq<string> {
    if ParseArray(messages).Some? then ParseArray(messages).value else []
  }

  predicate Fits(stored: string, added: seq<string>) {
    Bytes(stored) + Bytes(Stringify(added)) <= 2_097_152
  }

  /** The turns a row holds after `added`, which is all of them unless that passes the cap. */
  function TurnsAfter(stored: string, added: seq<string>, capped: seq<string>): seq<string> {
    if Fits(stored, added) then TurnsOf(stored) + added else capped
  }

  /**
   * The new text of a row: spliced in place, or written anew from the trimmed turns. What the trimming leaves decides
   * alone whether a row past the cap comes back under it, also when it was over it before.
   */
  method Extend(stored: string, added: seq<string>, capped: seq<string>) returns (messages: string, turnCount: nat)
    requires Sound(stored) && AreElements(added)
    requires !Fits(stored, added) ==> AreElements(capped)
    ensures Written(messages) && TurnsOf(messages) == TurnsAfter(stored, added, capped)
    ensures turnCount == |TurnsOf(messages)|
    ensures UnderCap(messages) <==> Fits(stored, added) || UnderCap(Stringify(capped))
  {
    var parsed := ParseArray(stored);
    var addedJson := Stringify(added);
    var fits := Bytes(stored) + Bytes(addedJson) <= AI_CONVERSATION_MAX_BYTES;
    if parsed.Some? && fits {
      if |added| == 0 {
        assert parsed.value + added == parsed.value;
        return stored, |parsed.value|;
      }
      SpliceIsWritten(stored, added);
      return Spliced(stored, |parsed.value|, addedJson), |parsed.value| + |added|;
    }
    // An unreadable row has no turns; a readable one comes here only to be trimmed.
    assert [] + added == added;
    var next := if fits then [] + added else capped;
    StringifyIsWritten(next);
    return Stringify(next), |next|;
  }

  class ConversationTable {
    var rows: map<string, string>

    ghost predicate Valid()
      reads this
    {
      forall id :: id in rows ==> Sound(rows[id])
    }

    constructor ()
      ensures Valid() && rows == map[]
    {
      rows := map[];
    }

    /** `turns` are the stored form of the given ones; `capped` is what `capConversation` makes of them. */
    method Create(id: string, turns: seq<string>, capped: seq<string>)
      requires Valid() && id !in rows
      requires AreElements(turns)
      requires !UnderCap(Stringify(turns)) ==> AreElements(capped)
      modifies this
      ensures Valid() && rows.Keys == old(rows).Keys + {id}
      ensures forall other :: other in old(rows) ==> rows[other] == old(rows)[other]
      ensures Written(rows[id])
      ensures TurnsOf(rows[id]) == if UnderCap(Stringify(turns)) then turns else capped
      ensures UnderCap(rows[id]) <==> UnderCap(Stringify(turns)) || UnderCap(Stringify(capped))
    {
      var fits := Bytes(Stringify(turns)) <= AI_CONVERSATION_MAX_BYTES;
      var stored := if fits then turns else capped;
      StringifyIsWritten(stored);
      rows := rows[id := Stringify(stored)];
    }

    /** `capped` is what `capConversation` makes of the row's turns and the new ones; it matters past the cap only. */
    method Append(id: string, added: seq<string>, capped: seq<string>) returns (turnCount: Option<nat>)
      requires Valid()
      requires AreElements(added)
      requires id in rows && !Fits(rows[id], added) ==> AreElements(capped)
      modifies this
      ensures Valid() && rows.Keys == old(rows).Keys
      ensures turnCount.Some? <==> id in old(rows)
      ensures forall other :: other in old(rows) && other != id ==> rows[other] == old(rows)[other]
      ensures id in old(rows) ==> Written(rows[id])
      ensures id in old(rows) ==> (UnderCap(rows[id]) <==> Fits(old(rows)[id], added) || UnderCap(Stringify(capped)))
      ensures id in old(rows) ==> TurnsOf(rows[id]) == TurnsAfter(old(rows)[id], added, capped)
      ensures id in old(rows) ==> turnCount == Some(|TurnsOf(rows[id])|)
    {
      if id !in rows {
        return None;
      }
      var messages, n := Extend(rows[id], added, capped);
      rows := rows[id := messages];
      turnCount := Some(n);
    }
  }

  // ---- A whole conversation ----

  /** The turns after a run of appends that each fit: all of them, in the order they came. */
  function AllTurns(first: seq<string>, appends: seq<seq<string>>): seq<string> {
    if appends == [] then first else AllTurns(first, appends[..|appends| - 1]) + appends[|appends| - 1]
  }

  function SplicedAll(messages: string, count: nat, appends: seq<seq<string>>): (r: (string, nat)) {
    if appends == [] then (messages, count)
    else
      var (before, n) := SplicedAll(messages, count, appends[..|appends| - 1]);
      var added := appends[|appends| - 1];
      if added == [] || RTrim(before) == "" then (before, n)
      else (Spliced(before, n, Stringify(added)), n + |added|)
  }

  /** Any number of splices give the text and the count of the conversation written at once. */
  lemma {:induction false} SplicesAreOneStringify(first: seq<string>, appends: seq<seq<string>>)
    ensures SplicedAll(Stringify(first), |first|, appends) ==
            (Stringify(AllTurns(first, appends)), |AllTurns(first, appends)|)
  {
    if appends == [] {
    } else {
      var n := |appends| - 1;
      SplicesAreOneStringify(first, appends[..n]);
      var before := AllTurns(first, appends[..n]);
      NothingToTrim(before);
      if appends[n] == [] {
        assert before + appends[n] == before;
      } else {
        SpliceIsStringify(before, appends[n]);
      }
    }
  }
}
