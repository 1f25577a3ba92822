/** The lines of an exported script, character by character: which ones are markers, and what the block holds. */
module AssertionLines {
  import opened AssertionExport
  import opened AssertionScript
  import opened JsText
  import opened Options
  import opened Splitting

  // ---- Marker lines ----

  /** `text` is `inner` with white space around it. */
  ghost predicate Padded(text: string, inner: string) {
    exists before: string, behind: string :: Blank(before) && Blank(behind) && text == before + inner + behind
  }

  /** `text` is the tag with `rest` behind it, and perhaps white space in front. */
  ghost predicate Tagged(text: string, rest: string) {
    exists before: string :: Blank(before) && text == before + ("// tn-assert:" + rest)
  }

  lemma TrimIff(text: string, inner: string)
    requires inner != "" && !IsSpace(inner[0]) && !IsSpace(inner[|inner| - 1])
    ensures Trim(text) == inner <==> Padded(text, inner)
  {
    if Trim(text) == inner {
      var before, behind := TrimIsMiddle(text);
    }
    forall before: string, behind: string | Blank(before) && Blank(behind) && text == before + inner + behind
      ensures Trim(text) == inner
    {
      BlankAround(before, inner, behind);
      TrimKeepsPrefix(inner, "");
      assert inner + "" == inner;
    }
  }

  lemma TaggedMark(text: string, rest: string)
    requires Tagged(text, rest)
    ensures MarkOf(text) == Tag(Trim(rest))
  {
    var before: string :| Blank(before) && text == before + ("// tn-assert:" + rest);
    assert text == before + (TAG + rest) + "";
    BlankAround(before, TAG + rest, "");
    TagLineMark(rest);
  }

  lemma Regroup(before: string, tag: string, inner: string, behind: string)
    ensures before + (tag + inner) + behind == before + (tag + (inner + behind))
  {
  }

  lemma SameTrim(inner: string, behind: string)
    requires Blank(behind)
    ensures Trim(inner + behind) == Trim(inner)
  {
    BlankAround("", inner, behind);
    assert "" + inner + behind == inner + behind;
  }

  lemma MarkedTag(text: string) returns (inner: string)
    requires MarkOf(text).Tag?
    ensures Trim(text) == TAG + inner && MarkOf(text).kind == Trim(inner)
  {
    var t := Trim(text);
    inner := t[|TAG|..];
    assert t == t[..|TAG|] + inner;
  }

  lemma TagIsTagged(text: string) returns (rest: string)
    requires MarkOf(text).Tag?
    ensures Tagged(text, rest) && Trim(rest) == MarkOf(text).kind
  {
    var inner := MarkedTag(text);
    var before, behind := TrimIsMiddle(text);
    Regroup(before, TAG, inner, behind);
    SameTrim(inner, behind);
    rest := inner + behind;
  }

  /** A line is a marker exactly when it is the marker's text with nothing but white space around it; a tag's kind is what
      follows the tag, trimmed. */
  lemma MarkIs(text: string)
    ensures MarkOf(text) == Begin <==> Padded(text, "// ---" + " Testnizer Tests tab assertions (generated)" + " ---")
    ensures MarkOf(text) == End <==> Padded(text, "// ---" + " end Testnizer Tests tab assertions" + " ---")
    ensures forall kind :: MarkOf(text) == Tag(kind) <==> exists rest: string :: Tagged(text, rest) && Trim(rest) == kind
  {
    MarkerEnds();
    TrimIff(text, BEGIN);
    TrimIff(text, END);
    forall kind
      ensures MarkOf(text) == Tag(kind) <==> exists rest: string :: Tagged(text, rest) && Trim(rest) == kind
    {
      if MarkOf(text) == Tag(kind) {
        var rest := TagIsTagged(text);
      }
      if rest: string :| Tagged(text, rest) && Trim(rest) == kind {
        TaggedMark(text, rest);
      }
    }
  }

  // ---- The block, line by line ----

  lemma {:induction false} EnabledAppend(a: seq<Row>, b: seq<Row>)
    ensures Enabled(a + b) == Enabled(a) + Enabled(b)
  {
    if a == [] {
      assert a + b == b;
    } else {
      assert (a + b)[1..] == a[1..] + b;
      EnabledAppend(a[1..], b);
    }
  }

  /** A row that is switched off leaves no trace in the script. */
  lemma SwitchedOff(a: seq<Row>, row: Row, b: seq<Row>, helper: seq<string>)
    requires !row.enabled
    ensures GeneratedBlock(a + [row] + b, helper) == GeneratedBlock(a + b, helper)
  {
    EnabledAppend(a + [row], b);
    EnabledAppend(a, [row]);
    EnabledAppend(a, b);
    assert Enabled([row]) == [] by {
      assert [row][1..] == [];
    }
    assert Enabled(a) + [] == Enabled(a);
  }

  lemma {:induction false} AllEnabled(rows: seq<Row>)
    requires forall i :: 0 <= i < |rows| ==> rows[i].enabled
    ensures Enabled(rows) == rows
  {
    if rows == [] {
    } else {
      AllEnabled(rows[1..]);
    }
  }

  lemma {:induction false} AnyJsonPathIff(rows: seq<Row>)
    ensures AnyJsonPath(rows) <==> exists i :: 0 <= i < |rows| && rows[i].kind == "body_jsonpath"
  {
    if rows == [] {
    } else {
      AnyJsonPathIff(rows[1..]);
      assert forall i :: 0 < i < |rows| ==> rows[i] == rows[1..][i - 1];
      if AnyJsonPath(rows[1..]) {
        var i :| 0 <= i < |rows[1..]| && rows[1..][i].kind == "body_jsonpath";
        assert rows[i + 1].kind == "body_jsonpath";
      }
    }
  }

  lemma {:induction false} RowTextAt(rows: seq<Row>, i: nat)
    requires i < |rows|
    ensures |RowTexts(rows)| == 2 * |rows|
    ensures RowTexts(rows)[2 * i] == "// tn-assert:" + rows[i].kind && RowTexts(rows)[2 * i + 1] == rows[i].line
  {
    RowTextCount(rows);
    if i == 0 {
    } else {
      RowTextAt(rows[1..], i - 1);
    }
  }

  lemma {:induction false} RowTextCount(rows: seq<Row>)
    ensures |RowTexts(rows)| == 2 * |rows|
  {
    if rows == [] {
    } else {
      RowTextCount(rows[1..]);
    }
  }

  /** The tag line of each row, and its own line behind it. */
  predicate TwoLinesEach(lines: seq<string>, rows: seq<Row>) {
    && |lines| == 2 * |rows|
    && forall i :: 0 <= i < |rows| ==> lines[2 * i] == "// tn-assert:" + rows[i].kind && lines[2 * i + 1] == rows[i].line
  }

  /** Rows that are all switched on are written in order into one block, and no rows into none; the JSON path helper is
      there exactly when some row needs it. */
  lemma SwitchedOn(rows: seq<Row>, helper: seq<string>) returns (lines: seq<string>)
    requires forall i :: 0 <= i < |rows| ==> rows[i].enabled
    ensures TwoLinesEach(lines, rows)
    ensures rows == [] ==> GeneratedBlock(rows, helper) == ""
    ensures rows != [] ==>
              GeneratedBlock(rows, helper) ==
              JoinWith(["// ---" + " Testnizer Tests tab assertions (generated)" + " ---", ";(function () {"]
                       + (if exists i :: 0 <= i < |rows| && rows[i].kind == "body_jsonpath" then helper else [])
                       + lines + ["})();", "// ---" + " end Testnizer Tests tab assertions" + " ---"], '\n')
  {
    AllEnabled(rows);
    AnyJsonPathIff(rows);
    lines := RowTexts(rows);
    RowTextCount(rows);
    forall i | 0 <= i < |rows|
      ensures lines[2 * i] == "// tn-assert:" + rows[i].kind && lines[2 * i + 1] == rows[i].line
    {
      RowTextAt(rows, i);
    }
  }

  lemma {:induction false} EnabledIsEmptyIff(rows: seq<Row>)
    ensures Enabled(rows) == [] <==> forall i :: 0 <= i < |rows| ==> !rows[i].enabled
  {
    if rows == [] {
    } else {
      EnabledIsEmptyIff(rows[1..]);
      assert forall i :: 0 < i < |rows| ==> rows[i] == rows[1..][i - 1];
      if Enabled(rows) == [] {
        assert !rows[0].enabled;
      }
    }
  }

  lemma BlockIsNotEmpty(helper: seq<string>, rows: seq<Row>)
    ensures JoinWith(BlockTexts(helper, rows), '\n') != ""
  {
    var texts := BlockTexts(helper, rows);
    MarkerEnds();
    assert texts[0] == BEGIN && |texts| > 1;
    assert JoinWith(texts, '\n')[..|BEGIN|] == BEGIN;
  }

  /** The block goes in front of the user's script, on lines of its own; without a row that is switched on the script is
      the user's alone, and a blank one is none. */
  lemma ScriptIs(postScript: string, rows: seq<Row>, helper: seq<string>)
    ensures var block := GeneratedBlock(rows, helper);
            && (block == "" <==> forall i :: 0 <= i < |rows| ==> !rows[i].enabled)
            && WithAssertionScript(postScript, rows, helper) ==
               if block == "" then (if Blank(postScript) then None else Some(postScript))
               else Some(if Blank(postScript) then block else block + "\n" + postScript)
  {
    EnabledIsEmptyIff(rows);
    BlockIsNotEmpty(Helper(Enabled(rows), helper), Enabled(rows));
  }
}
