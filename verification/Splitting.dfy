/** `split` and `join` with a one-character separator. */
module Splitting {
  import opened Sequences

  function SplitAt(t: string, sep: char): (parts: seq<string>)
    ensures |parts| > 0
  {
    if t == [] then [""]
    else
      var rest := SplitAt(t[1..], sep);
      if t[0] == sep then [""] + rest else [[t[0]] + rest[0]] + rest[1..]
  }

  function JoinWith(parts: seq<string>, sep: char): string {
    if parts == [] then "" else if |parts| == 1 then parts[0] else parts[0] + [sep] + JoinWith(parts[1..], sep)
  }

  predicate NoneHas(parts: seq<string>, sep: char) {
    parts == [] || (sep !in parts[0] && NoneHas(parts[1..], sep))
  }

  lemma {:induction false} Glued(a: string, b: string, c: string, d: string)
    ensures a + b + c + d == a + (b + c + d)
  {
  }

  lemma {:induction false} ConsCons(head: string, parts: seq<string>)
    ensures ([head] + parts)[0] == head && ([head] + parts)[1..] == parts
  {
  }

  lemma {:induction false} JoinHead(c: char, parts: seq<string>, sep: char)
    requires |parts| > 0
    ensures JoinWith([[c] + parts[0]] + parts[1..], sep) == [c] + JoinWith(parts, sep)
  {
    ConsCons([c] + parts[0], parts[1..]);
    if |parts| > 1 {
      Glued([c], parts[0], [sep], JoinWith(parts[1..], sep));
    }
  }

  lemma {:induction false} JoinEmptyHead(parts: seq<string>, sep: char)
    requires |parts| > 0
    ensures JoinWith([""] + parts, sep) == [sep] + JoinWith(parts, sep)
  {
    ConsCons("", parts);
    assert "" + [sep] + JoinWith(parts, sep) == [sep] + JoinWith(parts, sep);
  }

  /** Joining what was split gives the text back. */
  lemma {:induction false} JoinOfSplit(t: string, sep: char)
    ensures JoinWith(SplitAt(t, sep), sep) == t
  {
    if t == [] {
    } else {
      JoinOfSplit(t[1..], sep);
      var rest := SplitAt(t[1..], sep);
      assert t == [t[0]] + t[1..];
      if t[0] == sep {
        JoinEmptyHead(rest, sep);
      } else {
        JoinHead(t[0], rest, sep);
      }
    }
  }

  lemma {:induction false} SplitIsClean(t: string, sep: char)
    ensures NoneHas(SplitAt(t, sep), sep)
    ensures sep in t ==> |SplitAt(t, sep)| > 1
  {
    if t != [] {
      SplitIsClean(t[1..], sep);
      var rest := SplitAt(t[1..], sep);
      if t[0] == sep {
        ConsCons("", rest);
      } else {
        ConsCons([t[0]] + rest[0], rest[1..]);
      }
    } else {
      assert [""][1..] == [];
    }
  }

  lemma {:induction false} SplitOne(t: string, sep: char)
    requires sep !in t
    ensures SplitAt(t, sep) == [t]
  {
    if t == [] {
    } else {
      SplitOne(t[1..], sep);
      assert t == [t[0]] + t[1..];
    }
  }

  lemma {:induction false} SplitFirst(a: string, b: string, sep: char)
    requires sep !in a
    ensures SplitAt(a + [sep] + b, sep) == [a] + SplitAt(b, sep)
  {
    var t := a + [sep] + b;
    if a == "" {
      assert t[1..] == b;
    } else {
      SplitFirst(a[1..], b, sep);
      assert t[1..] == a[1..] + [sep] + b;
      ConsCons(a[1..], SplitAt(b, sep));
      assert [a[0]] + a[1..] == a;
    }
  }

  /** Splitting what was joined gives the parts back. */
  lemma {:induction false} SplitOfJoin(parts: seq<string>, sep: char)
    requires parts != [] && NoneHas(parts, sep)
    ensures SplitAt(JoinWith(parts, sep), sep) == parts
  {
    if |parts| == 1 {
      SplitOne(parts[0], sep);
    } else {
      SplitOfJoin(parts[1..], sep);
      SplitFirst(parts[0], JoinWith(parts[1..], sep), sep);
    }
  }

  lemma {:induction false} NoneHasAppend(a: seq<string>, b: seq<string>, sep: char)
    ensures NoneHas(a + b, sep) <==> NoneHas(a, sep) && NoneHas(b, sep)
  {
    if a == [] {
      assert a + b == b;
    } else {
      AppendSlices(a, b);
      NoneHasAppend(a[1..], b, sep);
    }
  }

  lemma {:induction false} JoinAppend(a: seq<string>, b: seq<string>, sep: char)
    requires a != [] && b != []
    ensures JoinWith(a + b, sep) == JoinWith(a, sep) + [sep] + JoinWith(b, sep)
  {
    AppendSlices(a, b);
    if |a| > 1 {
      JoinAppend(a[1..], b, sep);
      assert JoinWith(a + b, sep) == a[0] + [sep] + (JoinWith(a[1..], sep) + [sep] + JoinWith(b, sep));
      Regrouped(a[0] + [sep], JoinWith(a[1..], sep), [sep]);
      Regrouped(a[0] + [sep], JoinWith(a[1..], sep) + [sep], JoinWith(b, sep));
    } else {
      assert a[1..] + b == b;
    }
  }
}
