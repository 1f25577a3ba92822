/** File names of the pre-migration copies in `pre-migration-backup.ts`: `testnizer.db.<label>.<timestamp>`. */
module BackupNames {
  import opened Decimals
  import opened Options
  import opened JsText

  datatype Build = Build(version: string, build: string)

  datatype BackupName = BackupName(tag: string, timestamp: nat)

  const PREFIX := "testnizer.db."
  const PARTIAL := ".partial"

  predicate IsLabelChar(c: char) {
    IsDigit(c) || 'A' <= c <= 'Z' || 'a' <= c <= 'z' || c == '.' || c == '_' || c == '-'
  }

  predicate IsLabel(s: string) {
    s != "" && forall i :: 0 <= i < |s| ==> IsLabelChar(s[i])
  }

  // ---- Writing and reading a name ----

  /** Every character a file name should not hold becomes `_`. */
  function Sanitized(s: string): (r: string)
    ensures |r| == |s|
    ensures forall i :: 0 <= i < |s| ==> IsLabelChar(r[i]) && (IsLabelChar(s[i]) ==> r[i] == s[i])
  {
    if s == "" then "" else [if IsLabelChar(s[0]) then s[0] else '_'] + Sanitized(s[1..])
  }

  function BackupLabel(build: Build): (tag: string)
    ensures IsLabel(tag)
  {
    Sanitized(build.version + "-" + build.build)
  }

  function Name(tag: string, timestamp: nat): string {
    PREFIX + tag + "." + Decimal(timestamp)
  }

  function PartialName(tag: string, timestamp: nat): string {
    Name(tag, timestamp) + PARTIAL
  }

  /** The position just behind the last dot of `s[..n]`; 0 when there is none. */
  function AfterLastDot(s: string, n: nat): (k: nat)
    requires n <= |s|
    ensures k <= n
  {
    if n == 0 || s[n - 1] == '.' then n else AfterLastDot(s, n - 1)
  }

  /**
   * The pattern of a backup's name. Its last part holds digits only, so the greedy label ends at the last dot.
   */
  function ParseName(name: string): Option<BackupName> {
    if StartsWith(name, PREFIX) then ParseRest(name[|PREFIX|..]) else None
  }

  function ParseRest(rest: string): Option<BackupName> {
    var k := AfterLastDot(rest, |rest|);
    if k == 0 || !IsLabel(rest[..k - 1]) || k == |rest| || !AllDigits(rest[k..]) then None
    else Some(BackupName(rest[..k - 1], Value(rest[k..])))
  }

  lemma {:induction false} DotIsWhereItIs(tag: string, digits: string, n: nat)
    requires AllDigits(digits) && |tag| < n <= |tag| + 1 + |digits|
    ensures AfterLastDot(tag + "." + digits, n) == |tag| + 1
  {
    var s := tag + "." + digits;
    if n == |tag| + 1 {
      assert s[n - 1] == '.';
    } else {
      assert s[n - 1] == digits[n - 2 - |tag|];
      DotIsWhereItIs(tag, digits, n - 1);
    }
  }

  lemma RestReadsBack(tag: string, digits: string)
    requires IsLabel(tag) && digits != "" && AllDigits(digits)
    ensures ParseRest(tag + "." + digits) == Some(BackupName(tag, Value(digits)))
  {
    var rest := tag + "." + digits;
    DotIsWhereItIs(tag, digits, |rest|);
    assert rest[..|tag|] == tag;
    assert rest[|tag| + 1..] == digits;
  }

  lemma NameHasPrefix(tag: string, digits: string)
    ensures var name := PREFIX + tag + "." + digits;
            StartsWith(name, PREFIX) && name[|PREFIX|..] == tag + "." + digits
  {
    assert PREFIX + tag + "." + digits == PREFIX + (tag + "." + digits);
  }

  /** A name is read back as the label and the timestamp it was made of, dots in the label included. */
  lemma NameReadsBack(tag: string, timestamp: nat)
    requires IsLabel(tag)
    ensures ParseName(Name(tag, timestamp)) == Some(BackupName(tag, timestamp))
  {
    NameHasPrefix(tag, Decimal(timestamp));
    RestReadsBack(tag, Decimal(timestamp));
    DecimalReadsBack(timestamp);
  }

  /** A half-written file never counts as a backup, whatever its name was before `.partial`. */
  lemma PartialNeverCounts(name: string)
    ensures ParseName(name + PARTIAL) == None
  {
    var whole := name + PARTIAL;
    if StartsWith(whole, PREFIX) {
      var rest := whole[|PREFIX|..];
      var k := AfterLastDot(rest, |rest|);
      assert whole[|whole| - 1] == 'l';
      assert PREFIX[|PREFIX| - 1] == '.';
      if k < |rest| {
        assert rest[|rest| - 1] == 'l' && !IsDigit('l');
        assert rest[k..][|rest| - k - 1] == 'l';
      }
    }
  }

  // ---- The pattern and the label, character by character ----

  /** `[0-9A-Za-z._-]`. */
  predicate InClass(c: char) {
    '0' <= c <= '9' || 'A' <= c <= 'Z' || 'a' <= c <= 'z' || c in "._-"
  }

  /** `^testnizer\.db\.([0-9A-Za-z._-]+)\.(\d+)$` with its two groups. */
  predicate Matches(name: string, tag: string, digits: string) {
    && name == "testnizer.db." + tag + "." + digits
    && tag != "" && (forall i :: 0 <= i < |tag| ==> InClass(tag[i]))
    && digits != "" && (forall i :: 0 <= i < |digits| ==> '0' <= digits[i] <= '9')
  }

  lemma Classes(c: char)
    ensures IsLabelChar(c) <==> InClass(c)
  {
  }

  lemma MatchReads(name: string, tag: string, digits: string)
    requires Matches(name, tag, digits)
    ensures AllDigits(digits) && ParseName(name) == Some(BackupName(tag, Value(digits)))
  {
    forall i | 0 <= i < |tag|
      ensures IsLabelChar(tag[i])
    {
      Classes(tag[i]);
    }
    NameHasPrefix(tag, digits);
    RestReadsBack(tag, digits);
  }

  lemma {:induction false} LastDotIsOne(s: string, n: nat)
    requires n <= |s|
    ensures AfterLastDot(s, n) > 0 ==> s[AfterLastDot(s, n) - 1] == '.'
  {
    if n == 0 || s[n - 1] == '.' {
    } else {
      LastDotIsOne(s, n - 1);
    }
  }

  lemma ReadMatches(name: string) returns (digits: string)
    requires ParseName(name).Some?
    ensures Matches(name, ParseName(name).value.tag, digits)
    ensures AllDigits(digits) && Value(digits) == ParseName(name).value.timestamp
  {
    var rest := name[|PREFIX|..];
    var k := AfterLastDot(rest, |rest|);
    LastDotIsOne(rest, |rest|);
    var tag := rest[..k - 1];
    digits := rest[k..];
    assert rest == tag + "." + digits;
    assert name == PREFIX + rest;
    assert "testnizer.db." + tag + "." + digits == PREFIX + (tag + "." + digits);
    forall i | 0 <= i < |tag|
      ensures InClass(tag[i])
    {
      Classes(tag[i]);
    }
  }

  /** A name counts as a backup exactly when it matches the pattern, and is read as the two groups. */
  lemma PatternIff(name: string, b: BackupName)
    ensures ParseName(name) == Some(b) <==>
            exists digits :: Matches(name, b.tag, digits) && AllDigits(digits) && Value(digits) == b.timestamp
  {
    if ParseName(name) == Some(b) {
      var digits := ReadMatches(name);
    }
    forall digits | Matches(name, b.tag, digits)
      ensures AllDigits(digits) && ParseName(name) == Some(BackupName(b.tag, Value(digits)))
    {
      MatchReads(name, b.tag, digits);
    }
  }

  lemma {:induction false} SanitizedAt(s: string, i: nat)
    requires i < |s|
    ensures Sanitized(s)[i] == if InClass(s[i]) then s[i] else '_'
  {
    Classes(s[0]);
    if i == 0 {
    } else {
      SanitizedAt(s[1..], i - 1);
    }
  }

  /** The label is `<version>-<build>` with every character outside the class written as `_`. */
  lemma LabelAt(build: Build, i: nat)
    requires i < |build.version| + 1 + |build.build|
    ensures var plain := build.version + "-" + build.build;
            |BackupLabel(build)| == |plain| && BackupLabel(build)[i] == if InClass(plain[i]) then plain[i] else '_'
  {
    SanitizedAt(build.version + "-" + build.build, i);
  }

  /** Two different builds can share a label; the second one then finds a copy "of its own" already there. */
  lemma LabelsCanCollide()
    ensures Build("1-2", "3") != Build("1", "2-3")
    ensures BackupLabel(Build("1-2", "3")) == BackupLabel(Build("1", "2-3"))
  {
    assert "1-2" + "-" + "3" == "1" + "-" + "2-3";
  }

  predicate AllLabelChars(s: string) {
    forall i :: 0 <= i < |s| ==> IsLabelChar(s[i])
  }

  /** Builds whose parts are safe in a file name, with no dash in the build id, never share a label. */
  lemma LabelsTellBuildsApart(a: Build, b: Build)
    requires AllLabelChars(a.version) && AllLabelChars(a.build) && '-' !in a.build
    requires AllLabelChars(b.version) && AllLabelChars(b.build) && '-' !in b.build
    ensures BackupLabel(a) == BackupLabel(b) <==> a == b
  {
    SafeTextIsKept(a.version + "-" + a.build);
    SafeTextIsKept(b.version + "-" + b.build);
    if BackupLabel(a) == BackupLabel(b) {
      SameDash(a.version, a.build, b.version, b.build);
      SameDash(b.version, b.build, a.version, a.build);
      assert (a.version + "-" + a.build)[..|a.version|] == a.version;
      assert (b.version + "-" + b.build)[..|a.version|] == b.version;
      assert (a.version + "-" + a.build)[|a.version| + 1..] == a.build;
      assert (b.version + "-" + b.build)[|a.version| + 1..] == b.build;
    }
  }

  lemma {:induction false} SafeTextIsKept(s: string)
    requires AllLabelChars(s)
    ensures Sanitized(s) == s
  {
    if s == "" {
    } else {
      SafeTextIsKept(s[1..]);
      assert s == [s[0]] + s[1..];
    }
  }

  lemma SameDash(v1: string, b1: string, v2: string, b2: string)
    requires v1 + "-" + b1 == v2 + "-" + b2 && '-' !in b2
    ensures |v1| <= |v2|
  {
    var s := v1 + "-" + b1;
    assert s[|v1|] == '-';
    forall i | |v2| < i < |s|
      ensures s[i] != '-'
    {
      assert s[i] == b2[i - 1 - |v2|];
    }
  }
}
