/** `utf8Length` in `realtime.ts`: UTF-8 bytes counted over the UTF-16 units a JavaScript string is made of. */
module Utf8Length {
  type Unit = u: nat | u < 0x10000

  predicate IsHigh(u: Unit) {
    0xD800 <= u <= 0xDBFF
  }

  predicate IsLow(u: Unit) {
    0xDC00 <= u <= 0xDFFF
  }

  /** A high half has 110110 as its upper six bits, a low half 110111. */
  lemma Halves(u: Unit)
    ensures IsHigh(u) <==> u as int / 0x400 == 0x36
    ensures IsLow(u) <==> u as int / 0x400 == 0x37
  {
  }

  /** UTF-8 bytes of a unit that is no half of a pair; a half on its own is written as U+FFFD, three bytes. */
  function SizeAlone(u: Unit): nat {
    if u < 0x80 then 1 else if u < 0x800 then 2 else 3
  }

  /** What encoding the units from `i` on gives: a pair is one code point of four bytes. */
  function EncodedSize(text: seq<Unit>, i: nat): nat
    requires i <= |text|
    decreases |text| - i
  {
    if i == |text| then 0
    else if IsHigh(text[i]) && i + 1 < |text| && IsLow(text[i + 1]) then 4 + EncodedSize(text, i + 2)
    else SizeAlone(text[i]) + EncodedSize(text, i + 1)
  }

  /** What the loop counts: every high half takes the unit behind it along, whatever that is. */
  function Counted(text: seq<Unit>, i: nat): nat
    decreases |text| - i
  {
    if i >= |text| then 0
    else if IsHigh(text[i]) then 4 + Counted(text, i + 2)
    else SizeAlone(text[i]) + Counted(text, i + 1)
  }

  method Utf8Length(text: seq<Unit>) returns (n: nat)
    ensures n == Counted(text, 0)
  {
    n := 0;
    var i := 0;
    while i < |text|
      invariant n + Counted(text, i) == Counted(text, 0)
      decreases |text| - i
    {
      var c := text[i];
      if c < 0x80 {
        n := n + 1;
      } else if c < 0x800 {
        n := n + 2;
      } else if 0xD800 <= c && c <= 0xDBFF {
        n := n + 4;
        i := i + 1;
      } else {
        n := n + 3;
      }
      i := i + 1;
    }
  }

  // ---- Exactly how far the count is off ----

  /** A high half without a low half behind it. */
  predicate IsLone(text: seq<Unit>, i: nat)
    requires i < |text|
  {
    IsHigh(text[i]) && !(i + 1 < |text| && IsLow(text[i + 1]))
  }

  /**
   * What the lone high halves from `i` on add to the count: one at the end of the text; nothing in front of an ASCII
   * unit or a pair; and less than nothing in front of anything else, since the loop passes over it.
   */
  function Drift(text: seq<Unit>, i: nat): int
    requires i <= |text|
    decreases |text| - i
  {
    if i == |text| then 0
    else if !IsHigh(text[i]) then Drift(text, i + 1)
    else if i + 1 == |text| then 1
    else if IsLow(text[i + 1]) then Drift(text, i + 2)
    else if IsHigh(text[i + 1]) && !IsLone(text, i + 1) then Drift(text, i + 3)
    else 1 - SizeAlone(text[i + 1]) + Drift(text, i + 2)
  }

  /** On every text the count is the size of its UTF-8 encoding plus the drift of its lone high halves. */
  lemma {:induction false} CountIsSizePlusDrift(text: seq<Unit>, i: nat)
    requires i <= |text|
    ensures Counted(text, i) == EncodedSize(text, i) + Drift(text, i)
    decreases |text| - i
  {
    if i == |text| {
    } else if !IsHigh(text[i]) {
      CountIsSizePlusDrift(text, i + 1);
    } else if i + 1 == |text| {
    } else if IsLow(text[i + 1]) {
      CountIsSizePlusDrift(text, i + 2);
    } else if IsHigh(text[i + 1]) && !IsLone(text, i + 1) {
      CountIsSizePlusDrift(text, i + 3);
      assert Counted(text, i) == 4 + (3 + Counted(text, i + 3));
      assert EncodedSize(text, i) == 3 + (4 + EncodedSize(text, i + 3));
    } else {
      CountIsSizePlusDrift(text, i + 2);
      assert EncodedSize(text, i + 1) == SizeAlone(text[i + 1]) + EncodedSize(text, i + 2);
    }
  }

  /** The count of a text is right if and only if its lone high halves cancel out. */
  lemma {:induction false} CountedExactly(text: seq<Unit>)
    ensures Counted(text, 0) == EncodedSize(text, 0) <==> Drift(text, 0) == 0
  {
    CountIsSizePlusDrift(text, 0);
  }

  lemma {:induction false} NoLoneNoDrift(text: seq<Unit>, i: nat)
    requires i <= |text| && forall k :: i <= k < |text| ==> !IsLone(text, k)
    ensures Drift(text, i) == 0
    decreases |text| - i
  {
    if i == |text| {
    } else if IsHigh(text[i]) {
      assert !IsLone(text, i);
      NoLoneNoDrift(text, i + 2);
    } else {
      NoLoneNoDrift(text, i + 1);
    }
  }

  /** On text without a lone high half the count is the size of its UTF-8 encoding; a lone low half does no harm. */
  lemma {:induction false} CountIsSize(text: seq<Unit>)
    requires forall k :: 0 <= k < |text| ==> !IsLone(text, k)
    ensures Counted(text, 0) == EncodedSize(text, 0)
  {
    NoLoneNoDrift(text, 0);
    CountIsSizePlusDrift(text, 0);
  }

  lemma {:induction false} DriftOfOne(text: seq<Unit>, k: nat, i: nat)
    requires i <= k < |text| && IsLone(text, k)
    requires forall j :: 0 <= j < |text| && j != k ==> !IsLone(text, j)
    ensures Drift(text, i) == 0 <==> k + 1 < |text| && (text[k + 1] < 0x80 || IsHigh(text[k + 1]))
    decreases k - i
  {
    if i == k {
      assert k + 2 <= |text| ==> forall j :: k + 2 <= j < |text| ==> !IsLone(text, j);
      if k + 1 < |text| {
        if IsHigh(text[k + 1]) {
          assert !IsLone(text, k + 1);
          NoLoneNoDrift(text, k + 3);
        } else {
          NoLoneNoDrift(text, k + 2);
        }
      }
    } else if IsHigh(text[i]) {
      assert !IsLone(text, i) && i + 1 != k;
      DriftOfOne(text, k, i + 2);
    } else {
      DriftOfOne(text, k, i + 1);
    }
  }

  /** A text with one lone high half, wherever it stands, is counted right exactly when ASCII or a pair follows it. */
  lemma {:induction false} OneLoneHigh(text: seq<Unit>, k: nat)
    requires k < |text| && IsLone(text, k)
    requires forall j :: 0 <= j < |text| && j != k ==> !IsLone(text, j)
    ensures Counted(text, 0) == EncodedSize(text, 0) <==>
            k + 1 < |text| && (text[k + 1] < 0x80 || IsHigh(text[k + 1]))
  {
    DriftOfOne(text, k, 0);
    CountIsSizePlusDrift(text, 0);
  }

  /** It can go either way: one too many at the end, too few in front of a longer character, and the two can cancel. */
  lemma {:induction false} LoneHighIsMiscounted()
    ensures Counted([0xD800], 0) == EncodedSize([0xD800], 0) + 1
    ensures Counted([0xD800, 0xE9], 0) + 1 == EncodedSize([0xD800, 0xE9], 0)
    ensures Counted([0xD800, 0xE9, 0xD800], 0) == EncodedSize([0xD800, 0xE9, 0xD800], 0)
  {
    CountIsSizePlusDrift([0xD800], 0);
    CountIsSizePlusDrift([0xD800, 0xE9], 0);
    var both: seq<Unit> := [0xD800, 0xE9, 0xD800];
    CountIsSizePlusDrift(both, 0);
    assert Drift(both, 2) == 1 && Drift(both, 0) == 1 - 2 + Drift(both, 2);
  }
}
