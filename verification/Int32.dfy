/** JavaScript's bitwise operators: a number is taken as 32 bits, lowest first, and the result read as a signed number. */
module Int32 {
  const MODULUS := 0x1_0000_0000

  type Bits = seq<bool>

  type Word = w: Bits | |w| == 32 witness seq(32, i => false)

  function Zeros(n: nat): (b: Bits)
    ensures |b| == n && forall i :: 0 <= i < n ==> !b[i]
  {
    seq(n, i => false)
  }

  function Power(n: nat): (p: nat)
    ensures p > 0
  {
    if n == 0 then 1 else 2 * Power(n - 1)
  }

  function Number(b: Bits): nat {
    if b == [] then 0 else (if b[0] then 1 else 0) + 2 * Number(b[1..])
  }

  function BitsOf(x: nat, n: nat): (b: Bits)
    ensures |b| == n
    decreases n, x
  {
    if n == 0 then [] else [x % 2 == 1] + BitsOf(x / 2, n - 1)
  }

  /** The operand of a bitwise operator. */
  function ToWord(x: int): Word {
    BitsOf(x % MODULUS, 32)
  }

  function Signed(w: Word): int {
    if w[31] then Number(w) - MODULUS else Number(w)
  }

  function ShiftLeft(w: Word, k: nat): Word
    requires k <= 32
  {
    Zeros(k) + w[..32 - k]
  }

  /** `>>`: the sign bit comes in from above. */
  function ShiftRight(w: Word, k: nat): Word
    requires k <= 32
  {
    w[k..] + seq(k, i => w[31])
  }

  function Or(a: Word, b: Word): (r: Word)
    ensures forall i :: 0 <= i < 32 ==> r[i] == (a[i] || b[i])
  {
    seq(32, i requires 0 <= i < 32 => a[i] || b[i])
  }

  function And(a: Word, b: Word): (r: Word)
    ensures forall i :: 0 <= i < 32 ==> r[i] == (a[i] && b[i])
  {
    seq(32, i requires 0 <= i < 32 => a[i] && b[i])
  }

  // ---- Bits and numbers ----

  lemma {:induction false} NumberFits(b: Bits)
    ensures Number(b) < Power(|b|)
  {
    if b == [] {
    } else {
      NumberFits(b[1..]);
    }
  }

  lemma {:induction false} NumberAppend(a: Bits, b: Bits)
    ensures Number(a + b) == Number(a) + Power(|a|) * Number(b)
  {
    if a == [] {
      assert a + b == b;
    } else {
      assert (a + b)[0] == a[0] && (a + b)[1..] == a[1..] + b;
      NumberAppend(a[1..], b);
      Doubled(Power(|a| - 1), Number(b));
    }
  }

  lemma {:induction false} Doubled(p: nat, n: nat)
    ensures 2 * (p * n) == (2 * p) * n
  {
  }

  lemma {:induction false} ZerosAreNought(n: nat)
    ensures Number(Zeros(n)) == 0
  {
    if n == 0 {
    } else {
      assert Zeros(n)[1..] == Zeros(n - 1);
      ZerosAreNought(n - 1);
    }
  }

  lemma {:induction false} NumberOfBits(x: nat, n: nat)
    requires x < Power(n)
    ensures Number(BitsOf(x, n)) == x
    decreases n
  {
    if n == 0 {
    } else {
      NumberOfBits(x / 2, n - 1);
      assert BitsOf(x, n)[1..] == BitsOf(x / 2, n - 1);
    }
  }

  lemma {:induction false} BitsOfNumber(b: Bits)
    ensures BitsOf(Number(b), |b|) == b
  {
    if b == [] {
    } else {
      BitsOfNumber(b[1..]);
      assert [b[0]] + b[1..] == b;
    }
  }

  /** The bits of a small number are zero from some place on. */
  lemma {:induction false} SmallNumber(x: nat, k: nat, n: nat)
    requires k <= n && x < Power(k)
    ensures BitsOf(x, n) == BitsOf(x, k) + Zeros(n - k)
  {
    var b := BitsOf(x, k) + Zeros(n - k);
    NumberOfBits(x, k);
    NumberAppend(BitsOf(x, k), Zeros(n - k));
    ZerosAreNought(n - k);
    BitsOfNumber(b);
  }

  lemma {:induction false} Powers()
    ensures Power(2) == 4 && Power(4) == 16 && Power(6) == 64 && Power(8) == 256
    ensures Power(26) == 0x400_0000 && Power(31) == 0x8000_0000 && Power(32) == MODULUS
  {
    assert Power(8) == 256;
    assert Power(14) == 64 * Power(8);
    assert Power(20) == 64 * Power(14);
    assert Power(26) == 64 * Power(20);
    assert Power(31) == 32 * Power(26);
  }

  lemma {:induction false} NumberOfWord(x: int)
    ensures Number(ToWord(x)) == x % MODULUS
  {
    Powers();
    NumberOfBits(x % MODULUS, 32);
  }

  /** A word cut in two. */
  lemma {:induction false} NumberCut(b: Bits, k: nat)
    requires k <= |b|
    ensures Number(b) == Number(b[..k]) + Power(k) * Number(b[k..])
    ensures Number(b[..k]) < Power(k)
  {
    assert b == b[..k] + b[k..];
    NumberAppend(b[..k], b[k..]);
    NumberFits(b[..k]);
  }

  lemma {:induction false} SignedFits(w: Word)
    ensures -0x8000_0000 <= Signed(w) < 0x8000_0000
  {
    Powers();
    NumberCut(w, 31);
    assert w[31..] == [w[31]] && [w[31]][1..] == [];
  }

  // ---- `(buf << 6) | v` ----

  lemma {:induction false} OrFillsIn(w: Word, low: Bits, m: Word)
    requires |low| == 6 && m == low + Zeros(26)
    ensures Or(ShiftLeft(w, 6), m) == low + w[..26]
  {
    var r, joined := Or(ShiftLeft(w, 6), m), low + w[..26];
    forall i | 0 <= i < 32
      ensures r[i] == joined[i]
    {
      assert r[i] == (ShiftLeft(w, 6)[i] || m[i]);
    }
  }

  lemma {:induction false} SmallWord(v: nat, k: nat)
    requires k <= 32 && v < Power(k) <= MODULUS
    ensures ToWord(v) == BitsOf(v, k) + Zeros(32 - k)
  {
    assert v % MODULUS == v;
    SmallNumber(v, k, 32);
  }

  lemma {:induction false} OrJoins(w: Word, v: nat, k: nat)
    requires k == 6 && v < Power(k) <= MODULUS
    ensures Or(ShiftLeft(w, 6), ToWord(v)) == BitsOf(v, k) + w[..26]
  {
    SmallWord(v, k);
    OrFillsIn(w, BitsOf(v, k), ToWord(v));
  }

  /** Shifting in six bits multiplies by 64 and adds them, up to whole turns of the 32-bit circle. */
  lemma {:induction false} ShiftInSix(buf: int, v: nat) returns (turns: int)
    requires v < 64
    ensures Signed(Or(ShiftLeft(ToWord(buf), 6), ToWord(v))) == 64 * buf + v + MODULUS * turns
  {
    var w := ToWord(buf);
    var r := Or(ShiftLeft(w, 6), ToWord(v));
    Powers();
    OrJoins(w, v, 6);
    NumberAppend(BitsOf(v, 6), w[..26]);
    NumberOfBits(v, 6);
    NumberCut(w, 26);
    NumberOfWord(buf);
    assert Number(r) == v + 64 * Number(w[..26]);
    assert buf == Number(w) + MODULUS * (buf / MODULUS);
    turns := -64 * (buf / MODULUS) - Number(w[26..]) - if r[31] then 1 else 0;
  }

  // ---- `(buf >> k) & 0xff` ----

  lemma {:induction false} LowByteMask()
    ensures ToWord(255) == seq(8, i => true) + Zeros(24)
  {
    Powers();
    SmallWord(255, 8);
    assert BitsOf(255, 8) == seq(8, i => true) by {
      assert BitsOf(15, 4) == [true, true, true, true];
      assert BitsOf(255, 8) == [true, true, true, true] + BitsOf(15, 4);
    }
  }

  lemma {:induction false} MaskCuts(w: Word, k: nat, mask: Word)
    requires k <= 24 && mask == seq(8, i => true) + Zeros(24)
    ensures And(ShiftRight(w, k), mask) == w[k..k + 8] + Zeros(24)
  {
    var r, cut := And(ShiftRight(w, k), mask), w[k..k + 8] + Zeros(24);
    forall i | 0 <= i < 32
      ensures r[i] == cut[i]
    {
      assert r[i] == (ShiftRight(w, k)[i] && mask[i]);
      assert i < 8 ==> ShiftRight(w, k)[i] == w[k + i];
    }
  }

  lemma {:induction false} CutAsNumber(w: Word, k: nat)
    requires k <= 24
    ensures Signed(w[k..k + 8] + Zeros(24)) == Number(w[k..k + 8]) < 256
  {
    Powers();
    NumberAppend(w[k..k + 8], Zeros(24));
    ZerosAreNought(24);
    NumberFits(w[k..k + 8]);
  }

  lemma {:induction false} CutTwice(w: Word, k: nat) returns (low: nat, high: nat)
    requires k <= 24
    ensures low < Power(k) && Number(w) == low + Power(k) * (Number(w[k..k + 8]) + 256 * high)
  {
    Powers();
    NumberCut(w, k);
    NumberCut(w[k..], 8);
    assert w[k..][..8] == w[k..k + 8];
    low, high := Number(w[..k]), Number(w[k..][8..]);
  }

  lemma {:induction false} ByteAboveMasked(buf: int, k: nat, mask: Word)
    requires k == 0 || k == 2 || k == 4 || k == 6
    requires mask == seq(8, i => true) + Zeros(24)
    ensures Signed(And(ShiftRight(ToWord(buf), k), mask)) == buf / Power(k) % 256
  {
    var w := ToWord(buf);
    MaskCuts(w, k, mask);
    CutAsNumber(w, k);
    var low, high := CutTwice(w, k);
    NumberOfWord(buf);
    MiddleByte(buf, k, low, Number(w[k..k + 8]), high, buf / MODULUS);
  }

  /** The byte above the lowest `k` bits. */
  lemma {:induction false} ByteAbove(buf: int, k: nat)
    requires k == 0 || k == 2 || k == 4 || k == 6
    ensures Signed(And(ShiftRight(ToWord(buf), k), ToWord(255))) == buf / Power(k) % 256
  {
    LowByteMask();
    ByteAboveMasked(buf, k, ToWord(255));
  }

  lemma {:induction false} MiddleByte(x: int, k: nat, low: nat, byte: nat, high: nat, turns: int)
    requires k == 0 || k == 2 || k == 4 || k == 6
    requires low < Power(k) && byte < 256
    requires x == low + Power(k) * (byte + 256 * high) + MODULUS * turns
    ensures x / Power(k) % 256 == byte
  {
    Powers();
    if k == 0 {
      Remainder(x, byte, high + 0x100_0000 * turns);
    } else if k == 2 {
      assert x == 4 * (byte + 256 * (high + 0x40_0000 * turns)) + low;
      Remainder(x / 4, byte, high + 0x40_0000 * turns);
    } else if k == 4 {
      assert x == 16 * (byte + 256 * (high + 0x10_0000 * turns)) + low;
      Remainder(x / 16, byte, high + 0x10_0000 * turns);
    } else {
      assert x == 64 * (byte + 256 * (high + 0x4_0000 * turns)) + low;
      Remainder(x / 64, byte, high + 0x4_0000 * turns);
    }
  }

  lemma {:induction false} Remainder(x: int, r: nat, q: int)
    requires r < 256 && x == r + 256 * q
    ensures x % 256 == r
  {
  }
}
