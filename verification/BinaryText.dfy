/** The base64 and hex codecs of `realtime.ts`. */
module BinaryText {
  import opened Int32
  import opened JsText

  newtype byte = x: int | 0 <= x < 256

  datatype DecodeResult = Decoded(bytes: seq<byte>) | Invalid

  // ---- The alphabet (Table 1 of RFC 4648) ----

  type sextet = v: int | 0 <= v < 64

  /** `B64[v]`. */
  function Digit(v: sextet): (c: char)
    ensures Value(c) == v
  {
    if v < 26 then 'A' + v as char
    else if v < 52 then 'a' + (v - 26) as char
    else if v < 62 then '0' + (v - 52) as char
    else if v == 62 then '+' else '/'
  }

  /** `B64.indexOf(ch)`. */
  function Value(c: char): (v: int)
    ensures -1 <= v < 64
  {
    if 'A' <= c <= 'Z' then c as int - 'A' as int
    else if 'a' <= c <= 'z' then c as int - 'a' as int + 26
    else if '0' <= c <= '9' then c as int - '0' as int + 52
    else if c == '+' then 62
    else if c == '/' then 63
    else -1
  }

  // ---- Positional values: what both sides of the codec agree on ----

  /** The number the first `n` sextets spell in base 64. */
  function V6(s: seq<sextet>, n: nat): nat
    requires n <= |s|
  {
    if n == 0 then 0 else 64 * V6(s, n - 1) + s[n - 1]
  }

  /** The number the first `n` bytes spell in base 256. */
  function V8(b: seq<byte>, n: nat): nat
    requires n <= |b|
  {
    if n == 0 then 0 else 256 * V8(b, n - 1) + b[n - 1] as int
  }

  lemma {:induction false} V8Prefix(a: seq<byte>, b: seq<byte>, n: nat)
    requires n <= |a| && n <= |b| && forall i :: 0 <= i < n ==> a[i] == b[i]
    ensures V8(a, n) == V8(b, n)
  {
    if n == 0 {
    } else {
      V8Prefix(a, b, n - 1);
    }
  }

  lemma {:induction false} V6Prefix(a: seq<sextet>, b: seq<sextet>, n: nat)
    requires n <= |a| && n <= |b| && forall i :: 0 <= i < n ==> a[i] == b[i]
    ensures V6(a, n) == V6(b, n)
  {
    if n == 0 {
    } else {
      V6Prefix(a, b, n - 1);
    }
  }

  /** A number and a length determine the bytes. */
  lemma {:induction false} V8Injective(a: seq<byte>, b: seq<byte>, n: nat)
    requires n <= |a| && n <= |b| && V8(a, n) == V8(b, n)
    ensures forall i :: 0 <= i < n ==> a[i] == b[i]
  {
    if n == 0 {
    } else {
      V8Injective(a, b, n - 1);
    }
  }

  /** How many bits are left over when `n` sextets are cut into bytes. */
  function SlackBits(n: nat): (bits: nat)
    ensures Partial(bits)
  {
    6 * n % 8
  }

  /** The bytes spelled by the leading bits of `s`: floor(3n/4) of them, the slack bits dropped. */
  ghost predicate Spells(s: seq<sextet>, b: seq<byte>) {
    && |b| == |s| * 3 / 4
    && Shl(V8(b, |b|), SlackBits(|s|)) <= V6(s, |s|) < Shl(V8(b, |b|), SlackBits(|s|)) + Scale(SlackBits(|s|))
  }

  lemma SpellsUnique(s: seq<sextet>, a: seq<byte>, b: seq<byte>)
    requires Spells(s, a) && Spells(s, b)
    ensures a == b
  {
    assert V8(a, |a|) == V8(b, |b|);
    V8Injective(a, b, |a|);
  }

  // ---- 32-bit arithmetic of the decoder ----

  function ToInt32(x: int): (r: int)
    ensures -0x8000_0000 <= r < 0x8000_0000
    ensures (r - x) % 0x1_0000_0000 == 0
  {
    (x + 0x8000_0000) % 0x1_0000_0000 - 0x8000_0000
  }

  /** What `(buf << 6) | v` comes to: the six low bits of the shifted word are zero, so "or" adds. */
  function ShiftIn(buf: int, v: sextet): int {
    ToInt32(64 * buf + v)
  }

  /** What `(buf >> bits) & 0xff` comes to: an arithmetic shift rounds down, the mask keeps the low byte. */
  function ByteAt(buf: int, bits: nat): (b: byte)
    requires Partial(bits)
  {
    (buf / Scale(bits) % 256) as byte
  }

  /** How many bits of a byte may be waiting in the decoder. */
  predicate Partial(bits: nat) {
    bits == 0 || bits == 2 || bits == 4 || bits == 6
  }

  /** `2 ** bits`. */
  function Scale(bits: nat): (p: nat)
    requires Partial(bits)
    ensures p == 1 || p == 4 || p == 16 || p == 64
  {
    if bits == 0 then 1 else if bits == 2 then 4 else if bits == 4 then 16 else 64
  }

  function Shl(x: nat, bits: nat): nat
    requires Partial(bits)
  {
    if bits == 0 then x else if bits == 2 then 4 * x else if bits == 4 then 16 * x else 64 * x
  }

  function Low(buf: int, bits: nat): (r: nat)
    requires Partial(bits)
    ensures r < Scale(bits)
  {
    if bits == 0 then 0 else if bits == 2 then buf % 4 else if bits == 4 then buf % 16 else buf % 64
  }

  /** The decoder's state after reading the number `total`: the bytes written spell `high`, and the low
      `bits` bits of `buf` are what is still to come. The rest of `buf` is leftovers. */
  ghost predicate Holds(high: nat, buf: int, bits: nat, total: nat) {
    Partial(bits) && Shl(high, bits) + Low(buf, bits) == total
  }

  /** One turn of the decoder's loop when no byte is complete. */
  lemma TakeSextet(high: nat, buf: int, v: sextet, total: nat)
    requires Holds(high, buf, 0, total)
    ensures Holds(high, ShiftIn(buf, v), 6, 64 * total + v)
  {
    ShiftInLow(buf, v, 1);
  }

  /** One turn of the decoder's loop that completes a byte. */
  lemma TakeByte(high: nat, buf: int, bits: nat, v: sextet, total: nat)
    requires Partial(bits) && bits != 0 && Holds(high, buf, bits, total)
    ensures var next := ShiftIn(buf, v);
            Holds(256 * high + ByteAt(next, bits - 2) as int, next, bits - 2, 64 * total + v)
  {
    var next := ShiftIn(buf, v);
    ShiftInLow(buf, v, Scale(bits));
    ByteSplit(next, bits - 2);
  }

  /** The expression itself, on the word's bits. */
  method ShiftOr(buf: int, v: sextet) returns (r: int)
    ensures r == ShiftIn(buf, v)
  {
    var w := Or(ShiftLeft(ToWord(buf), 6), ToWord(v as int));
    r := Signed(w);
    ghost var turns := ShiftInSix(buf, v as int);
    SignedFits(w);
    OneInRange(64 * buf + v, r, turns);
  }

  lemma OneInRange(x: int, r: int, turns: int)
    requires r == x + 0x1_0000_0000 * turns && -0x8000_0000 <= r < 0x8000_0000
    ensures ToInt32(x) == r
  {
    var k := WrapAround(x);
    assert ToInt32(x) - r == 0x1_0000_0000 * (k - turns);
  }

  method ShiftMask(buf: int, bits: nat) returns (b: byte)
    requires Partial(bits)
    ensures b == ByteAt(buf, bits)
  {
    ByteAbove(buf, bits);
    assert Power(2) == 4 && Power(4) == 16 && Power(6) == 64;
    b := Signed(And(ShiftRight(ToWord(buf), bits), ToWord(255))) as byte;
  }

  lemma Mod64(x: int, q: int, r: nat)
    requires x == 64 * q + r && r < 64
    ensures x % 64 == r
  {
  }

  lemma Mod256(x: int, q: int, r: nat)
    requires x == 256 * q + r && r < 256
    ensures x % 256 == r
  {
  }

  lemma Mod1024(x: int, q: int, r: nat)
    requires x == 1024 * q + r && r < 1024
    ensures x % 1024 == r
  {
  }

  lemma Mod4096(x: int, q: int, r: nat)
    requires x == 4096 * q + r && r < 4096
    ensures x % 4096 == r
  {
  }

  lemma Mod16384(x: int, q: int, r: nat)
    requires x == 16384 * q + r && r < 16384
    ensures x % 16384 == r
  {
  }

  lemma WrapAround(x: int) returns (k: int)
    ensures ToInt32(x) == x + 0x1_0000_0000 * k
  {
    k := -((x + 0x8000_0000) / 0x1_0000_0000);
  }

  /** The bits that matter survive the wrap-around. */
  lemma ShiftInLow(buf: int, v: sextet, n: nat)
    requires n == 1 || n == 4 || n == 16 || n == 64
    ensures ShiftIn(buf, v) % (64 * n) == 64 * (buf % n) + v
  {
    var k := WrapAround(64 * buf + v);
    if n == 1 {
      Mod64(ShiftIn(buf, v), buf + 0x400_0000 * k, v);
    } else if n == 4 {
      Mod256(ShiftIn(buf, v), buf / 4 + 0x100_0000 * k, 64 * (buf % 4) + v);
    } else if n == 16 {
      Mod1024(ShiftIn(buf, v), buf / 16 + 0x40_0000 * k, 64 * (buf % 16) + v);
    } else {
      Mod4096(ShiftIn(buf, v), buf / 64 + 0x10_0000 * k, 64 * (buf % 64) + v);
    }
  }

  /** Cutting a byte off the top leaves the lower bits. */
  lemma ByteSplit(buf: int, bits: nat)
    requires Partial(bits)
    ensures buf % (256 * Scale(bits)) == Scale(bits) * (ByteAt(buf, bits) as int) + buf % Scale(bits)
  {
    var p := Scale(bits);
    var b := buf / p % 256;
    if bits == 0 {
    } else if bits == 2 {
      Mod1024(buf, buf / 4 / 256, 4 * b + buf % 4);
    } else if bits == 4 {
      Mod4096(buf, buf / 16 / 256, 16 * b + buf % 16);
    } else {
      Mod16384(buf, buf / 64 / 256, 64 * b + buf % 64);
    }
  }

  // ---- Decoding ----

  /** `text` without white space, the URL-safe digits replaced by the standard ones. */
  function Clean(text: string): string {
    if text == [] then []
    else if IsSpace(text[0]) then Clean(text[1..])
    else [if text[0] == '-' then '+' else if text[0] == '_' then '/' else text[0]] + Clean(text[1..])
  }

  /** `clean.replace(/=+$/, '')`. */
  function StripPadding(s: string): (r: string)
    ensures |r| <= |s|
  {
    if s != [] && s[|s| - 1] == '=' then StripPadding(s[..|s| - 1]) else s
  }

  predicate AllDigits(body: string) {
    forall i :: 0 <= i < |body| ==> Value(body[i]) >= 0
  }

  function Sextets(body: string): (s: seq<sextet>)
    requires AllDigits(body)
    ensures |s| == |body| && forall i :: 0 <= i < |body| ==> s[i] == Value(body[i])
  {
    seq(|body|, i requires 0 <= i < |body| => Value(body[i]))
  }

  /** What the decoder accepts: digits only, no lone digit in the last group, at most two `=`. */
  predicate Acceptable(text: string) {
    var body := StripPadding(Clean(text));
    AllDigits(body) && |body| % 4 != 1 && |Clean(text)| - |body| <= 2
  }

  /** The byte about to be written fits, and the last one fills the output. */
  lemma WriteIndex(i: nat, j: nat, n: nat)
    requires i <= n && 0 <= 6 * i - 8 * j
    ensures j <= n * 3 / 4
    ensures i == n && 6 * i - 8 * j < 8 ==> j == n * 3 / 4 && 6 * i - 8 * j == SlackBits(n)
  {
    var q, r := n * 3 / 4, n * 3 % 4;
    assert n * 3 == 4 * q + r;
    assert 4 * j <= 4 * q + r;
    if i == n && 6 * i - 8 * j < 8 {
      assert 4 * q + r < 4 * j + 4;
      assert j == q;
      assert 6 * n == 8 * j + 2 * r;
    }
  }

  /** The same state with the waiting bits named: `rest` is what the low bits of `buf` hold. */
  ghost predicate Waiting(buf: int, bits: nat, rest: nat) {
    Partial(bits) && rest == Low(buf, bits)
  }

  /** `buf = (buf << 6) | v; bits += 6; if (bits >= 8) { bits -= 8; ... (buf >> bits) & 0xff }`. */
  method Take(buf: int, bits: nat, v: sextet, ghost rest: nat)
    returns (buf': int, bits': nat, complete: bool, b: byte, ghost rest': nat)
    requires Waiting(buf, bits, rest)
    ensures Waiting(buf', bits', rest') && rest' < Scale(bits')
    ensures complete <==> bits != 0
    ensures bits' == if complete then bits - 2 else bits + 6
    ensures 64 * rest + v == (if complete then Shl(b as nat, bits') else 0) + rest'
  {
    buf' := ShiftOr(buf, v);
    bits', b := bits + 6, 0;
    complete := bits' >= 8;
    if complete {
      TakeByte(0, buf, bits, v, rest);
      bits' := bits' - 8;
      b := ShiftMask(buf', bits');
    } else {
      TakeSextet(0, buf, v, rest);
    }
    rest' := Low(buf', bits');
  }

  /** The decoder's loop over validated digits; every write lands inside the output and fills it. */
  method DecodeDigits(body: string) returns (bytes: seq<byte>)
    requires AllDigits(body)
    ensures Spells(Sextets(body), bytes)
  {
    ghost var s := Sextets(body);
    var out := new byte[|body| * 3 / 4];
    var buf, bits, j := 0, 0, 0;
    ghost var rest: nat := 0;
    for i := 0 to |body|
      invariant bits == 6 * i - 8 * j && 0 <= j <= out.Length
      invariant Waiting(buf, bits, rest) && rest < Scale(bits)
      invariant Shl(V8(out[..], j), bits) + rest == V6(s, i)
    {
      ghost var before := out[..];
      var complete, b;
      buf, bits, complete, b, rest := Take(buf, bits, Value(body[i]), rest);
      if complete {
        WriteIndex(i + 1, j + 1, |body|);
        out[j] := b;
        V8Prefix(before, out[..], j);
        j := j + 1;
      }
    }
    WriteIndex(|body|, j, |body|);
    bytes := out[..];
  }

  // ---- Encoding ----

  function Digits(s: seq<sextet>): (t: string)
    ensures |t| == |s| && forall i :: 0 <= i < |s| ==> t[i] == Digit(s[i])
  {
    seq(|s|, i requires 0 <= i < |s| => Digit(s[i]))
  }

  function Equals(k: nat): (t: string)
    ensures |t| == k && forall i :: 0 <= i < k ==> t[i] == '='
  {
    seq(k, _ => '=')
  }

  /** The bits of the bytes, completed with zero bits to whole sextets. */
  ghost predicate SixBits(s: seq<sextet>, bytes: seq<byte>) {
    && |s| == (8 * |bytes| + 5) / 6
    && V6(s, |s|) == Shl(V8(bytes, |bytes|), SlackBits(|s|))
  }

  /** Section 4 of RFC 4648: those sextets as digits, padded with `=` to a multiple of four. */
  ghost predicate IsBase64(text: string, bytes: seq<byte>) {
    exists s :: SixBits(s, bytes) && text == Digits(s) + Equals((4 - |s| % 4) % 4)
  }

  lemma Shifts(n: nat) returns (q: nat)
    requires n < 0x100_0000
    ensures n / 64 == 64 * (n / 4096) + n / 64 % 64
    ensures n / 4096 == 64 * (n / 262144) + n / 4096 % 64
    ensures n / 262144 < 64
  {
    q := n / 64;
    assert n == 4096 * (q / 64) + (64 * (q % 64) + n % 64);
    assert n / 4096 == q / 64;
    var q2 := n / 4096;
    assert n == 262144 * (q2 / 64) + (4096 * (q2 % 64) + n % 4096);
    assert n / 262144 == q2 / 64;
  }

  /** The four sextets of `(b0 << 16) | (b1 << 8) | b2`. */
  function Group(b0: byte, b1: byte, b2: byte): (g: seq<sextet>)
    ensures |g| == 4
  {
    var n := b0 as int * 65536 + b1 as int * 256 + b2 as int;
    [n / 262144 % 64, n / 4096 % 64, n / 64 % 64, n % 64]
  }

  /** Three bytes, two bytes and a zero, one byte and two zeros. */
  lemma GroupBits(b0: byte, b1: byte, b2: byte)
    ensures var g := Group(b0, b1, b2);
            262144 * (g[0] as int) + 4096 * (g[1] as int) + 64 * (g[2] as int) + g[3] as int ==
            65536 * (b0 as int) + 256 * (b1 as int) + b2 as int
  {
    var n := b0 as int * 65536 + b1 as int * 256 + b2 as int;
    var q := Shifts(n);
  }

  lemma LowZero(high: int, low: nat, x: int, m: nat)
    requires (m == 64 || m == 4096) && low < m && m * high + low == m * x
    ensures low == 0 && high == x
  {
  }

  lemma GroupOfTwo(b0: byte, b1: byte)
    ensures var g := Group(b0, b1, 0);
            4096 * (g[0] as int) + 64 * (g[1] as int) + g[2] as int == 4 * (256 * (b0 as int) + b1 as int)
  {
    var g := Group(b0, b1, 0);
    GroupBits(b0, b1, 0);
    LowZero(4096 * (g[0] as int) + 64 * (g[1] as int) + g[2] as int, g[3], 4 * (256 * (b0 as int) + b1 as int), 64);
  }

  lemma GroupOfOne(b0: byte)
    ensures var g := Group(b0, 0, 0);
            64 * (g[0] as int) + g[1] as int == 16 * (b0 as int)
  {
    var g := Group(b0, 0, 0);
    GroupBits(b0, 0, 0);
    LowZero(64 * (g[0] as int) + g[1] as int, 64 * (g[2] as int) + g[3] as int, 16 * (b0 as int), 4096);
  }

  /** How many of a group's sextets `left` remaining bytes need. */
  function Needed(left: nat): (k: nat)
    requires left > 0
    ensures 2 <= k <= 4
  {
    if left == 1 then 2 else if left == 2 then 3 else 4
  }

  /** `?? 0` behind the last byte. */
  function ByteOr0(bytes: seq<byte>, i: nat): byte {
    if i < |bytes| then bytes[i] else 0
  }

  /** The encoder before the group at `i`: whole groups done, or everything done. */
  ghost predicate Encoding(out: string, s: seq<sextet>, bytes: seq<byte>, i: nat) {
    if i <= |bytes| then i % 3 == 0 && |s| == i / 3 * 4 && V6(s, |s|) == V8(bytes, i) && out == Digits(s)
    else SixBits(s, bytes) && out == Digits(s) + Equals((4 - |s| % 4) % 4)
  }

  method BytesToBase64(bytes: seq<byte>) returns (out: string)
    ensures IsBase64(out, bytes)
  {
    out := "";
    ghost var s: seq<sextet> := [];
    var i := 0;
    while i < |bytes|
      invariant Encoding(out, s, bytes, i)
    {
      var g := Group(bytes[i], ByteOr0(bytes, i + 1), ByteOr0(bytes, i + 2));
      ghost var before := out;
      out := out + [Digit(g[0]), Digit(g[1])];
      out := out + [if i + 1 < |bytes| then Digit(g[2]) else '='];
      out := out + [if i + 2 < |bytes| then Digit(g[3]) else '='];
      EncodeGroup(before, s, bytes, i, g, out);
      s := s + g[..Needed(|bytes| - i)];
      i := i + 3;
    }
    EncodingDone(out, s, bytes, i);
  }

  lemma EncodingDone(out: string, s: seq<sextet>, bytes: seq<byte>, i: nat)
    requires Encoding(out, s, bytes, i) && i >= |bytes|
    ensures IsBase64(out, bytes)
  {
    if i == |bytes| {
      assert Equals(0) == [];
      assert out == Digits(s) + Equals((4 - |s| % 4) % 4);
      assert SixBits(s, bytes);
    }
  }

  lemma AppendTwo(s: seq<sextet>, a: sextet, b: sextet)
    ensures V6(s + [a, b], |s| + 2) == 4096 * V6(s, |s|) + 64 * (a as int) + b as int
  {
    V6Prefix(s + [a, b], s, |s|);
    assert V6(s + [a, b], |s| + 1) == 64 * V6(s, |s|) + a as int;
  }

  lemma AppendGroup(s: seq<sextet>, g: seq<sextet>)
    requires |g| == 3 || |g| == 4
    ensures |g| == 3 ==> V6(s + g, |s| + 3) == 262144 * V6(s, |s|) + 4096 * (g[0] as int) + 64 * (g[1] as int) + g[2] as int
    ensures |g| == 4 ==>
              V6(s + g, |s| + 4) ==
              16777216 * V6(s, |s|) + 262144 * (g[0] as int) + 4096 * (g[1] as int) + 64 * (g[2] as int) + g[3] as int
  {
    var t := s + g;
    AppendTwo(s, g[0], g[1]);
    V6Prefix(t, s + [g[0], g[1]], |s| + 2);
    assert V6(t, |s| + 3) == 64 * V6(t, |s| + 2) + g[2] as int;
  }

  lemma V8Two(bytes: seq<byte>, i: nat)
    requires i + 2 <= |bytes|
    ensures V8(bytes, i + 2) == 65536 * V8(bytes, i) + 256 * (bytes[i] as int) + bytes[i + 1] as int
  {
    assert V8(bytes, i + 1) == 256 * V8(bytes, i) + bytes[i] as int;
  }

  /** The numbers agree after each kind of group. */
  lemma EncodeNumbers(s: seq<sextet>, bytes: seq<byte>, i: nat, g: seq<sextet>)
    requires i < |bytes| && V6(s, |s|) == V8(bytes, i)
    requires g == Group(bytes[i], ByteOr0(bytes, i + 1), ByteOr0(bytes, i + 2))
    ensures var left := |bytes| - i;
            var t := s + g[..Needed(left)];
            V6(t, |t|) == if left == 1 then 16 * V8(bytes, i + 1) else if left == 2 then 4 * V8(bytes, i + 2) else V8(bytes, i + 3)
  {
    var left := |bytes| - i;
    if left == 1 {
      assert g[..2] == [g[0], g[1]];
      AppendTwo(s, g[0], g[1]);
      GroupOfOne(bytes[i]);
    } else if left == 2 {
      AppendGroup(s, g[..3]);
      V8Two(bytes, i);
      GroupOfTwo(bytes[i], bytes[i + 1]);
    } else {
      assert g[..4] == g;
      AppendGroup(s, g);
      V8Two(bytes, i);
      GroupBits(bytes[i], bytes[i + 1], bytes[i + 2]);
    }
  }

  lemma EncodeGroup(before: string, s: seq<sextet>, bytes: seq<byte>, i: nat, g: seq<sextet>, out: string)
    requires i < |bytes| && Encoding(before, s, bytes, i)
    requires g == Group(bytes[i], ByteOr0(bytes, i + 1), ByteOr0(bytes, i + 2))
    requires out == before + [Digit(g[0]), Digit(g[1])]
                    + [if i + 1 < |bytes| then Digit(g[2]) else '='] + [if i + 2 < |bytes| then Digit(g[3]) else '=']
    ensures Encoding(out, s + g[..Needed(|bytes| - i)], bytes, i + 3)
  {
    var left := |bytes| - i;
    var t := s + g[..Needed(left)];
    EncodeNumbers(s, bytes, i, g);
    EncodeText(before, s, g, left, out);
    GroupCount(i, |bytes|);
  }

  /** The digits of one group and its padding. */
  lemma EncodeText(before: string, s: seq<sextet>, g: seq<sextet>, left: nat, out: string)
    requires left > 0 && |g| == 4 && before == Digits(s)
    requires out == before + [Digit(g[0]), Digit(g[1])]
                    + [if left > 1 then Digit(g[2]) else '='] + [if left > 2 then Digit(g[3]) else '=']
    ensures out == Digits(s + g[..Needed(left)]) + Equals(4 - Needed(left))
  {
  }

  lemma GroupCount(i: nat, n: nat)
    requires i < n && i % 3 == 0
    ensures var k := i / 3 * 4 + Needed(n - i);
            n - i <= 3 ==> k == (8 * n + 5) / 6 && (4 - k % 4) % 4 == 4 - Needed(n - i)
                           && SlackBits(k) == (if n - i == 1 then 4 else if n - i == 2 then 2 else 0)
    ensures (i + 3) / 3 * 4 == i / 3 * 4 + 4
  {
  }

  // ---- Round trip, in every spelling ----

  lemma {:induction false} StripEquals(d: string, k: nat)
    requires d != [] ==> d[|d| - 1] != '='
    ensures StripPadding(d + Equals(k)) == d
    decreases k
  {
    var t := d + Equals(k);
    if k > 0 {
      assert t[..|t| - 1] == d + Equals(k - 1);
      StripEquals(d, k - 1);
    } else {
      assert t == d;
    }
  }

  lemma DigitsBack(s: seq<sextet>)
    ensures AllDigits(Digits(s)) && Sextets(Digits(s)) == s
    ensures s != [] ==> Digits(s)[|s| - 1] != '='
  {
    assert Value('=') == -1;
    assert forall i :: 0 <= i < |s| ==> Value(Digits(s)[i]) == s[i];
  }

  // ---- What the decoder accepts, character by character ----

  const B64 := "ABCDEFGHIJKLMNOPQRSTUVWXYZ" + "abcdefghijklmnopqrstuvwxyz" + "0123456789+/"

  /** A digit of either alphabet. */
  predicate IsDigitOf(c: char, v: sextet) {
    c == B64[v] || (v == 62 && c == '-') || (v == 63 && c == '_')
  }

  /** `text` is the digits of `s` and `pads` times `=`, with white space anywhere. */
  ghost predicate Reads(text: string, s: seq<sextet>, pads: nat)
    decreases |text|
  {
    if text == "" then s == [] && pads == 0
    else
      || (IsSpace(text[0]) && Reads(text[1..], s, pads))
      || (s != [] && IsDigitOf(text[0], s[0]) && Reads(text[1..], s[1..], pads))
      || (s == [] && pads > 0 && text[0] == '=' && Reads(text[1..], s, pads - 1))
  }

  /** The bytes a text stands for: at most two `=`, no lone digit in the last group, and the leading bits of
      the digits, cut into bytes. */
  ghost predicate StandsFor(text: string, bytes: seq<byte>) {
    exists s, pads :: Reads(text, s, pads) && pads <= 2 && |s| % 4 != 1 && LeadingBits(s, bytes)
  }

  /** What is left over behind the last byte: nothing, two bits or four bits. */
  ghost predicate LeadingBits(s: seq<sextet>, bytes: seq<byte>) {
    && |bytes| == |s| * 3 / 4
    && V8(bytes, |bytes|) == V6(s, |s|) / (if |s| % 4 == 0 then 1 else if |s| % 4 == 3 then 4 else 16)
  }

  lemma {:induction false} SpellsLeadingBits(s: seq<sextet>, bytes: seq<byte>)
    requires |s| % 4 != 1
    ensures Spells(s, bytes) <==> LeadingBits(s, bytes)
  {
    SlackByLength(|s|);
  }

  lemma SlackByLength(n: nat)
    requires n % 4 != 1
    ensures SlackBits(n) == if n % 4 == 0 then 0 else if n % 4 == 3 then 2 else 4
  {
    assert n == 4 * (n / 4) + n % 4;
    assert 6 * n == 8 * (3 * (n / 4)) + 6 * (n % 4);
  }

  lemma Alphabet(v: sextet)
    ensures Digit(v) == B64[v]
  {
    if v < 26 {
      assert B64[v] == "ABCDEFGHIJKLMNOPQRSTUVWXYZ"[v];
    } else if v < 52 {
      assert B64[v] == "abcdefghijklmnopqrstuvwxyz"[v - 26];
    } else {
      assert B64[v] == "0123456789+/"[v - 52];
    }
  }

  /** A character of the cleaned text. */
  function Standard(c: char): char {
    if c == '-' then '+' else if c == '_' then '/' else c
  }

  lemma DigitIff(c: char, v: sextet)
    ensures IsDigitOf(c, v) <==> Standard(c) == Digit(v)
    ensures IsDigitOf(c, v) ==> !IsSpace(c) && c != '='
  {
    Alphabet(v);
  }

  lemma DigitsFirst(s: seq<sextet>, pads: nat)
    requires s != []
    ensures Digits(s) + Equals(pads) == [Digit(s[0])] + (Digits(s[1..]) + Equals(pads))
  {
    assert forall i :: 0 <= i < |s| - 1 ==> s[i + 1] == s[1..][i];
  }

  lemma PadFirst(pads: nat)
    requires pads > 0
    ensures Digits([]) + Equals(pads) == ['='] + (Digits([]) + Equals(pads - 1))
  {
  }

  lemma SameRest(c: char, rest: string, d: char, end: string)
    ensures [c] + rest == [d] + end <==> c == d && rest == end
  {
    assert ([c] + rest)[1..] == rest && ([d] + end)[1..] == end;
  }

  /** Cleaning, stripping the padding and reading the digits is one reading of the text. */
  lemma {:induction false} ReadsIff(text: string, s: seq<sextet>, pads: nat)
    ensures Reads(text, s, pads) <==> Clean(text) == Digits(s) + Equals(pads)
    decreases |text|
  {
    if text == "" {
      assert s != [] ==> |Digits(s)| > 0;
    } else {
      var c, rest := text[0], Clean(text[1..]);
      ReadsIff(text[1..], s, pads);
      if s != [] {
        DigitIff(c, s[0]);
        DigitsFirst(s, pads);
        ReadsIff(text[1..], s[1..], pads);
        SameRest(Standard(c), rest, Digit(s[0]), Digits(s[1..]) + Equals(pads));
      } else if pads > 0 {
        PadFirst(pads);
        ReadsIff(text[1..], s, pads - 1);
        SameRest(Standard(c), rest, '=', Digits(s) + Equals(pads - 1));
      }
    }
  }

  lemma {:induction false} StripSplits(clean: string)
    ensures var body := StripPadding(clean); clean == body + Equals(|clean| - |body|)
    ensures StripPadding(clean) == "" || StripPadding(clean)[|StripPadding(clean)| - 1] != '='
  {
    if clean == "" || clean[|clean| - 1] != '=' {
    } else {
      StripSplits(clean[..|clean| - 1]);
    }
  }

  lemma DigitsOfSextets(body: string)
    requires AllDigits(body)
    ensures Digits(Sextets(body)) == body
  {
    forall i | 0 <= i < |body|
      ensures Digit(Value(body[i])) == body[i]
    {
    }
  }

  /** What the decoder's checks and its loop make of a text is what the text stands for. */
  lemma StandsForIff(text: string, bytes: seq<byte>)
    ensures StandsFor(text, bytes) <==> Acceptable(text) && Spells(Sextets(StripPadding(Clean(text))), bytes)
  {
    if s, pads :| Reads(text, s, pads) && pads <= 2 && |s| % 4 != 1 && LeadingBits(s, bytes) {
      ReadsIff(text, s, pads);
      DigitsBack(s);
      StripEquals(Digits(s), pads);
      SpellsLeadingBits(s, bytes);
    }
    if Acceptable(text) {
      var clean := Clean(text);
      var body := StripPadding(clean);
      StripSplits(clean);
      DigitsOfSextets(body);
      ReadsIff(text, Sextets(body), |clean| - |body|);
      SpellsLeadingBits(Sextets(body), bytes);
    }
  }

  method BytesFromBase64(text: string) returns (r: DecodeResult)
    ensures forall bytes :: r == Decoded(bytes) <==> StandsFor(text, bytes)
    ensures r.Decoded? <==> Acceptable(text)
    ensures r.Decoded? ==> Spells(Sextets(StripPadding(Clean(text))), r.bytes)
  {
    var clean := Clean(text);
    var body := StripPadding(clean);
    var ok := true;
    for i := 0 to |body|
      invariant ok <==> forall k :: 0 <= k < i ==> Value(body[k]) >= 0
    {
      ok := ok && Value(body[i]) >= 0;
    }
    if !ok || |body| % 4 == 1 || |clean| - |body| > 2 {
      NoOtherBytes(text, Invalid);
      return Invalid;
    }
    var bytes := DecodeDigits(body);
    r := Decoded(bytes);
    NoOtherBytes(text, r);
  }

  lemma NoOtherBytes(text: string, r: DecodeResult)
    requires r.Decoded? <==> Acceptable(text)
    requires r.Decoded? ==> Spells(Sextets(StripPadding(Clean(text))), r.bytes)
    ensures forall bytes :: r == Decoded(bytes) <==> StandsFor(text, bytes)
  {
    forall bytes
      ensures r == Decoded(bytes) <==> StandsFor(text, bytes)
    {
      StandsForIff(text, bytes);
      if StandsFor(text, bytes) {
        SpellsUnique(Sextets(StripPadding(Clean(text))), r.bytes, bytes);
      }
    }
  }

  /** `bytes` is the one byte sequence `text` stands for, and so what the decoder returns. */
  ghost predicate DecodesTo(text: string, bytes: seq<byte>) {
    forall b :: StandsFor(text, b) <==> b == bytes
  }

  /** A text that spells the sextets of `bytes` once white space is dropped and the URL-safe digits are
      replaced, with zero to two `=` behind them, decodes to `bytes`. */
  lemma AnySpellingDecodes(text: string, s: seq<sextet>, k: nat, bytes: seq<byte>)
    requires SixBits(s, bytes) && k <= 2 && Clean(text) == Digits(s) + Equals(k)
    ensures DecodesTo(text, bytes)
  {
    DigitsBack(s);
    StripEquals(Digits(s), k);
    SixBitsSpell(s, bytes);
    NoOtherBytes(text, Decoded(bytes));
    assert forall b :: StandsFor(text, b) <==> Decoded(bytes) == Decoded(b);
  }

  /** ceil(8n/6) sextets give back floor of three quarters of them: n bytes. */
  lemma SextetCount(q: nat, r: nat)
    requires r < 3
    ensures var k := (8 * (3 * q + r) + 5) / 6;
            && k == 4 * q + (if r == 0 then 0 else r + 1)
            && k * 3 / 4 == 3 * q + r && k % 4 != 1
  {
    if r == 0 {
      assert 8 * (3 * q) + 5 == 6 * (4 * q) + 5;
    } else if r == 1 {
      assert 8 * (3 * q + 1) + 5 == 6 * (4 * q + 2) + 1;
      assert (4 * q + 2) * 3 == 4 * (3 * q + 1) + 2;
    } else {
      assert 8 * (3 * q + 2) + 5 == 6 * (4 * q + 3) + 3;
      assert (4 * q + 3) * 3 == 4 * (3 * q + 2) + 1;
    }
  }

  lemma SixBitsSpell(s: seq<sextet>, bytes: seq<byte>)
    requires SixBits(s, bytes)
    ensures Spells(s, bytes) && |s| % 4 != 1
  {
    SextetCount(|bytes| / 3, |bytes| % 3);
  }

  /** Neither spaces nor the URL-safe digits matter: `Clean` is all the decoder looks at. */
  lemma {:induction false} SpacesDoNotMatter(a: string, space: char, b: string)
    requires IsSpace(space)
    ensures Clean(a + [space] + b) == Clean(a + b)
  {
    if a == [] {
      assert [] + [space] + b == [space] + b && [] + b == b;
    } else {
      assert (a + [space] + b)[1..] == a[1..] + [space] + b && (a + b)[1..] == a[1..] + b;
      SpacesDoNotMatter(a[1..], space, b);
    }
  }

  function UrlSafe(t: string): (u: string)
    ensures |u| == |t|
    ensures '+' !in u && '/' !in u
  {
    if t == [] then []
    else [if t[0] == '+' then '-' else if t[0] == '/' then '_' else t[0]] + UrlSafe(t[1..])
  }

  lemma {:induction false} UrlSafeDoesNotMatter(t: string)
    ensures Clean(UrlSafe(t)) == Clean(t)
  {
    if t == [] {
    } else {
      UrlSafeDoesNotMatter(t[1..]);
    }
  }

  lemma {:induction false} CleanKeeps(t: string)
    requires forall i :: 0 <= i < |t| ==> Value(t[i]) >= 0 || t[i] == '='
    ensures Clean(t) == t
  {
    if t == [] {
    } else {
      CleanKeeps(t[1..]);
    }
  }

  /** Digits and padding, in the standard alphabet and the URL-safe one. */
  lemma SpelledDecodes(text: string, s: seq<sextet>, k: nat, bytes: seq<byte>)
    requires SixBits(s, bytes) && k <= 2 && text == Digits(s) + Equals(k)
    ensures DecodesTo(text, bytes) && DecodesTo(UrlSafe(text), bytes)
  {
    DigitsBack(s);
    CleanKeeps(text);
    UrlSafeDoesNotMatter(text);
    AnySpellingDecodes(text, s, k, bytes);
    AnySpellingDecodes(UrlSafe(text), s, k, bytes);
  }

  lemma PaddedDecodes(text: string, s: seq<sextet>, k: nat, bytes: seq<byte>)
    requires SixBits(s, bytes) && k == (4 - |s| % 4) % 4 && text == Digits(s) + Equals(k)
    ensures DecodesTo(text, bytes) && DecodesTo(UrlSafe(text), bytes)
    ensures StripPadding(text) == Digits(s)
  {
    SixBitsSpell(s, bytes);
    SpelledDecodes(text, s, k, bytes);
    DigitsBack(s);
    StripEquals(Digits(s), k);
  }

  lemma UnpaddedDecodes(text: string, s: seq<sextet>, bytes: seq<byte>)
    requires SixBits(s, bytes) && text == Digits(s)
    ensures DecodesTo(text, bytes) && DecodesTo(UrlSafe(text), bytes)
  {
    assert text == Digits(s) + Equals(0);
    SpelledDecodes(text, s, 0, bytes);
  }

  /** Decoding the encoder's own output gives the bytes back: padded or not, in either alphabet. */
  lemma RoundTrip(text: string, bytes: seq<byte>)
    requires IsBase64(text, bytes)
    ensures DecodesTo(text, bytes) && DecodesTo(UrlSafe(text), bytes)
    ensures DecodesTo(StripPadding(text), bytes) && DecodesTo(UrlSafe(StripPadding(text)), bytes)
  {
    var s :| SixBits(s, bytes) && text == Digits(s) + Equals((4 - |s| % 4) % 4);
    PaddedDecodes(text, s, (4 - |s| % 4) % 4, bytes);
    UnpaddedDecodes(StripPadding(text), s, bytes);
  }

  /** The two functions composed. */
  method EncodeThenDecode(bytes: seq<byte>) returns (r: DecodeResult)
    ensures r == Decoded(bytes)
  {
    var text := BytesToBase64(bytes);
    RoundTrip(text, bytes);
    r := BytesFromBase64(text);
  }

  // ---- Hex ----

  function HexValue(c: char): (v: int)
    ensures -1 <= v < 16
  {
    if '0' <= c <= '9' then c as int - '0' as int
    else if 'a' <= c <= 'f' then c as int - 'a' as int + 10
    else if 'A' <= c <= 'F' then c as int - 'A' as int + 10
    else -1
  }

  predicate IsX(c: char) {
    c == 'x' || c == 'X'
  }

  /** `text.replace(/0x/gi, '')`. */
  function Without0x(t: string): string {
    if t == [] then []
    else if |t| >= 2 && t[0] == '0' && IsX(t[1]) then Without0x(t[2..])
    else [t[0]] + Without0x(t[1..])
  }

  /** `[\s:,-]`. */
  predicate IsSeparator(c: char) {
    IsSpace(c) || c == ':' || c == ',' || c == '-'
  }

  function WithoutSeparators(t: string): string {
    if t == [] then []
    else (if IsSeparator(t[0]) then [] else [t[0]]) + WithoutSeparators(t[1..])
  }

  function CleanHex(t: string): string {
    WithoutSeparators(Without0x(t))
  }

  predicate AllHex(t: string) {
    forall i :: 0 <= i < |t| ==> HexValue(t[i]) >= 0
  }

  // ---- What the hex decoder accepts, character by character ----

  /** `[0-9a-fA-F]`. */
  predicate IsHexDigit(c: char) {
    '0' <= c <= '9' || 'a' <= c <= 'f' || 'A' <= c <= 'F'
  }

  /** `text` is those digits in order, with white space, `:`, `,`, `-` and `0x` anywhere before, between and
      behind them. */
  ghost predicate Spelled(text: string, digits: string)
    decreases |text|
  {
    if text == "" then digits == ""
    else
      || ((IsSpace(text[0]) || text[0] == ':' || text[0] == ',' || text[0] == '-') && Spelled(text[1..], digits))
      || (|text| >= 2 && text[0] == '0' && (text[1] == 'x' || text[1] == 'X') && Spelled(text[2..], digits))
      || (IsHexDigit(text[0]) && digits != "" && digits[0] == text[0] && Spelled(text[1..], digits[1..]))
  }

  const LOWER_HEX := "0123456789abcdef"
  const UPPER_HEX := "0123456789ABCDEF"

  /** The two digits of a byte, in either case. */
  predicate IsPair(hi: char, lo: char, b: byte) {
    && (hi == LOWER_HEX[b / 16] || hi == UPPER_HEX[b / 16])
    && (lo == LOWER_HEX[b % 16] || lo == UPPER_HEX[b % 16])
  }

  /** `digits` are the digit pairs of the bytes. */
  ghost predicate PairsOf(digits: string, bytes: seq<byte>) {
    && |digits| == 2 * |bytes|
    && forall i :: 0 <= i < |bytes| ==> IsPair(digits[2 * i], digits[2 * i + 1], bytes[i])
  }

  /** `text` prints the bytes: two digits for each, whatever gaps there are. */
  ghost predicate Prints(text: string, bytes: seq<byte>) {
    exists digits :: Spelled(text, digits) && PairsOf(digits, bytes)
  }

  lemma HexDigits(c: char)
    ensures HexValue(c) >= 0 <==> IsHexDigit(c)
    ensures HexValue(c) >= 0 ==> !IsX(c) && !IsSeparator(c)
  {
  }

  lemma HexDigitOf(c: char, v: nat)
    requires v < 16
    ensures HexValue(c) == v <==> c == LOWER_HEX[v] || c == UPPER_HEX[v]
  {
  }

  lemma PairIff(hi: char, lo: char, b: byte)
    ensures IsPair(hi, lo, b) <==> HexValue(hi) >= 0 && HexValue(lo) >= 0 && b as int == 16 * HexValue(hi) + HexValue(lo)
  {
    HexDigitOf(hi, b as nat / 16);
    HexDigitOf(lo, b as nat % 16);
  }

  lemma CleanHexStep(text: string)
    requires text != ""
    ensures CleanHex(text) ==
            if |text| >= 2 && text[0] == '0' && IsX(text[1]) then CleanHex(text[2..])
            else (if IsSeparator(text[0]) then [] else [text[0]]) + CleanHex(text[1..])
  {
    if |text| >= 2 && text[0] == '0' && IsX(text[1]) {
    } else {
      var rest := Without0x(text[1..]);
      assert Without0x(text) == [text[0]] + rest;
      assert ([text[0]] + rest)[1..] == rest;
    }
  }

  /** Two cleaning passes of the decoder are one reading of the text. */
  lemma {:induction false} SpelledIff(text: string, digits: string)
    ensures Spelled(text, digits) <==> CleanHex(text) == digits && AllHex(digits)
    decreases |text|
  {
    if text == "" {
    } else {
      HexDigits(text[0]);
      CleanHexStep(text);
      if |text| >= 2 && text[0] == '0' && IsX(text[1]) {
        HexDigits(text[1]);
        SpelledIff(text[2..], digits);
      } else if IsSeparator(text[0]) {
        SpelledIff(text[1..], digits);
      } else {
        SpelledDigit(text, digits);
      }
    }
  }

  lemma {:induction false} SpelledDigit(text: string, digits: string)
    requires text != "" && !IsSeparator(text[0]) && !(|text| >= 2 && text[0] == '0' && IsX(text[1]))
    ensures Spelled(text, digits) <==> CleanHex(text) == digits && AllHex(digits)
    decreases |text|, 0
  {
    HexDigits(text[0]);
    CleanHexStep(text);
    if digits == "" {
    } else {
      SpelledIff(text[1..], digits[1..]);
      assert digits == [digits[0]] + digits[1..];
    }
  }

  /** A text prints bytes exactly when its cleaned form is their digit pairs. */
  lemma PrintedHexPairs(text: string, bytes: seq<byte>)
    ensures Prints(text, bytes) <==> PairsOf(CleanHex(text), bytes)
  {
    forall digits | PairsOf(digits, bytes)
      ensures Spelled(text, digits) <==> CleanHex(text) == digits
    {
      PairsAreHex(digits, bytes);
      SpelledIff(text, digits);
    }
  }

  lemma PairsAreHex(digits: string, bytes: seq<byte>)
    requires PairsOf(digits, bytes)
    ensures AllHex(digits)
  {
    forall k | 0 <= k < |digits|
      ensures HexValue(digits[k]) >= 0
    {
      var i := k / 2;
      PairIff(digits[2 * i], digits[2 * i + 1], bytes[i]);
      assert k == 2 * i || k == 2 * i + 1;
    }
  }

  lemma PairsUnique(digits: string, a: seq<byte>, b: seq<byte>)
    requires PairsOf(digits, a) && PairsOf(digits, b)
    ensures a == b
  {
    forall i | 0 <= i < |a|
      ensures a[i] == b[i]
    {
      PairIff(digits[2 * i], digits[2 * i + 1], a[i]);
      PairIff(digits[2 * i], digits[2 * i + 1], b[i]);
    }
  }

  method BytesFromHex(text: string) returns (r: DecodeResult)
    ensures forall bytes :: r == Decoded(bytes) <==> Prints(text, bytes)
    ensures r.Decoded? <==> |CleanHex(text)| % 2 == 0 && AllHex(CleanHex(text))
    ensures r.Decoded? ==>
              && 2 * |r.bytes| == |CleanHex(text)|
              && forall i :: 0 <= i < |r.bytes| ==>
                   r.bytes[i] as int == 16 * HexValue(CleanHex(text)[2 * i]) + HexValue(CleanHex(text)[2 * i + 1])
  {
    var clean := CleanHex(text);
    var ok := true;
    for i := 0 to |clean|
      invariant ok <==> forall k :: 0 <= k < i ==> HexValue(clean[k]) >= 0
    {
      ok := ok && HexValue(clean[i]) >= 0;
    }
    if |clean| % 2 != 0 || !ok {
      NothingPrinted(text);
      return Invalid;
    }
    var out := new byte[|clean| / 2];
    for i := 0 to out.Length
      invariant forall k :: 0 <= k < i ==> out[k] as int == 16 * HexValue(clean[2 * k]) + HexValue(clean[2 * k + 1])
    {
      out[i] := (16 * HexValue(clean[2 * i]) + HexValue(clean[2 * i + 1])) as byte;
    }
    r := Decoded(out[..]);
    OnlyPrinted(text, out[..]);
  }

  lemma NothingPrinted(text: string)
    requires |CleanHex(text)| % 2 != 0 || !AllHex(CleanHex(text))
    ensures forall bytes :: !Prints(text, bytes)
  {
    forall bytes
      ensures !Prints(text, bytes)
    {
      PrintedHexPairs(text, bytes);
      if PairsOf(CleanHex(text), bytes) {
        PairsAreHex(CleanHex(text), bytes);
      }
    }
  }

  lemma OnlyPrinted(text: string, read: seq<byte>)
    requires 2 * |read| == |CleanHex(text)| && AllHex(CleanHex(text))
    requires forall i :: 0 <= i < |read| ==>
               read[i] as int == 16 * HexValue(CleanHex(text)[2 * i]) + HexValue(CleanHex(text)[2 * i + 1])
    ensures forall bytes :: read == bytes <==> Prints(text, bytes)
  {
    var clean := CleanHex(text);
    forall i | 0 <= i < |read|
      ensures IsPair(clean[2 * i], clean[2 * i + 1], read[i])
    {
      PairIff(clean[2 * i], clean[2 * i + 1], read[i]);
    }
    forall bytes
      ensures read == bytes <==> Prints(text, bytes)
    {
      PrintedHexPairs(text, bytes);
      if PairsOf(clean, bytes) {
        PairsUnique(clean, read, bytes);
      }
    }
  }

  /** The decoder on a printed text. */
  method DecodePrintedHex(text: string, ghost bytes: seq<byte>) returns (r: DecodeResult)
    requires Prints(text, bytes)
    ensures r == Decoded(bytes)
  {
    r := BytesFromHex(text);
  }
}
