/** Byte and integer-width vocabulary shared by the codecs: JavaScript numbers
    are modelled as unbounded integers, and every place where the source relies
    on 32-bit bitwise semantics goes through the conversions below. */
module Bytes {

  type Byte = b: int | 0 <= b < 0x100

  const TWO_32: int := 0x1_0000_0000

  function Pow2(n: nat): (r: nat)
    ensures r > 0
  {
    if n == 0 then 1 else 2 * Pow2(n - 1)
  }

  /** Bits [s, s + w) of v: what `(v >> s) & ((1 << w) - 1)` yields in
      JavaScript when s + w <= 32 (the low 32 bits of a two's-complement
      value and of its unsigned reading agree). */
  function Field(v: int, s: nat, w: nat): (r: nat)
    ensures r < Pow2(w)
  {
    (v / Pow2(s)) % Pow2(w)
  }

  /** JavaScript's ToInt32: the 32-bit two's-complement reading of x. */
  function ToInt32(x: int): (r: int)
    ensures -0x8000_0000 <= r < 0x8000_0000
    ensures (r - x) % TWO_32 == 0
  {
    var m := x % TWO_32;
    if m < 0x8000_0000 then m else m - TWO_32
  }

  /** JavaScript's ToUint32 (`x >>> 0`). */
  function ToUint32(x: int): (r: nat)
    ensures r < TWO_32
    ensures (r - x) % TWO_32 == 0
  {
    x % TWO_32
  }

  /** The 16-bit word made of two bytes, in the given byte order. */
  function Word16(b0: Byte, b1: Byte, le: bool): (r: nat)
    ensures r < 0x1_0000
  {
    if le then b0 + 0x100 * b1 else 0x100 * b0 + b1
  }

  /** The 32-bit word made of four bytes, in the given byte order. */
  function Word32(b0: Byte, b1: Byte, b2: Byte, b3: Byte, le: bool): (r: nat)
    ensures r < TWO_32
  {
    if le then b0 + 0x100 * b1 + 0x1_0000 * b2 + 0x100_0000 * b3
    else 0x100_0000 * b0 + 0x1_0000 * b1 + 0x100 * b2 + b3
  }

  /** Little-endian 32-bit word at byte offset i of s. */
  function Le32At(s: seq<Byte>, i: int): (r: nat)
    requires 0 <= i && i + 4 <= |s|
    ensures r < TWO_32
  {
    Word32(s[i], s[i + 1], s[i + 2], s[i + 3], true)
  }

  /** Element i of a JavaScript typed array read with `[]`: an index outside
      the array gives `undefined`, which every caller here turns into 0. */
  function ByteAt(s: seq<Byte>, i: int): (r: Byte)
    ensures 0 <= i < |s| ==> r == s[i]
    ensures !(0 <= i < |s|) ==> r == 0
  {
    if 0 <= i < |s| then s[i] else 0
  }

  /** `ArrayBuffer.prototype.slice(start, end)` / `TypedArray.prototype.slice`:
      negative positions count from the end, and both are clamped to the buffer. */
  function ClampIndex(len: nat, i: int): (r: nat)
    ensures r <= len
    ensures 0 <= i <= len ==> r == i
    ensures i > len ==> r == len
  {
    if i < 0 then (if len + i < 0 then 0 else len + i) else if i > len then len else i
  }

  function ClampedSlice(s: seq<Byte>, start: int, end: int): (r: seq<Byte>)
    ensures 0 <= start <= end <= |s| ==> r == s[start..end]
    ensures |r| <= |s|
  {
    var b := ClampIndex(|s|, start);
    var e := ClampIndex(|s|, end);
    if b < e then s[b..e] else []
  }

  lemma {:induction false} Pow2Add(a: nat, b: nat)
    ensures Pow2(a + b) == Pow2(a) * Pow2(b)
  {
    if a > 0 {
      Pow2Add(a - 1, b);
    }
  }

  lemma {:induction false} Pow2Monotone(a: nat, b: nat)
    requires a <= b
    ensures Pow2(a) <= Pow2(b)
  {
    if a < b {
      Pow2Monotone(a, b - 1);
    }
  }

  /** Quotient and remainder are determined by x = q * d + r with 0 <= r < d. */
  lemma DivModUnique(x: int, d: int, q: int, r: int)
    requires d > 0 && 0 <= r < d && x == q * d + r
    ensures x / d == q && x % d == r
  {
    var q', r' := x / d, x % d;
    assert x == q' * d + r';
    if q > q' {
      assert (q - q') * d >= d by { MulAtLeast(q - q', d); }
    } else if q < q' {
      assert (q' - q) * d >= d by { MulAtLeast(q' - q, d); }
    }
  }

  lemma MulAtLeast(k: int, d: int)
    requires k >= 1 && d > 0
    ensures k * d >= d
  {
  }

  /** Dividing by a and then by b is dividing by a * b. */
  lemma DivDiv(x: int, a: int, b: int)
    requires a > 0 && b > 0
    ensures x / a / b == x / (a * b)
  {
    var q, r1 := x / a, x % a;
    var q2, r2 := q / b, q % b;
    assert x == a * (b * q2 + r2) + r1;
    assert x == (a * b) * q2 + (a * r2 + r1) by {
      assert a * (b * q2 + r2) == (a * b) * q2 + a * r2;
    }
    assert a * r2 <= a * (b - 1) by { MulMonotone(a, r2, b - 1); }
    assert a * (b - 1) == a * b - a;
    DivModUnique(x, a * b, q2, a * r2 + r1);
  }

  lemma MulMonotone(a: int, x: int, y: int)
    requires a >= 0 && x <= y
    ensures a * x <= a * y
  {
  }

  /** Bit j of x / 2 is bit j + 1 of x. */
  lemma FieldOfHalf(x: int, j: nat, w: nat)
    ensures Field(x / 2, j, w) == Field(x, j + 1, w)
  {
    DivDiv(x, 2, Pow2(j));
  }

  /** Bit m of c * 2^m + y, for a bit c and y < 2^m, is c. */
  lemma FieldAbove(c: int, m: nat, y: int)
    requires 0 <= c < 2 && 0 <= y < Pow2(m)
    ensures Field(c * Pow2(m) + y, m, 1) == c
  {
    DivModUnique(c * Pow2(m), Pow2(m), c, 0);
    DivModUnique(c * Pow2(m) + y, Pow2(m), c, y);
    assert Pow2(1) == 2;
  }

  /** Adding a multiple of 2^m leaves every bit below m unchanged. */
  lemma FieldBelow(c: int, m: nat, y: int, k: nat)
    requires k < m
    ensures Field(c * Pow2(m) + y, k, 1) == Field(y, k, 1)
  {
    var pm, q, pk := Pow2(m), Pow2(m - k - 1), Pow2(k);
    Pow2Split(m, k);
    Rescale(c, pm, q, pk);
    EvenMultipleBit(c * q, pk, y, c * pm);
    assert Pow2(1) == 2;
  }

  /** x shifted left by n bits, one doubling at a time. */
  function Shl(x: int, n: nat): int
  {
    if n == 0 then x else 2 * Shl(x, n - 1)
  }

  /** Shifting left by n bits multiplies by 2^n. */
  lemma {:induction false} ShlMul(x: int, n: nat)
    ensures Shl(x, n) == x * Pow2(n)
  {
    if n > 0 {
      ShlMul(x, n - 1);
      var p := Pow2(n - 1);
      assert x * (2 * p) == 2 * (x * p);
    }
  }

  lemma Rescale(c: int, pm: int, q: int, pk: int)
    requires pm == 2 * q * pk
    ensures c * pm == 2 * (c * q) * pk
  {
  }

  lemma Pow2Split(m: nat, k: nat)
    requires k < m
    ensures Pow2(m) == 2 * Pow2(m - k - 1) * Pow2(k)
  {
    Pow2Add(m - k, k);
  }

  /** Adding x = 2e·d to y does not change the parity of y / d. */
  lemma EvenMultipleBit(e: int, d: int, y: int, x: int)
    requires d > 0 && x == 2 * e * d
    ensures ((x + y) / d) % 2 == (y / d) % 2
  {
    assert x + y == (2 * e + y / d) * d + y % d;
    DivModUnique(x + y, d, 2 * e + y / d, y % d);
  }

  /** x mod 2p from the low bit of x and (x / 2) mod p. */
  lemma ModDouble(x: int, p: int)
    requires p > 0
    ensures x % (2 * p) == x % 2 + 2 * ((x / 2) % p)
  {
    var h := x / 2;
    assert x == 2 * h + x % 2;
    assert h == p * (h / p) + h % p;
    assert x == (h / p) * (2 * p) + (x % 2 + 2 * (h % p));
    DivModUnique(x, 2 * p, h / p, x % 2 + 2 * (h % p));
  }

  /** Bit k of a byte, counted from the least significant one. */
  function BitOfByte(b: nat, k: nat): (r: nat)
    ensures r < 2
  {
    if k == 0 then b % 2 else BitOfByte(b / 2, k - 1)
  }

  /** `BitOfByte` is the one-bit field `(b >> k) & 1`. */
  lemma {:induction false} BitOfByteField(b: nat, k: nat)
    ensures BitOfByte(b, k) == Field(b, k, 1)
  {
    assert Pow2(1) == 2;
    if k > 0 {
      BitOfByteField(b / 2, k - 1);
      FieldOfHalf(b, k - 1, 1);
    }
  }

  /** Bitwise XOR of the low n bits of a and b. */
  function XorBits(a: nat, b: nat, n: nat): (r: nat)
    ensures r < Pow2(n)
  {
    if n == 0 then 0 else (a % 2 + b % 2) % 2 + 2 * XorBits(a / 2, b / 2, n - 1)
  }

  /** XOR with 0 leaves the low n bits. */
  lemma {:induction false} XorZero(b: nat, n: nat)
    ensures XorBits(0, b, n) == b % Pow2(n)
  {
    if n > 0 {
      XorZero(b / 2, n - 1);
      ModDouble(b, Pow2(n - 1));
    }
  }

  /** `(a ^ b) >>> 0`: the XOR of the 32-bit images of a and b, unsigned. */
  function Xor32(a: int, b: int): (r: nat)
    ensures r < TWO_32
  {
    Pow2Word();
    XorBits(ToUint32(a), ToUint32(b), 32)
  }

  /** JavaScript's `a ^ b`: the XOR of the 32-bit images, read as a signed
      32-bit number. */
  function JsXor(a: int, b: int): (r: int)
    ensures -0x8000_0000 <= r < 0x8000_0000
    ensures ToUint32(r) == Xor32(a, b)
  {
    Uint32OfInt32(Xor32(a, b));
    ToInt32(Xor32(a, b))
  }

  /** `x | 0` then `>>> 0` gives x back for an unsigned 32-bit x. */
  lemma Uint32OfInt32(x: int)
    requires 0 <= x < TWO_32
    ensures ToUint32(ToInt32(x)) == x
  {
    if x >= 0x8000_0000 {
      DivModUnique(x - TWO_32, TWO_32, -1, x);
    }
  }

  /** XOR-ing the same bits twice gives the low n bits back. */
  lemma {:induction false} XorTwice(a: nat, b: nat, n: nat)
    ensures XorBits(XorBits(a, b, n), b, n) == a % Pow2(n)
  {
    if n > 0 {
      var x := XorBits(a, b, n);
      var low := (a % 2 + b % 2) % 2;
      var rest := XorBits(a / 2, b / 2, n - 1);
      assert x == low + 2 * rest;
      DivModUnique(x, 2, rest, low);
      assert (low + b % 2) % 2 == a % 2 by { BitTwice(a % 2, b % 2); }
      XorTwice(a / 2, b / 2, n - 1);
      assert XorBits(x, b, n) == (low + b % 2) % 2 + 2 * XorBits(rest, b / 2, n - 1);
      ModDouble(a, Pow2(n - 1));
    }
  }

  lemma BitTwice(a: int, b: int)
    requires 0 <= a < 2 && 0 <= b < 2
    ensures ((a + b) % 2 + b) % 2 == a
  {
  }

  /** `(a ^ b) ^ b` on 32-bit words is a. */
  lemma Xor32Twice(a: nat, b: nat)
    requires a < TWO_32 && b < TWO_32
    ensures Xor32(Xor32(a, b), b) == a
  {
    var x := Xor32(a, b);
    assert ToUint32(a) == a && ToUint32(b) == b && ToUint32(x) == x;
    assert x == XorBits(a, b, 32);
    assert Xor32(x, b) == XorBits(x, b, 32);
    XorTwice(a, b, 32);
    Pow2Word();
  }

  lemma Pow2Word()
    ensures Pow2(32) == TWO_32
  {
    Pow2Table();
  }

  lemma Pow2Byte()
    ensures Pow2(8) == 0x100
  {
    assert Pow2(4) == 16;
  }

  /** The small powers of two the bit-field readers need. */
  lemma Pow2Low()
    ensures Pow2(0) == 1 && Pow2(1) == 2 && Pow2(2) == 4 && Pow2(3) == 8 && Pow2(4) == 16 && Pow2(6) == 64
  {
    assert Pow2(2) == 4;
    assert Pow2(4) == 16;
  }

  /** The powers of two the codecs use, evaluated once. */
  lemma Pow2Table()
    ensures Pow2(0) == 1 && Pow2(1) == 2 && Pow2(2) == 4 && Pow2(3) == 8 && Pow2(4) == 16
    ensures Pow2(5) == 32 && Pow2(6) == 64 && Pow2(7) == 128 && Pow2(8) == 256
    ensures Pow2(9) == 0x200 && Pow2(10) == 0x400 && Pow2(11) == 0x800 && Pow2(12) == 0x1000
    ensures Pow2(13) == 0x2000 && Pow2(14) == 0x4000 && Pow2(15) == 0x8000 && Pow2(16) == 0x1_0000
    ensures Pow2(18) == 0x4_0000 && Pow2(20) == 0x10_0000 && Pow2(24) == 0x100_0000
    ensures Pow2(25) == 0x200_0000 && Pow2(26) == 0x400_0000 && Pow2(27) == 0x800_0000
    ensures Pow2(28) == 0x1000_0000 && Pow2(30) == 0x4000_0000 && Pow2(31) == 0x8000_0000
    ensures Pow2(32) == TWO_32
  {
    assert Pow2(1) == 0x2;
    assert Pow2(2) == 0x4;
    assert Pow2(3) == 0x8;
    assert Pow2(4) == 0x10;
    assert Pow2(5) == 0x20;
    assert Pow2(6) == 0x40;
    assert Pow2(7) == 0x80;
    assert Pow2(8) == 0x100;
    assert Pow2(9) == 0x200;
    assert Pow2(10) == 0x400;
    assert Pow2(11) == 0x800;
    assert Pow2(12) == 0x1000;
    assert Pow2(13) == 0x2000;
    assert Pow2(14) == 0x4000;
    assert Pow2(15) == 0x8000;
    assert Pow2(16) == 0x10000;
    assert Pow2(17) == 0x20000;
    assert Pow2(18) == 0x40000;
    assert Pow2(19) == 0x80000;
    assert Pow2(20) == 0x100000;
    assert Pow2(21) == 0x200000;
    assert Pow2(22) == 0x400000;
    assert Pow2(23) == 0x800000;
    assert Pow2(24) == 0x1000000;
    assert Pow2(25) == 0x2000000;
    assert Pow2(26) == 0x4000000;
    assert Pow2(27) == 0x8000000;
    assert Pow2(28) == 0x10000000;
    assert Pow2(29) == 0x20000000;
    assert Pow2(30) == 0x40000000;
    assert Pow2(31) == 0x80000000;
    assert Pow2(32) == 0x100000000;
  }
}
