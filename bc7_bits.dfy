/** The bit reader of the BC7 block decoder: a cursor over the block's bytes
    that hands out bits from the most significant bit of each byte down. A
    bit past the end of the buffer reads as 0, since `undefined >>> n` is 0
    in JavaScript. */
module Bc7Bits {
  import opened Bytes

  /** Bit o of the stream: `(buffer[o / 8] >>> (7 - o % 8)) & 1`. */
  function Bit(buffer: seq<Byte>, o: nat): (r: nat)
    ensures r < 2
  {
    if o / 8 < |buffer| then BitOfByte(buffer[o / 8], 7 - o % 8) else 0
  }

  /** The n bits from o on, the first one most significant. */
  function Uint(buffer: seq<Byte>, o: nat, n: nat): (r: nat)
    ensures r < Pow2(n)
  {
    if n == 0 then 0 else 2 * Uint(buffer, o, n - 1) + Bit(buffer, o + n - 1)
  }

  /** The bits `getBits(n)` collects from o on. */
  function Bits(buffer: seq<Byte>, o: nat, n: nat): (r: seq<bool>)
    ensures |r| == n
  {
    seq(n, i requires 0 <= i => Bit(buffer, o + i) == 1)
  }

  /** `bits.reduce((r, v) => (r << 1) + (v ? 1 : 0), 0)`. */
  function FromBits(bits: seq<bool>): (r: nat)
  {
    if |bits| == 0 then 0
    else 2 * FromBits(bits[..|bits| - 1]) + (if bits[|bits| - 1] then 1 else 0)
  }

  /** Reducing the collected bits is reading them as one MSB-first number. */
  lemma {:induction false} FromBitsUint(buffer: seq<Byte>, o: nat, n: nat)
    ensures FromBits(Bits(buffer, o, n)) == Uint(buffer, o, n)
  {
    if n > 0 {
      assert Bits(buffer, o, n)[..n - 1] == Bits(buffer, o, n - 1);
      FromBitsUint(buffer, o, n - 1);
    }
  }

  /** Reading a + b bits is reading a bits, then b more below them. */
  lemma UintSplit(buffer: seq<Byte>, o: nat, a: nat, b: nat)
    ensures Uint(buffer, o, a + b) == Uint(buffer, o, a) * Pow2(b) + Uint(buffer, o + a, b)
  {
    UintShift(buffer, o, a, b);
    ShlMul(Uint(buffer, o, a), b);
  }

  lemma {:induction false} UintShift(buffer: seq<Byte>, o: nat, a: nat, b: nat)
    ensures Uint(buffer, o, a + b) == Shl(Uint(buffer, o, a), b) + Uint(buffer, o + a, b)
  {
    if b > 0 {
      UintShift(buffer, o, a, b - 1);
    }
  }

  /** The first bit read is the most significant: bit o + i of the stream is
      bit n - 1 - i of the value. */
  lemma {:induction false} UintBit(buffer: seq<Byte>, o: nat, n: nat, i: nat)
    requires i < n
    ensures Field(Uint(buffer, o, n), n - 1 - i, 1) == Bit(buffer, o + i)
  {
    var u := Uint(buffer, o, n - 1);
    var b := Bit(buffer, o + n - 1);
    assert (2 * u + b) / 2 == u;
    if i == n - 1 {
      assert Pow2(1) == 2;
    } else {
      UintBit(buffer, o, n - 1, i);
      FieldOfHalf(2 * u + b, n - 2 - i, 1);
    }
  }

  /** The first n bits of a whole byte are its n high bits. */
  lemma {:induction false} UintHighBits(buffer: seq<Byte>, i: nat, n: nat)
    requires i < |buffer| && n <= 8
    ensures Uint(buffer, 8 * i, n) == buffer[i] / Pow2(8 - n)
  {
    Pow2Table();
    if n > 0 {
      UintHighBits(buffer, i, n - 1);
      var x := buffer[i] / Pow2(8 - n);
      assert (8 * i + n - 1) / 8 == i && (8 * i + n - 1) % 8 == n - 1;
      assert Bit(buffer, 8 * i + n - 1) == x % 2 by {
        BitOfByteField(buffer[i], 8 - n);
        DivModUnique(Field(buffer[i], 8 - n, 1), 1, x % 2, 0);
      }
      assert Pow2(8 - n + 1) == Pow2(8 - n) * 2 by { Pow2Add(8 - n, 1); }
      DivDiv(buffer[i], Pow2(8 - n), 2);
    }
  }

  /** Reading the 8 bits of byte i, aligned, gives the byte back. */
  lemma UintByte(buffer: seq<Byte>, i: nat)
    requires i < |buffer|
    ensures Uint(buffer, 8 * i, 8) == buffer[i]
  {
    var n := 8;
    UintHighBits(buffer, i, n);
    assert buffer[i] / Pow2(8 - n) == buffer[i];
  }

  /** Past the end of the buffer every read is 0. */
  lemma {:induction false} UintPastEnd(buffer: seq<Byte>, o: nat, n: nat)
    requires o >= 8 * |buffer|
    ensures Uint(buffer, o, n) == 0
  {
    if n > 0 {
      UintPastEnd(buffer, o, n - 1);
    }
  }

  /** `BitReader`: the block's bytes and the offset of the next bit. */
  class BitReader {
    const buffer: seq<Byte>
    var offset: nat

    constructor(buffer: seq<Byte>)
      ensures this.buffer == buffer && offset == 0
    {
      this.buffer := buffer;
      offset := 0;
    }

    method GetBit() returns (b: bool)
      modifies this
      ensures offset == old(offset) + 1
      ensures b <==> Bit(buffer, old(offset)) == 1
    {
      var p8 := offset / 8;
      var u8 := if p8 < |buffer| then buffer[p8] else 0;
      b := Field(u8, 7 - offset % 8, 1) == 1;
      BitOfByteField(u8, 7 - offset % 8);
      offset := offset + 1;
    }

    method GetBits(count: nat) returns (bits: seq<bool>)
      modifies this
      ensures offset == old(offset) + count
      ensures bits == Bits(buffer, old(offset), count)
    {
      bits := [];
      for i := 0 to count
        invariant offset == old(offset) + i
        invariant |bits| == i
        invariant forall k :: 0 <= k < i ==> bits[k] == (Bit(buffer, old(offset) + k) == 1)
      {
        var b := GetBit();
        bits := bits + [b];
      }
    }

    /** `getUint(size)`: the next size bits as a number, first bit most
        significant. */
    method GetUint(size: nat) returns (v: nat)
      modifies this
      ensures offset == old(offset) + size
      ensures v == Uint(buffer, old(offset), size)
    {
      var bits := GetBits(size);
      v := FromBits(bits);
      FromBitsUint(buffer, old(offset), size);
    }
  }
}
