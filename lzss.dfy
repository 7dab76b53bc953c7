/** The LZSS decompressor of the WipEout PSP WAD utility: an MSB-first bit
    stream of tokens, each a flag bit followed either by one literal byte or
    by a 13-bit position and a 4-bit length into a 0x2000-byte ring buffer of
    the bytes emitted so far. */
module Lzss {
  import opened Wrappers
  import opened Bytes

  const RING_SIZE: nat := 0x2000
  const LITERAL_BITS: nat := 8
  const POSITION_BITS: nat := 13
  const LENGTH_BITS: nat := 4
  const MIN_MATCH: nat := 3

  /** `readUInt8` past the end of the buffer throws. */
  datatype RangeError = RangeError

  // ---------------------------------------------------------------- BitView

  /** Bit `offset` of the stream: bit 7 - offset % 8 of byte offset / 8, so
      the bits of each byte are read from the most significant one down. */
  function BitAt(buffer: seq<Byte>, offset: nat): (r: nat)
    requires offset < 8 * |buffer|
    ensures r < 2
  {
    BitOfByte(buffer[offset / 8], 7 - offset % 8)
  }

  /** The `size` bits from `offset` on, each shifted in below the ones
      before it (`bits.reduce((r, v) => (r << 1) + v, 0)`; at most 13 bits
      are read, so the 32-bit shift never overflows). */
  function UintAt(buffer: seq<Byte>, offset: nat, size: nat): (r: nat)
    requires offset + size <= 8 * |buffer|
    ensures r < Pow2(size)
  {
    if size == 0 then 0 else 2 * UintAt(buffer, offset, size - 1) + BitAt(buffer, offset + size - 1)
  }

  /** `getBit(offset)`: `readUInt8` throws past the end of the buffer. */
  function GetBit(buffer: seq<Byte>, offset: nat): (r: Result<nat, RangeError>)
    ensures r.Success? <==> offset < 8 * |buffer|
    ensures r.Success? ==> r.value == BitAt(buffer, offset)
  {
    if offset / 8 < |buffer| then Success(BitAt(buffer, offset)) else Failure(RangeError)
  }

  /** `getUint(offset, size)`: throws if any of its bits lies past the end
      of the buffer. */
  function GetUint(buffer: seq<Byte>, offset: nat, size: nat): (r: Result<nat, RangeError>)
    ensures r.Success? <==> size == 0 || offset + size <= 8 * |buffer|
    ensures r.Success? ==> r.value < Pow2(size)
  {
    if size == 0 then Success(0)
    else if offset + size <= 8 * |buffer| then Success(UintAt(buffer, offset, size))
    else Failure(RangeError)
  }

  /** Reading a + b bits is reading a bits, then b more below them. */
  lemma UintSplit(buffer: seq<Byte>, offset: nat, a: nat, b: nat)
    requires offset + a + b <= 8 * |buffer|
    ensures UintAt(buffer, offset, a + b) == UintAt(buffer, offset, a) * Pow2(b) + UintAt(buffer, offset + a, b)
  {
    UintShift(buffer, offset, a, b);
    ShlMul(UintAt(buffer, offset, a), b);
  }

  lemma {:induction false} UintShift(buffer: seq<Byte>, offset: nat, a: nat, b: nat)
    requires offset + a + b <= 8 * |buffer|
    ensures UintAt(buffer, offset, a + b) == Shl(UintAt(buffer, offset, a), b) + UintAt(buffer, offset + a, b)
  {
    if b > 0 {
      UintShift(buffer, offset, a, b - 1);
    }
  }

  /** The first bit read is the most significant: bit i of the stream lands
      at bit size - 1 - i of the value. */
  lemma {:induction false} UintBit(buffer: seq<Byte>, offset: nat, size: nat, i: nat)
    requires i < size && offset + size <= 8 * |buffer|
    ensures Field(UintAt(buffer, offset, size), size - 1 - i, 1) == BitAt(buffer, offset + i)
  {
    var u := UintAt(buffer, offset, size - 1);
    var b := BitAt(buffer, offset + size - 1);
    assert (2 * u + b) / 2 == u;
    if i == size - 1 {
      assert Pow2(1) == 2;
    } else {
      UintBit(buffer, offset, size - 1, i);
      FieldOfHalf(2 * u + b, size - 2 - i, 1);
    }
  }

  // -------------------------------------------------------------- decoding

  /** The decoder's state: the next bit offset, the ring buffer `lbb`, its
      write index, and the bytes emitted so far. */
  datatype State = State(offset: nat, ring: seq<Byte>, index: nat, out: seq<Byte>)

  predicate Valid(st: State) {
    |st.ring| == RING_SIZE && st.index < RING_SIZE
  }

  function Start(): (st: State)
    ensures Valid(st) && st.offset == 0 && st.out == [] && st.index == 0
    ensures forall j :: 0 <= j < RING_SIZE ==> st.ring[j] == 0
  {
    State(0, seq(RING_SIZE, _ => 0), 0, [])
  }

  /** Emitting a byte appends it to the output, stores it at the ring index
      and advances the index modulo the ring size. */
  function Emit(st: State, byte: Byte): (r: State)
    requires Valid(st)
    ensures Valid(r) && r.offset == st.offset
    ensures r.out == st.out + [byte]
    ensures r.ring == st.ring[st.index := byte]
    ensures r.index == (st.index + 1) % RING_SIZE
  {
    State(st.offset, st.ring[st.index := byte], (st.index + 1) % RING_SIZE, st.out + [byte])
  }

  /** `lbb[(lbb_offset - 1 + i) % 0x2000]`: position -1 (a stored position of
      0, first byte) reads `undefined`, which the output array stores as 0. */
  function RingByte(st: State, position: int): (b: Byte)
    requires Valid(st)
    ensures position >= 0 ==> b == st.ring[position % RING_SIZE]
    ensures position < 0 ==> b == 0
  {
    if position < 0 then 0 else st.ring[position % RING_SIZE]
  }

  /** A back-reference copies `count` bytes one at a time, each read after
      the previous one was stored, so a copy may overlap its own output. */
  function Copy(st: State, position: int, count: nat): (r: State)
    requires Valid(st)
    ensures Valid(r) && r.offset == st.offset
    ensures |r.out| == |st.out| + count && r.out[..|st.out|] == st.out
    decreases count
  {
    if count == 0 then st else Copy(Emit(st, RingByte(st, position)), position + 1, count - 1)
  }

  /** A literal token: its 9 bits consumed, its byte emitted. */
  function LiteralToken(st: State, byte: Byte): (r: State)
    requires Valid(st)
    ensures Valid(r)
  {
    Emit(st.(offset := st.offset + 1 + LITERAL_BITS), byte)
  }

  /** A back-reference token: its 18 bits consumed, 3 + length bytes copied
      from ring position `position - 1` on. */
  function MatchToken(st: State, position: nat, length: nat): (r: State)
    requires Valid(st)
    ensures Valid(r)
  {
    Copy(st.(offset := st.offset + 1 + POSITION_BITS + LENGTH_BITS), (position as int) - 1, MIN_MATCH + length)
  }

  /** One token, or None when one of its reads runs past the buffer. */
  function Token(buffer: seq<Byte>, st: State): (r: Option<State>)
    requires Valid(st)
    ensures r.Some? ==> Valid(r.value)
  {
    match GetBit(buffer, st.offset)
    case Failure(_) => None
    case Success(flag) =>
      if flag == 1 then
        match GetUint(buffer, st.offset + 1, LITERAL_BITS)
        case Failure(_) => None
        case Success(byte) =>
          Pow2Byte();
          Some(LiteralToken(st, byte))
      else
        match GetUint(buffer, st.offset + 1, POSITION_BITS)
        case Failure(_) => None
        case Success(position) =>
          match GetUint(buffer, st.offset + 1 + POSITION_BITS, LENGTH_BITS)
          case Failure(_) => None
          case Success(length) =>
            Some(MatchToken(st, position, length))
  }

  /** A literal token is a set flag bit and 8 bits of data: it emits exactly
      that byte and consumes 9 bits. A back-reference token is a clear flag
      bit, 13 bits of position and 4 of length: it emits 3 to 18 bytes and
      consumes 18 bits. */
  lemma TokenShape(buffer: seq<Byte>, st: State)
    requires Valid(st) && Token(buffer, st).Some?
    ensures var r := Token(buffer, st).value;
            GetBit(buffer, st.offset).value == 1 ==>
              r.offset == st.offset + 9 && r.out == st.out + [GetUint(buffer, st.offset + 1, 8).value as Byte]
    ensures var r := Token(buffer, st).value;
            GetBit(buffer, st.offset).value == 0 ==>
              r.offset == st.offset + 18 && r.out[..|st.out|] == st.out &&
              |r.out| == |st.out| + 3 + GetUint(buffer, st.offset + 14, 4).value &&
              |st.out| + 3 <= |r.out| <= |st.out| + 18
  {
    Pow2Table();
  }

  /** The bits a token needs: 9 for a literal, 18 for a back-reference.
      Token fails exactly when they run past the end of the buffer. */
  lemma TokenFits(buffer: seq<Byte>, st: State)
    requires Valid(st)
    ensures Token(buffer, st).None? <==>
            (st.offset >= 8 * |buffer| ||
             (GetBit(buffer, st.offset).value == 1 && st.offset + 9 > 8 * |buffer|) ||
             (GetBit(buffer, st.offset).value == 0 && st.offset + 18 > 8 * |buffer|))
  {
  }

  /** Decodes tokens until one does not fit (the read error the source
      swallows), or until the offset reaches `buffer.length * 32`. */
  function Run(buffer: seq<Byte>, st: State): (r: State)
    requires Valid(st)
    ensures Valid(r) && |r.out| >= |st.out| && r.out[..|st.out|] == st.out
    decreases 8 * |buffer| - st.offset
  {
    if st.offset < |buffer| * 32 then
      match Token(buffer, st)
      case None => st
      case Some(next) =>
        TokenAdvances(buffer, st);
        var r := Run(buffer, next);
        assert r.out[..|st.out|] == r.out[..|next.out|][..|st.out|];
        r
    else st
  }

  lemma TokenAdvances(buffer: seq<Byte>, st: State)
    requires Valid(st) && Token(buffer, st).Some?
    ensures var next := Token(buffer, st).value;
            st.offset < next.offset <= 8 * |buffer| && |next.out| > |st.out| && next.out[..|st.out|] == st.out
  {
    Pow2Table();
  }

  /** Decoding stops only where the next token does not fit: no exception
      escapes, and everything before the stop was decoded. */
  lemma RunStops(buffer: seq<Byte>, st: State)
    requires Valid(st)
    ensures Token(buffer, Run(buffer, st)).None? || Run(buffer, st).offset >= |buffer| * 32
    decreases 8 * |buffer| - st.offset
  {
    if st.offset < |buffer| * 32 && Token(buffer, st).Some? {
      TokenAdvances(buffer, st);
      RunStops(buffer, Token(buffer, st).value);
    }
  }

  // ------------------------------------------------- ring mirrors the output

  /** Byte k of the output is kept at ring position k mod 0x2000 until 0x2000
      later bytes overwrite it, and the ring index is the output length mod
      0x2000: so position p of a back-reference names the byte emitted at the
      last output offset congruent to p - 1 + i. */
  predicate Mirrors(st: State)
    requires Valid(st)
  {
    st.index == |st.out| % RING_SIZE &&
    (forall k :: 0 <= k < |st.out| && |st.out| - RING_SIZE <= k ==> st.ring[k % RING_SIZE] == st.out[k])
  }

  lemma EmitMirrors(st: State, byte: Byte)
    requires Valid(st) && Mirrors(st)
    ensures Mirrors(Emit(st, byte))
  {
    var r := Emit(st, byte);
    var n := |st.out|;
    forall k | 0 <= k < n + 1 && n + 1 - RING_SIZE <= k
      ensures r.ring[k % RING_SIZE] == r.out[k]
    {
      if k < n {
        assert k % RING_SIZE != n % RING_SIZE by {
          if k % RING_SIZE == n % RING_SIZE {
            DivModUnique(n - k, RING_SIZE, n / RING_SIZE - k / RING_SIZE, 0);
          }
        }
      }
    }
  }

  lemma {:induction false} CopyMirrors(st: State, position: int, count: nat)
    requires Valid(st) && Mirrors(st)
    ensures Mirrors(Copy(st, position, count))
    decreases count
  {
    if count > 0 {
      EmitMirrors(st, RingByte(st, position));
      CopyMirrors(Emit(st, RingByte(st, position)), position + 1, count - 1);
    }
  }

  lemma TokenMirrors(buffer: seq<Byte>, st: State)
    requires Valid(st) && Mirrors(st) && Token(buffer, st).Some?
    ensures Mirrors(Token(buffer, st).value)
  {
    if GetBit(buffer, st.offset).value == 1 {
      Pow2Byte();
      var byte := GetUint(buffer, st.offset + 1, 8).value;
      IsLiteralToken(buffer, st, byte);
      LiteralMirrors(st, byte);
    } else {
      var position := GetUint(buffer, st.offset + 1, POSITION_BITS).value;
      var length := GetUint(buffer, st.offset + 1 + POSITION_BITS, LENGTH_BITS).value;
      IsMatchToken(buffer, st, position, length);
      MatchMirrors(st, position, length);
    }
  }

  lemma LiteralMirrors(st: State, byte: Byte)
    requires Valid(st) && Mirrors(st)
    ensures Mirrors(LiteralToken(st, byte))
  {
    var moved := st.(offset := st.offset + 1 + LITERAL_BITS);
    assert Mirrors(moved);
    EmitMirrors(moved, byte);
  }

  lemma MatchMirrors(st: State, position: nat, length: nat)
    requires Valid(st) && Mirrors(st)
    ensures Mirrors(MatchToken(st, position, length))
  {
    var moved := st.(offset := st.offset + 1 + POSITION_BITS + LENGTH_BITS);
    assert Mirrors(moved);
    CopyMirrors(moved, (position as int) - 1, MIN_MATCH + length);
  }

  lemma {:induction false} RunMirrors(buffer: seq<Byte>, st: State)
    requires Valid(st) && Mirrors(st)
    ensures Mirrors(Run(buffer, st))
    decreases 8 * |buffer| - st.offset
  {
    if st.offset < |buffer| * 32 && Token(buffer, st).Some? {
      TokenMirrors(buffer, st);
      TokenAdvances(buffer, st);
      RunMirrors(buffer, Token(buffer, st).value);
    }
  }

  /** The whole decoded stream mirrors into the ring. */
  lemma DecodedMirrors(buffer: seq<Byte>)
    ensures Mirrors(Run(buffer, Start()))
  {
    RunMirrors(buffer, Start());
  }

  // ------------------------------------------------------------ truncation

  /** `if (expected_size && ret.length > expected_size) ret.length =
      expected_size`: a negative expected size makes that assignment throw. */
  function Truncate(out: seq<Byte>, expectedSize: int): (r: Result<seq<Byte>, RangeError>)
    ensures r.Failure? <==> expectedSize < 0
    ensures expectedSize == 0 || (expectedSize > 0 && |out| <= expectedSize) ==> r == Success(out)
    ensures expectedSize > 0 && |out| > expectedSize ==> r == Success(out[..expectedSize])
  {
    if expectedSize != 0 && |out| > expectedSize then
      if expectedSize < 0 then Failure(RangeError) else Success(out[..expectedSize])
    else Success(out)
  }

  /** What `lzss.decompress(buffer, expected_size)` returns. */
  function Decompressed(buffer: seq<Byte>, expectedSize: int): (r: Result<seq<Byte>, RangeError>)
    ensures expectedSize > 0 && r.Success? ==> |r.value| <= expectedSize
  {
    Truncate(Run(buffer, Start()).out, expectedSize)
  }

  // ----------------------------------------------------------------- method

  /** `lzss.decompress`: the ring buffer is an array updated in place, the
      output a list that grows by one byte per emitted byte. */
  method Decompress(buffer: seq<Byte>, expectedSize: int) returns (r: Result<seq<Byte>, RangeError>)
    ensures r == Decompressed(buffer, expectedSize)
  {
    var ret: seq<Byte> := [];
    var lbb := new Byte[RING_SIZE](_ => 0);
    var lbbIndex: nat := 0;
    var offset: nat := 0;
    assert lbb[..] == Start().ring;
    while offset < |buffer| * 32
      invariant lbbIndex < RING_SIZE && lbb.Length == RING_SIZE
      invariant Run(buffer, State(offset, lbb[..], lbbIndex, ret)) == Run(buffer, Start())
      decreases 8 * |buffer| - offset
    {
      ghost var st := State(offset, lbb[..], lbbIndex, ret);
      var decoded;
      decoded, offset, lbbIndex, ret := DecodeToken(buffer, lbb, offset, lbbIndex, ret);
      if !decoded {
        break;
      }
      TokenAdvances(buffer, st);
    }
    if expectedSize != 0 && |ret| > expectedSize {
      if expectedSize < 0 {
        return Failure(RangeError);
      }
      ret := ret[..expectedSize];
    }
    r := Success(ret);
  }

  /** One pass of the decoding loop: reads a token and applies it, or
      reports that one of its reads ran past the buffer (the RangeError the
      source catches), in which case nothing was emitted. */
  method DecodeToken(buffer: seq<Byte>, lbb: array<Byte>, offset0: nat, lbbIndex0: nat, ret0: seq<Byte>)
    returns (decoded: bool, offset: nat, lbbIndex: nat, ret: seq<Byte>)
    requires lbb.Length == RING_SIZE && lbbIndex0 < RING_SIZE
    modifies lbb
    ensures lbbIndex < RING_SIZE
    ensures var st := State(offset0, old(lbb[..]), lbbIndex0, ret0);
            if decoded then Token(buffer, st) == Some(State(offset, lbb[..], lbbIndex, ret))
            else Token(buffer, st).None? && ret == ret0 && Run(buffer, st) == st
  {
    var b := GetBit(buffer, offset0);
    if b.Failure? {
      Stopped(buffer, State(offset0, lbb[..], lbbIndex0, ret0));
      return false, offset0, lbbIndex0, ret0;
    }
    if b.value == 1 {
      decoded, offset, lbbIndex, ret := DecodeLiteral(buffer, lbb, offset0, lbbIndex0, ret0);
    } else {
      decoded, offset, lbbIndex, ret := DecodeMatch(buffer, lbb, offset0, lbbIndex0, ret0);
    }
  }

  /** The rest of a token whose flag bit is 1: an 8-bit literal. */
  method DecodeLiteral(buffer: seq<Byte>, lbb: array<Byte>, offset0: nat, lbbIndex0: nat, ret0: seq<Byte>)
    returns (decoded: bool, offset: nat, lbbIndex: nat, ret: seq<Byte>)
    requires lbb.Length == RING_SIZE && lbbIndex0 < RING_SIZE
    requires GetBit(buffer, offset0) == Success(1)
    modifies lbb
    ensures lbbIndex < RING_SIZE
    ensures var st := State(offset0, old(lbb[..]), lbbIndex0, ret0);
            if decoded then Token(buffer, st) == Some(State(offset, lbb[..], lbbIndex, ret))
            else Token(buffer, st).None? && ret == ret0 && Run(buffer, st) == st
  {
    ghost var st := State(offset0, lbb[..], lbbIndex0, ret0);
    offset, lbbIndex, ret := offset0 + 1, lbbIndex0, ret0;
    var byte := GetUint(buffer, offset, 8);
    if byte.Failure? {
      Stopped(buffer, st);
      return false, offset, lbbIndex, ret;
    }
    offset := offset + 8;
    Pow2Byte();
    lbbIndex, ret := EmitByte(lbb, lbbIndex, ret, byte.value);
    assert State(offset, lbb[..], lbbIndex, ret) == LiteralToken(st, byte.value);
    IsLiteralToken(buffer, st, byte.value);
    decoded := true;
  }

  /** The rest of a token whose flag bit is 0: a 13-bit position and a
      4-bit length. */
  method DecodeMatch(buffer: seq<Byte>, lbb: array<Byte>, offset0: nat, lbbIndex0: nat, ret0: seq<Byte>)
    returns (decoded: bool, offset: nat, lbbIndex: nat, ret: seq<Byte>)
    requires lbb.Length == RING_SIZE && lbbIndex0 < RING_SIZE
    requires GetBit(buffer, offset0) == Success(0)
    modifies lbb
    ensures lbbIndex < RING_SIZE
    ensures var st := State(offset0, old(lbb[..]), lbbIndex0, ret0);
            if decoded then Token(buffer, st) == Some(State(offset, lbb[..], lbbIndex, ret))
            else Token(buffer, st).None? && ret == ret0 && Run(buffer, st) == st
  {
    ghost var st := State(offset0, lbb[..], lbbIndex0, ret0);
    offset, lbbIndex, ret := offset0 + 1, lbbIndex0, ret0;
    var position := GetUint(buffer, offset, POSITION_BITS);
    if position.Failure? {
      MatchStopped(buffer, st);
      return false, offset, lbbIndex, ret;
    }
    offset := offset + POSITION_BITS;
    var repetitions := GetUint(buffer, offset, LENGTH_BITS);
    if repetitions.Failure? {
      MatchStopped(buffer, st);
      return false, offset, lbbIndex, ret;
    }
    IsMatchToken(buffer, st, position.value, repetitions.value);
    offset := offset + LENGTH_BITS;
    lbbIndex, ret := CopyMatch(lbb, lbbIndex, ret, offset, (position.value as int) - 1, MIN_MATCH + repetitions.value);
    assert State(offset, lbb[..], lbbIndex, ret) == MatchToken(st, position.value, repetitions.value);
    decoded := true;
  }

  /** A back-reference whose position or length runs past the buffer is no
      token, and the run ends where it is. */
  lemma MatchStopped(buffer: seq<Byte>, st: State)
    requires Valid(st) && GetBit(buffer, st.offset) == Success(0)
    requires GetUint(buffer, st.offset + 1, POSITION_BITS).Failure? ||
             GetUint(buffer, st.offset + 1 + POSITION_BITS, LENGTH_BITS).Failure?
    ensures Token(buffer, st).None? && Run(buffer, st) == st
  {
    Stopped(buffer, st);
  }

  /** Where a token does not fit, the run ends where it is. */
  lemma Stopped(buffer: seq<Byte>, st: State)
    requires Valid(st) && Token(buffer, st).None?
    ensures Run(buffer, st) == st
  {
  }

  lemma IsLiteralToken(buffer: seq<Byte>, st: State, byte: Byte)
    requires Valid(st) && GetBit(buffer, st.offset) == Success(1)
    requires GetUint(buffer, st.offset + 1, 8) == Success(byte)
    ensures Token(buffer, st) == Some(LiteralToken(st, byte))
  {
  }

  lemma IsMatchToken(buffer: seq<Byte>, st: State, position: nat, length: nat)
    requires Valid(st) && GetBit(buffer, st.offset) == Success(0)
    requires GetUint(buffer, st.offset + 1, POSITION_BITS) == Success(position)
    requires GetUint(buffer, st.offset + 1 + POSITION_BITS, LENGTH_BITS) == Success(length)
    ensures Token(buffer, st) == Some(MatchToken(st, position, length))
  {
  }

  /** Pushes a byte to the output and stores it at the ring index. */
  method EmitByte(lbb: array<Byte>, lbbIndex: nat, ret: seq<Byte>, byte: Byte) returns (index: nat, out: seq<Byte>)
    requires lbb.Length == RING_SIZE && lbbIndex < RING_SIZE
    modifies lbb
    ensures index == (lbbIndex + 1) % RING_SIZE && out == ret + [byte]
    ensures lbb[..] == old(lbb[..])[lbbIndex := byte]
  {
    out := ret + [byte];
    lbb[lbbIndex] := byte;
    index := (lbbIndex + 1) % RING_SIZE;
  }

  /** The inner loop of a back-reference: `count` bytes read from the ring
      starting at `position`, each pushed and stored before the next read. */
  method CopyMatch(lbb: array<Byte>, lbbIndex: nat, ret: seq<Byte>, ghost offset: nat, position: int, count: nat)
    returns (index: nat, out: seq<Byte>)
    requires lbb.Length == RING_SIZE && lbbIndex < RING_SIZE
    modifies lbb
    ensures index < RING_SIZE
    ensures State(offset, lbb[..], index, out) == Copy(State(offset, old(lbb[..]), lbbIndex, ret), position, count)
  {
    index, out := lbbIndex, ret;
    var i := 0;
    while i < count
      invariant 0 <= i <= count && index < RING_SIZE
      invariant Copy(State(offset, lbb[..], index, out), position + i, count - i) ==
                Copy(State(offset, old(lbb[..]), lbbIndex, ret), position, count)
    {
      index, out := CopyStep(lbb, index, out, offset, position + i);
      i := i + 1;
    }
  }

  /** One byte of a back-reference: read from the ring at `source`, then
      pushed and stored. */
  method CopyStep(lbb: array<Byte>, lbbIndex: nat, ret: seq<Byte>, ghost offset: nat, source: int)
    returns (index: nat, out: seq<Byte>)
    requires lbb.Length == RING_SIZE && lbbIndex < RING_SIZE
    modifies lbb
    ensures index < RING_SIZE
    ensures var before := State(offset, old(lbb[..]), lbbIndex, ret);
      State(offset, lbb[..], index, out) == Emit(before, RingByte(before, source))
  {
    var byte := if source < 0 then 0 else lbb[source % RING_SIZE];
    ghost var before := State(offset, lbb[..], lbbIndex, ret);
    assert byte == RingByte(before, source);
    index, out := EmitByte(lbb, lbbIndex, ret, byte);
    assert State(offset, lbb[..], index, out) == Emit(before, byte);
  }
}
