/** `BufferRange`: a window [begin, end) over a shared byte buffer, with a byte
    order for multi-byte reads. Every loader hands these windows around.
    The integer getters go through a DataView over the WHOLE buffer, so they
    check the buffer's bounds, not the window's: a read outside the buffer
    throws RangeError (modelled as `Failure`), a read past `end` but inside the
    buffer succeeds. */
module Range {
  import opened Wrappers
  import opened Bytes

  datatype RangeError = RangeError

  /** The DataView reads behind the getters, at absolute position i of the
      buffer: RangeError unless every byte read lies inside it. */
  function Uint8At(buffer: seq<Byte>, i: int): Result<int, RangeError>
  {
    if 0 <= i && i + 1 <= |buffer| then Success(buffer[i]) else Failure(RangeError)
  }

  function Int8At(buffer: seq<Byte>, i: int): Result<int, RangeError>
  {
    if 0 <= i && i + 1 <= |buffer| then Success(if buffer[i] < 0x80 then buffer[i] else (buffer[i] as int) - 0x100)
    else Failure(RangeError)
  }

  function Uint16At(buffer: seq<Byte>, i: int, le: bool): Result<int, RangeError>
  {
    if 0 <= i && i + 2 <= |buffer| then Success(Word16(buffer[i], buffer[i + 1], le)) else Failure(RangeError)
  }

  function Uint32At(buffer: seq<Byte>, i: int, le: bool): Result<int, RangeError>
  {
    if 0 <= i && i + 4 <= |buffer| then Success(Word32(buffer[i], buffer[i + 1], buffer[i + 2], buffer[i + 3], le))
    else Failure(RangeError)
  }

  class BufferRange {
    const buffer: seq<Byte>
    var begin: int
    var end: int
    var le: bool

    /** `new BufferRange(buffer?, begin?, end?, littleEndian = true)`;
        an omitted buffer is an empty one. */
    constructor (buffer: seq<Byte>, begin: Option<int>, end: Option<int>, le: bool)
      ensures this.buffer == buffer && this.le == le
      ensures this.begin == begin.GetOr(0)
      ensures this.end == end.GetOr(|buffer|)
    {
      this.buffer := buffer;
      this.begin := begin.GetOr(0);
      this.end := end.GetOr(|buffer|);
      this.le := le;
    }

    method Clone() returns (r: BufferRange)
      ensures fresh(r)
      ensures r.buffer == buffer && r.begin == begin && r.end == end && r.le == le
    {
      r := new BufferRange(buffer, Some(begin), Some(end), le);
    }

    /** `slice(b, e?)`: both bounds are relative to this window's begin; an
        omitted end keeps this window's end. */
    method Slice(b: int, e: Option<int>) returns (r: BufferRange)
      ensures fresh(r)
      ensures r.buffer == buffer && r.le == le
      ensures r.begin == begin + b
      ensures r.end == if e.Some? then begin + e.value else end
    {
      var nb := b + begin;
      var ne := if e.None? then end else begin + e.value;
      r := new BufferRange(buffer, Some(nb), Some(ne), le);
    }

    /** `reset(b?, e?)`: absolute bounds over the same buffer; omitted bounds
        span the whole buffer. */
    method Reset(b: Option<int>, e: Option<int>) returns (r: BufferRange)
      ensures fresh(r)
      ensures r.buffer == buffer && r.le == le
      ensures r.begin == b.GetOr(0) && r.end == e.GetOr(|buffer|)
    {
      r := new BufferRange(buffer, b, e, le);
    }

    function Size(): (r: int)
      reads this
      ensures begin + r == end
    {
      end - begin
    }

    method SetEnd(value: int)
      modifies this`end
      ensures end == value
    {
      end := value;
    }

    method SetLe(value: bool)
      modifies this`le
      ensures le == value
    {
      le := value;
    }

    /** The size setter refuses (logs and returns) a size that would move
        `end` forward; otherwise it moves `end` to begin + value. */
    method SetSize(value: int)
      modifies this`end
      ensures begin + value > old(end) ==> end == old(end)
      ensures begin + value <= old(end) ==> end == begin + value && Size() == value
    {
      if begin + value > end {
        return;
      }
      end := begin + value;
    }

    /** The `buffer` getter: the bytes of the window, clamped to the buffer. */
    function Bytes(): (r: seq<Byte>)
      reads this
      ensures 0 <= begin <= end <= |buffer| ==> r == buffer[begin..end]
    {
      ClampedSlice(buffer, begin, end)
    }

    /** `getUint8Array(offset, length)`: a copy of the bytes of
        slice(offset, offset + length). */
    function GetUint8Array(offset: int, length: int): (r: seq<Byte>)
      reads this
      ensures 0 <= begin + offset && 0 <= length && begin + offset + length <= |buffer| ==>
                r == buffer[begin + offset..begin + offset + length]
      ensures |r| <= |buffer|
    {
      ClampedSlice(buffer, begin + offset, begin + offset + length)
    }

    /** True when n bytes at absolute position i lie inside the buffer. */
    predicate Readable(i: int, n: nat) {
      0 <= i && i + n <= |buffer|
    }

    function GetUint8(offset: int): (r: Result<int, RangeError>)
      reads this
      ensures r.Success? <==> Readable(begin + offset, 1)
      ensures r.Success? ==> r.value == buffer[begin + offset]
    {
      Uint8At(buffer, begin + offset)
    }

    function GetInt8(offset: int): (r: Result<int, RangeError>)
      reads this
      ensures r.Success? <==> Readable(begin + offset, 1)
      ensures r.Success? ==> -0x80 <= r.value < 0x80
      ensures r.Success? ==> (r.value - buffer[begin + offset]) % 0x100 == 0
    {
      Int8At(buffer, begin + offset)
    }

    function GetUint16(offset: int): (r: Result<int, RangeError>)
      reads this
      ensures r.Success? <==> Readable(begin + offset, 2)
      ensures r.Success? ==> 0 <= r.value < 0x1_0000
      ensures r.Success? && le ==> r.value == buffer[begin + offset] + 0x100 * (buffer[begin + offset + 1] as int)
      ensures r.Success? && !le ==> r.value == 0x100 * (buffer[begin + offset] as int) + buffer[begin + offset + 1]
    {
      Uint16At(buffer, begin + offset, le)
    }

    function GetInt16(offset: int): (r: Result<int, RangeError>)
      reads this
      ensures r.Success? <==> Readable(begin + offset, 2)
      ensures r.Success? ==> -0x8000 <= r.value < 0x8000
      ensures r.Success? ==> (r.value - GetUint16(offset).value) % 0x1_0000 == 0
    {
      var u :- GetUint16(offset);
      Success(if u < 0x8000 then u else u - 0x1_0000)
    }

    function GetUint32(offset: int): (r: Result<int, RangeError>)
      reads this
      ensures r.Success? <==> Readable(begin + offset, 4)
      ensures r.Success? ==> 0 <= r.value < TWO_32
      ensures r.Success? && le ==> r.value == Le32At(buffer, begin + offset)
      ensures r.Success? && !le ==>
                r.value == 0x100_0000 * (buffer[begin + offset] as int) + 0x1_0000 * (buffer[begin + offset + 1] as int)
                           + 0x100 * (buffer[begin + offset + 2] as int) + buffer[begin + offset + 3]
    {
      Uint32At(buffer, begin + offset, le)
    }

    function GetInt32(offset: int): (r: Result<int, RangeError>)
      reads this
      ensures r.Success? <==> Readable(begin + offset, 4)
      ensures r.Success? ==> -0x8000_0000 <= r.value < 0x8000_0000
      ensures r.Success? ==> (r.value - GetUint32(offset).value) % TWO_32 == 0
    {
      var u :- GetUint32(offset);
      Success(ToInt32(u))
    }

    /** `getUint24` is `getUint32(offset) >> 8`; `>>` is the SIGNED shift, so
        a word with its top bit set gives its top 24 bits sign-extended, a
        negative result. */
    function GetUint24(offset: int): (r: Result<int, RangeError>)
      reads this
      ensures r.Success? <==> Readable(begin + offset, 4)
      ensures r.Success? && GetUint32(offset).value < 0x8000_0000 ==>
                r.value == GetUint32(offset).value / 0x100 && 0 <= r.value < 0x80_0000
      ensures r.Success? && GetUint32(offset).value >= 0x8000_0000 ==>
                r.value == GetUint32(offset).value / 0x100 - 0x100_0000 && -0x80_0000 <= r.value < 0
    {
      var u :- GetUint32(offset);
      SignedShiftRight8(u);
      Success(ToInt32(u) / 0x100)
    }

    /** `getUint40` as written: `(v << 8) + getUint8(i + 4)` where `<<` keeps
        only 32 bits, so the top byte of v is lost and the sum can be negative. */
    function GetUint40(offset: int): (r: Result<int, RangeError>)
      reads this
      ensures r.Success? <==> Readable(begin + offset, 5)
      ensures r.Success? ==>
                r.value == ToInt32(GetUint32(offset).value * 0x100) + buffer[begin + offset + 4]
    {
      var v :- GetUint32(offset);
      var lo :- GetUint8(offset + 4);
      Success(ToInt32(v * 0x100) + lo)
    }

    /** `getUint48` as written: `v += getUint16(i + 4) << 32`. The shift count
        is taken modulo 32, so the 16-bit word (read big-endian: no byte-order
        argument is passed) is added unshifted. */
    function GetUint48(offset: int): (r: Result<int, RangeError>)
      reads this
      ensures r.Success? <==> Readable(begin + offset, 6)
      ensures r.Success? ==>
                r.value == GetUint32(offset).value
                           + 0x100 * (buffer[begin + offset + 4] as int) + buffer[begin + offset + 5]
    {
      var i := begin + offset;
      var v :- GetUint32(offset);
      if Readable(i + 4, 2) then Success(v + ToInt32(Word16(buffer[i + 4], buffer[i + 5], false)))
      else Failure(RangeError)
    }
  
    /** `getUint40` as evidently intended: the 32-bit word at offset followed
        by the byte at offset + 4, as one unsigned 40-bit number. */
    function GetUint40Corrected(offset: int): (r: Result<int, RangeError>)
      reads this
      ensures r.Success? <==> Readable(begin + offset, 5)
      ensures r.Success? ==> 0 <= r.value < 0x100_0000_0000
      ensures r.Success? ==> r.value / 0x100 == GetUint32(offset).value
      ensures r.Success? ==> r.value % 0x100 == buffer[begin + offset + 4]
    {
      var v :- GetUint32(offset);
      var lo :- GetUint8(offset + 4);
      Success(v * 0x100 + lo)
    }

    /** `getUint48` as evidently intended: the 16-bit word at offset + 4
        (still read big-endian) shifted above the 32-bit word at offset. */
    function GetUint48Corrected(offset: int): (r: Result<int, RangeError>)
      reads this
      ensures r.Success? <==> Readable(begin + offset, 6)
      ensures r.Success? ==> 0 <= r.value < 0x1_0000_0000_0000
      ensures r.Success? ==> r.value % TWO_32 == GetUint32(offset).value
      ensures r.Success? ==>
                r.value / TWO_32 == 0x100 * (buffer[begin + offset + 4] as int) + buffer[begin + offset + 5]
    {
      var i := begin + offset;
      var v :- GetUint32(offset);
      if Readable(i + 4, 2) then Success(v + Word16(buffer[i + 4], buffer[i + 5], false) * TWO_32)
      else Failure(RangeError)
    }
  }

  /** `slice(a).slice(b)` is the window starting a + b bytes into the
      original one and ending where it ends. */
  method SliceTwice(r: BufferRange, a: int, b: int) returns (s: BufferRange)
    ensures s.buffer == r.buffer && s.le == r.le
    ensures s.begin == r.begin + a + b && s.end == r.end
  {
    var t := r.Slice(a, None);
    s := t.Slice(b, None);
  }

  /** A window whose top byte is set: `getUint40` loses it. */
  /** `u >> 8` on an unsigned 32-bit word u: the plain quotient below 2^31,
      the quotient less 2^24 from 2^31 up. */
  lemma SignedShiftRight8(u: int)
    requires 0 <= u < TWO_32
    ensures u < 0x8000_0000 ==> ToInt32(u) / 0x100 == u / 0x100 && 0 <= u / 0x100 < 0x80_0000
    ensures u >= 0x8000_0000 ==> ToInt32(u) / 0x100 == u / 0x100 - 0x100_0000 && -0x80_0000 <= u / 0x100 - 0x100_0000 < 0
  {
    if u >= 0x8000_0000 {
      assert ToInt32(u) == u - TWO_32;
      assert (u - TWO_32) / 0x100 == u / 0x100 - 0x100_0000;
    }
  }

  lemma GetUint40LosesTopByte(r: BufferRange)
    requires r.buffer == [0, 0, 0, 1, 0] && r.begin == 0 && r.le
    ensures r.GetUint40(0) == Success(0)
    ensures r.GetUint40Corrected(0) == Success(0x1_0000_0000)
  {
  }

  /** The high 16-bit word is added unshifted by `getUint48`. */
  lemma GetUint48AddsHighWordUnshifted(r: BufferRange)
    requires r.buffer == [0, 0, 0, 0, 0, 1] && r.begin == 0
    ensures r.GetUint48(0) == Success(1)
    ensures r.GetUint48Corrected(0) == Success(0x1_0000_0000)
  {
  }

  /** Accumulated entries acc followed by the rest of a scan, or the scan's
      error. */
  function Prepended<T>(acc: seq<T>, rest: Result<seq<T>, RangeError>): Result<seq<T>, RangeError>
  {
    if rest.Success? then Success(acc + rest.value) else rest
  }

  lemma PrependedEmpty<T>(rest: Result<seq<T>, RangeError>)
    ensures Prepended([], rest) == rest
  {
    if rest.Success? {
      assert [] + rest.value == rest.value;
    }
  }

  lemma PrependedOne<T>(acc: seq<T>, x: T, rest: Result<seq<T>, RangeError>)
    ensures Prepended(acc, Prepended([x], rest)) == Prepended(acc + [x], rest)
  {
    if rest.Success? {
      assert acc + ([x] + rest.value) == (acc + [x]) + rest.value;
    }
  }
}
