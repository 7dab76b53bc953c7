/** The GNM texture descriptor (PS4): eight little-endian 32-bit registers,
    and getters that pick bit fields out of them.

    A getter `(reg >> s) & ((1 << w) - 1)` is written `(reg / 2^s) % 2^w`
    with the powers spelled out: on a register below 2^32 with s + w <= 32
    the two agree (JavaScript's `>>` sees the register as a signed 32-bit
    value, but the mask keeps only bits the signed and unsigned readings
    share). */
module Gnm {
  import opened Wrappers
  import opened Bytes
  import opened Range

  const REGISTER_COUNT: nat := 8
  const DESCRIPTOR_SIZE: nat := 0x20

  datatype GnmTexture = GnmTexture(registers: seq<int>) {

    predicate Valid() {
      |registers| == REGISTER_COUNT && forall i :: 0 <= i < REGISTER_COUNT ==> 0 <= registers[i] < TWO_32
    }

    /** Register 0, whole. */
    function BaseAddress(): (r: int)
      requires Valid()
      ensures 0 <= r < TWO_32
    {
      registers[0]
    }

    /** Register 1, bits 8-19. */
    function MinLod(): (r: nat) requires Valid() ensures r < 0x1000 { (registers[1] / 0x100) % 0x1000 }

    /** Register 1, bits 20-25. */
    function DataFormat(): (r: nat) requires Valid() ensures r < 0x40 { (registers[1] / 0x10_0000) % 0x40 }

    /** Register 1, bits 26-29. */
    function NumFormat(): (r: nat) requires Valid() ensures r < 0x10 { (registers[1] / 0x400_0000) % 0x10 }

    /** The channel type reads the same bits as the number format. */
    function ChannelType(): (r: nat)
      requires Valid()
      ensures r == NumFormat()
    {
      (registers[1] / 0x400_0000) % 0x10
    }

    /** Register 1, bit 30. */
    function MType0(): bool requires Valid() { (registers[1] / 0x4000_0000) % 2 == 1 }

    /** `!!(reg >> 31)`: the signed shift gives -1 or 0, so this is bit 31. */
    function MType1(): (r: bool)
      requires Valid()
      ensures r <==> registers[1] >= 0x8000_0000
    {
      ToInt32(registers[1]) / 0x8000_0000 != 0
    }

    /** Register 2, bits 0-13, plus one. */
    function Width(): (r: nat)
      requires Valid()
      ensures 1 <= r <= 0x4000
    {
      registers[2] % 0x4000 + 1
    }

    /** Register 2, bits 14-27, plus one. */
    function Height(): (r: nat)
      requires Valid()
      ensures 1 <= r <= 0x4000
    {
      (registers[2] / 0x4000) % 0x4000 + 1
    }

    /** Register 2, bits 28-30. */
    function PerfMod(): (r: nat) requires Valid() ensures r < 8 { (registers[2] / 0x1000_0000) % 8 }

    /** Register 2, bit 31, read like `mType1`. */
    function Interlaced(): (r: bool)
      requires Valid()
      ensures r <==> registers[2] >= 0x8000_0000
    {
      ToInt32(registers[2]) / 0x8000_0000 != 0
    }

    /** Register 3: three bits each for the destination selects, four each
        for the base and last level, five for the tiling index. */
    function DstSelX(): (r: nat) requires Valid() ensures r < 8 { registers[3] % 8 }
    function DstSelY(): (r: nat) requires Valid() ensures r < 8 { (registers[3] / 8) % 8 }
    function DstSelZ(): (r: nat) requires Valid() ensures r < 8 { (registers[3] / 0x40) % 8 }
    function DstSelW(): (r: nat) requires Valid() ensures r < 8 { (registers[3] / 0x200) % 8 }
    function BaseLevel(): (r: nat) requires Valid() ensures r < 0x10 { (registers[3] / 0x1000) % 0x10 }
    function LastLevel(): (r: nat) requires Valid() ensures r < 0x10 { (registers[3] / 0x1_0000) % 0x10 }
    function TilingIndex(): (r: nat) requires Valid() ensures r < 0x20 { (registers[3] / 0x10_0000) % 0x20 }

    /** `pow2pad`, `mtype2` and `atc` as written read register 1 (bits 25, 26
        and 27), although the descriptor layout puts them in register 3. */
    function Pow2Pad(): bool requires Valid() { (registers[1] / 0x200_0000) % 2 == 1 }
    function MType2(): bool requires Valid() { (registers[1] / 0x400_0000) % 2 == 1 }
    function Atc(): bool requires Valid() { (registers[1] / 0x800_0000) % 2 == 1 }

    /** The same three flags read from register 3, where the layout has them. */
    function Pow2PadCorrected(): bool requires Valid() { (registers[3] / 0x200_0000) % 2 == 1 }
    function MType2Corrected(): bool requires Valid() { (registers[3] / 0x400_0000) % 2 == 1 }
    function AtcCorrected(): bool requires Valid() { (registers[3] / 0x800_0000) % 2 == 1 }

    /** Register 3, bits 28-31. */
    function TextureType(): (r: nat) requires Valid() ensures r < 0x10 { (registers[3] / 0x1000_0000) % 0x10 }

    /** Register 4, bits 0-12, plus one. */
    function Depth(): (r: nat)
      requires Valid()
      ensures 1 <= r <= 0x2000
    {
      registers[4] % 0x2000 + 1
    }

    /** Register 4, bits 13-26, plus one. */
    function Pitch(): (r: nat)
      requires Valid()
      ensures 1 <= r <= 0x4000
    {
      (registers[4] / 0x2000) % 0x4000 + 1
    }

    /** Register 6, bits 20 to 24. */
    function LodHdwCntEn(): bool requires Valid() { (registers[6] / 0x10_0000) % 2 == 1 }
    function CompressionEn(): bool requires Valid() { (registers[6] / 0x20_0000) % 2 == 1 }
    function AlphaIsOnMsb(): bool requires Valid() { (registers[6] / 0x40_0000) % 2 == 1 }
    function ColorTransform(): bool requires Valid() { (registers[6] / 0x80_0000) % 2 == 1 }
    function AltTileMode(): bool requires Valid() { (registers[6] / 0x100_0000) % 2 == 1 }

    /** Register 7, whole. */
    function Metadata(): (r: int)
      requires Valid()
      ensures 0 <= r < TWO_32
    {
      registers[7]
    }

    /** Every field, the three register-3 flags read where the layout has
        them. */
    function Decode(): (d: Descriptor)
      requires Valid()
      ensures d.Valid()
    {
      Descriptor(BaseAddress(), MinLod(), DataFormat(), NumFormat(), MType0(), MType1(),
                 Width(), Height(), PerfMod(), Interlaced(),
                 DstSelX(), DstSelY(), DstSelZ(), DstSelW(), BaseLevel(), LastLevel(),
                 TilingIndex(), Pow2PadCorrected(), MType2Corrected(), AtcCorrected(), TextureType(),
                 Depth(), Pitch(),
                 LodHdwCntEn(), CompressionEn(), AlphaIsOnMsb(), ColorTransform(), AltTileMode(),
                 Metadata())
    }
  }

  /** `GNMTexture.load`: the descriptor is the first 0x20 bytes of the range,
      read as eight little-endian words whatever the range's byte order. A
      word outside the buffer throws. */
  method Load(range: BufferRange) returns (r: Result<GnmTexture, RangeError>)
    ensures r.Success? <==> 0 <= range.begin && range.begin + DESCRIPTOR_SIZE <= |range.buffer|
    ensures r.Success? ==> r.value.Valid()
    ensures r.Success? ==> forall i :: 0 <= i < REGISTER_COUNT ==>
                             r.value.registers[i] == Le32At(range.buffer, range.begin + 4 * i)
  {
    var view := range.Slice(0, Some(DESCRIPTOR_SIZE));
    view.SetLe(true);
    var registers := [0, 0, 0, 0, 0, 0, 0, 0];
    var i := 0;
    while i < 8
      invariant 0 <= i <= 8 && |registers| == 8
      invariant view.buffer == range.buffer && view.begin == range.begin && view.le
      invariant forall j :: 0 <= j < 8 ==> 0 <= registers[j] < TWO_32
      invariant i > 0 ==> 0 <= range.begin && range.begin + 4 * i <= |range.buffer|
      invariant forall j :: 0 <= j < i ==> registers[j] == Le32At(range.buffer, range.begin + 4 * j)
    {
      var word := view.GetUint32(i * 4);
      if word.Failure? {
        return Failure(word.error);
      }
      registers := registers[i := word.value];
      i := i + 1;
    }
    return Success(GnmTexture(registers));
  }

  // ------------------------------------------------------------ encoding

  /** The fields the getters expose, as values. */
  datatype Descriptor = Descriptor(
    baseAddress: nat, minLod: nat, dataFormat: nat, numFormat: nat, mType0: bool, mType1: bool,
    width: nat, height: nat, perfMod: nat, interlaced: bool,
    dstSelX: nat, dstSelY: nat, dstSelZ: nat, dstSelW: nat, baseLevel: nat, lastLevel: nat,
    tilingIndex: nat, pow2Pad: bool, mType2: bool, atc: bool, textureType: nat,
    depth: nat, pitch: nat,
    lodHdwCntEn: bool, compressionEn: bool, alphaIsOnMsb: bool, colorTransform: bool, altTileMode: bool,
    metadata: nat)
  {
    /** Every field fits the bits the descriptor layout gives it; the sizes
        are stored minus one. */
    predicate Valid() {
      baseAddress < TWO_32 && minLod < 0x1000 && dataFormat < 0x40 && numFormat < 0x10 &&
      1 <= width <= 0x4000 && 1 <= height <= 0x4000 && perfMod < 8 &&
      dstSelX < 8 && dstSelY < 8 && dstSelZ < 8 && dstSelW < 8 && baseLevel < 0x10 && lastLevel < 0x10 &&
      tilingIndex < 0x20 && textureType < 0x10 && 1 <= depth <= 0x2000 && 1 <= pitch <= 0x4000 &&
      metadata < TWO_32
    }
  }

  /** A flag as the bit that stores it. */
  function Flag(b: bool): nat { if b then 1 else 0 }

  /** The digit of x in place p, base q: x is lo + p * (v + q * hi) with
      lo < p and v < q. */
  lemma Digit(x: int, p: int, q: int, lo: int, v: int, hi: int)
    requires p > 0 && q > 0 && 0 <= lo < p && 0 <= v < q && x == lo + p * (v + q * hi)
    ensures (x / p) % q == v
  {
    var m := v + q * hi;
    assert x == m * p + lo;
    DivModUnique(x, p, m, lo);
    DivModUnique(m, q, hi, v);
  }

  /** The lowest digit of x in base q. */
  lemma LowDigit(x: int, q: int, v: int, hi: int)
    requires q > 0 && 0 <= v < q && x == v + q * hi
    ensures x % q == v
  {
    DivModUnique(x, q, hi, v);
  }

  /** Register 1: min LOD from bit 8, data format from bit 20, number format
      from bit 26, memory types 0 and 1 at bits 30 and 31; bits 0-7 are 0. */
  function Register1(
    minLod: nat, dataFormat: nat, numFormat: nat, mType0: bool, mType1: bool): (r: nat)
    requires minLod < 0x1000 && dataFormat < 0x40 && numFormat < 0x10
    ensures r < TWO_32
  {
    minLod * 0x100 + dataFormat * 0x10_0000 + numFormat * 0x400_0000 + Flag(mType0) * 0x4000_0000 +
    Flag(mType1) * 0x8000_0000
  }

  /** Each field of a register-1 word is the digit its getter reads. */
  lemma Register1Digits(
    minLod: nat, dataFormat: nat, numFormat: nat, mType0: bool, mType1: bool)
    requires minLod < 0x1000 && dataFormat < 0x40 && numFormat < 0x10
    ensures var r := Register1(minLod, dataFormat, numFormat, mType0, mType1);
            minLod == (r / 0x100) % 0x1000 &&
            dataFormat == (r / 0x10_0000) % 0x40 &&
            numFormat == (r / 0x400_0000) % 0x10 &&
            mType0 == ((r / 0x4000_0000) % 2 == 1) &&
            mType1 == ((r / 0x8000_0000) % 2 == 1)
  {
    var r := Register1(minLod, dataFormat, numFormat, mType0, mType1);
    assert minLod == (r / 0x100) % 0x1000 by {
      Digit(r, 0x100, 0x1000, 0, minLod, dataFormat + numFormat * 0x40 + Flag(mType0) * 0x400 + Flag(mType1) * 0x800);
    }
    assert dataFormat == (r / 0x10_0000) % 0x40 by {
      Digit(r, 0x10_0000, 0x40, minLod * 0x100, dataFormat, numFormat + Flag(mType0) * 0x10 + Flag(mType1) * 0x20);
    }
    assert numFormat == (r / 0x400_0000) % 0x10 by {
      Digit(r, 0x400_0000, 0x10, minLod * 0x100 + dataFormat * 0x10_0000, numFormat, Flag(mType0) + Flag(mType1) * 0x2);
    }
    assert mType0 == ((r / 0x4000_0000) % 2 == 1) by {
      Digit(r, 0x4000_0000, 2, minLod * 0x100 + dataFormat * 0x10_0000 + numFormat * 0x400_0000, Flag(mType0), Flag(mType1));
    }
    assert mType1 == ((r / 0x8000_0000) % 2 == 1) by {
      Digit(r, 0x8000_0000, 2, minLod * 0x100 + dataFormat * 0x10_0000 + numFormat * 0x400_0000 + Flag(mType0) * 0x4000_0000, Flag(mType1), 0);
    }
  }

  /** Register 2: width - 1 from bit 0, height - 1 from bit 14, perfmod from
      bit 28, interlaced at bit 31. */
  function Register2(
    widthLess1: nat, heightLess1: nat, perfMod: nat, interlaced: bool): (r: nat)
    requires widthLess1 < 0x4000 && heightLess1 < 0x4000 && perfMod < 8
    ensures r < TWO_32
  {
    widthLess1 + heightLess1 * 0x4000 + perfMod * 0x1000_0000 + Flag(interlaced) * 0x8000_0000
  }

  /** Each field of a register-2 word is the digit its getter reads. */
  lemma Register2Digits(
    widthLess1: nat, heightLess1: nat, perfMod: nat, interlaced: bool)
    requires widthLess1 < 0x4000 && heightLess1 < 0x4000 && perfMod < 8
    ensures var r := Register2(widthLess1, heightLess1, perfMod, interlaced);
            widthLess1 == r % 0x4000 &&
            heightLess1 == (r / 0x4000) % 0x4000 &&
            perfMod == (r / 0x1000_0000) % 8 &&
            interlaced == ((r / 0x8000_0000) % 2 == 1)
  {
    var r := Register2(widthLess1, heightLess1, perfMod, interlaced);
    assert widthLess1 == r % 0x4000 by {
      LowDigit(r, 0x4000, widthLess1, heightLess1 + perfMod * 0x4000 + Flag(interlaced) * 0x2_0000);
    }
    assert heightLess1 == (r / 0x4000) % 0x4000 by {
      Digit(r, 0x4000, 0x4000, widthLess1, heightLess1, perfMod + Flag(interlaced) * 0x8);
    }
    assert perfMod == (r / 0x1000_0000) % 8 by {
      Digit(r, 0x1000_0000, 8, widthLess1 + heightLess1 * 0x4000, perfMod, Flag(interlaced));
    }
    assert interlaced == ((r / 0x8000_0000) % 2 == 1) by {
      Digit(r, 0x8000_0000, 2, widthLess1 + heightLess1 * 0x4000 + perfMod * 0x1000_0000, Flag(interlaced), 0);
    }
  }

  /** Register 3: the four destination selects, the base and last level, the
      tiling index, pow2pad, mtype2, atc and the texture type, from bit 0 up. */
  function Register3(
    dstSelX: nat, dstSelY: nat, dstSelZ: nat, dstSelW: nat, baseLevel: nat, lastLevel: nat,
    tilingIndex: nat, pow2Pad: bool, mType2: bool, atc: bool, textureType: nat): (r: nat)
    requires dstSelX < 8 && dstSelY < 8 && dstSelZ < 8 && dstSelW < 8 && baseLevel < 0x10 &&
             lastLevel < 0x10 && tilingIndex < 0x20 && textureType < 0x10
    ensures r < TWO_32
  {
    dstSelX + dstSelY * 0x8 + dstSelZ * 0x40 + dstSelW * 0x200 + baseLevel * 0x1000 +
    lastLevel * 0x1_0000 + tilingIndex * 0x10_0000 + Flag(pow2Pad) * 0x200_0000 +
    Flag(mType2) * 0x400_0000 + Flag(atc) * 0x800_0000 + textureType * 0x1000_0000
  }

  /** The destination selects and the base and last level of a register-3
      word are the digits their getters read. */
  lemma Register3LowDigits(
    dstSelX: nat, dstSelY: nat, dstSelZ: nat, dstSelW: nat, baseLevel: nat, lastLevel: nat,
    tilingIndex: nat, pow2Pad: bool, mType2: bool, atc: bool, textureType: nat)
    requires dstSelX < 8 && dstSelY < 8 && dstSelZ < 8 && dstSelW < 8 && baseLevel < 0x10 &&
             lastLevel < 0x10 && tilingIndex < 0x20 && textureType < 0x10
    ensures var r := Register3(dstSelX, dstSelY, dstSelZ, dstSelW, baseLevel, lastLevel, tilingIndex, pow2Pad, mType2, atc, textureType);
            dstSelX == r % 8 &&
            dstSelY == (r / 0x8) % 8 &&
            dstSelZ == (r / 0x40) % 8 &&
            dstSelW == (r / 0x200) % 8 &&
            baseLevel == (r / 0x1000) % 0x10 &&
            lastLevel == (r / 0x1_0000) % 0x10
  {
    var r := Register3(dstSelX, dstSelY, dstSelZ, dstSelW, baseLevel, lastLevel, tilingIndex, pow2Pad, mType2, atc, textureType);
    assert dstSelX == r % 8 by {
      LowDigit(r, 8, dstSelX, dstSelY + dstSelZ * 0x8 + dstSelW * 0x40 + baseLevel * 0x200 + lastLevel * 0x2000 + tilingIndex * 0x2_0000 + Flag(pow2Pad) * 0x40_0000 + Flag(mType2) * 0x80_0000 + Flag(atc) * 0x100_0000 + textureType * 0x200_0000);
    }
    assert dstSelY == (r / 0x8) % 8 by {
      Digit(r, 0x8, 8, dstSelX, dstSelY, dstSelZ + dstSelW * 0x8 + baseLevel * 0x40 + lastLevel * 0x400 + tilingIndex * 0x4000 + Flag(pow2Pad) * 0x8_0000 + Flag(mType2) * 0x10_0000 + Flag(atc) * 0x20_0000 + textureType * 0x40_0000);
    }
    assert dstSelZ == (r / 0x40) % 8 by {
      Digit(r, 0x40, 8, dstSelX + dstSelY * 0x8, dstSelZ, dstSelW + baseLevel * 0x8 + lastLevel * 0x80 + tilingIndex * 0x800 + Flag(pow2Pad) * 0x1_0000 + Flag(mType2) * 0x2_0000 + Flag(atc) * 0x4_0000 + textureType * 0x8_0000);
    }
    assert dstSelW == (r / 0x200) % 8 by {
      Digit(r, 0x200, 8, dstSelX + dstSelY * 0x8 + dstSelZ * 0x40, dstSelW, baseLevel + lastLevel * 0x10 + tilingIndex * 0x100 + Flag(pow2Pad) * 0x2000 + Flag(mType2) * 0x4000 + Flag(atc) * 0x8000 + textureType * 0x1_0000);
    }
    assert baseLevel == (r / 0x1000) % 0x10 by {
      Digit(r, 0x1000, 0x10, dstSelX + dstSelY * 0x8 + dstSelZ * 0x40 + dstSelW * 0x200, baseLevel, lastLevel + tilingIndex * 0x10 + Flag(pow2Pad) * 0x200 + Flag(mType2) * 0x400 + Flag(atc) * 0x800 + textureType * 0x1000);
    }
    assert lastLevel == (r / 0x1_0000) % 0x10 by {
      Digit(r, 0x1_0000, 0x10, dstSelX + dstSelY * 0x8 + dstSelZ * 0x40 + dstSelW * 0x200 + baseLevel * 0x1000, lastLevel, tilingIndex + Flag(pow2Pad) * 0x20 + Flag(mType2) * 0x40 + Flag(atc) * 0x80 + textureType * 0x100);
    }
  }

  /** The tiling index, the three flags and the texture type of a register-3
      word are the digits their getters read. */
  lemma Register3HighDigits(
    dstSelX: nat, dstSelY: nat, dstSelZ: nat, dstSelW: nat, baseLevel: nat, lastLevel: nat,
    tilingIndex: nat, pow2Pad: bool, mType2: bool, atc: bool, textureType: nat)
    requires dstSelX < 8 && dstSelY < 8 && dstSelZ < 8 && dstSelW < 8 && baseLevel < 0x10 &&
             lastLevel < 0x10 && tilingIndex < 0x20 && textureType < 0x10
    ensures var r := Register3(dstSelX, dstSelY, dstSelZ, dstSelW, baseLevel, lastLevel, tilingIndex, pow2Pad, mType2, atc, textureType);
            tilingIndex == (r / 0x10_0000) % 0x20 &&
            pow2Pad == ((r / 0x200_0000) % 2 == 1) &&
            mType2 == ((r / 0x400_0000) % 2 == 1) &&
            atc == ((r / 0x800_0000) % 2 == 1) &&
            textureType == (r / 0x1000_0000) % 0x10
  {
    var r := Register3(dstSelX, dstSelY, dstSelZ, dstSelW, baseLevel, lastLevel, tilingIndex, pow2Pad, mType2, atc, textureType);
    assert tilingIndex == (r / 0x10_0000) % 0x20 by {
      Digit(r, 0x10_0000, 0x20, dstSelX + dstSelY * 0x8 + dstSelZ * 0x40 + dstSelW * 0x200 + baseLevel * 0x1000 + lastLevel * 0x1_0000, tilingIndex, Flag(pow2Pad) + Flag(mType2) * 0x2 + Flag(atc) * 0x4 + textureType * 0x8);
    }
    assert pow2Pad == ((r / 0x200_0000) % 2 == 1) by {
      Digit(r, 0x200_0000, 2, dstSelX + dstSelY * 0x8 + dstSelZ * 0x40 + dstSelW * 0x200 + baseLevel * 0x1000 + lastLevel * 0x1_0000 + tilingIndex * 0x10_0000, Flag(pow2Pad), Flag(mType2) + Flag(atc) * 0x2 + textureType * 0x4);
    }
    assert mType2 == ((r / 0x400_0000) % 2 == 1) by {
      Digit(r, 0x400_0000, 2, dstSelX + dstSelY * 0x8 + dstSelZ * 0x40 + dstSelW * 0x200 + baseLevel * 0x1000 + lastLevel * 0x1_0000 + tilingIndex * 0x10_0000 + Flag(pow2Pad) * 0x200_0000, Flag(mType2), Flag(atc) + textureType * 0x2);
    }
    assert atc == ((r / 0x800_0000) % 2 == 1) by {
      Digit(r, 0x800_0000, 2, dstSelX + dstSelY * 0x8 + dstSelZ * 0x40 + dstSelW * 0x200 + baseLevel * 0x1000 + lastLevel * 0x1_0000 + tilingIndex * 0x10_0000 + Flag(pow2Pad) * 0x200_0000 + Flag(mType2) * 0x400_0000, Flag(atc), textureType);
    }
    assert textureType == (r / 0x1000_0000) % 0x10 by {
      Digit(r, 0x1000_0000, 0x10, dstSelX + dstSelY * 0x8 + dstSelZ * 0x40 + dstSelW * 0x200 + baseLevel * 0x1000 + lastLevel * 0x1_0000 + tilingIndex * 0x10_0000 + Flag(pow2Pad) * 0x200_0000 + Flag(mType2) * 0x400_0000 + Flag(atc) * 0x800_0000, textureType, 0);
    }
  }


  /** Register 4: depth - 1 from bit 0, pitch - 1 from bit 13; bits 27-31 are 0. */
  function Register4(
    depthLess1: nat, pitchLess1: nat): (r: nat)
    requires depthLess1 < 0x2000 && pitchLess1 < 0x4000
    ensures r < TWO_32
  {
    depthLess1 + pitchLess1 * 0x2000
  }

  /** Each field of a register-4 word is the digit its getter reads. */
  lemma Register4Digits(
    depthLess1: nat, pitchLess1: nat)
    requires depthLess1 < 0x2000 && pitchLess1 < 0x4000
    ensures var r := Register4(depthLess1, pitchLess1);
            depthLess1 == r % 0x2000 &&
            pitchLess1 == (r / 0x2000) % 0x4000
  {
    var r := Register4(depthLess1, pitchLess1);
    assert depthLess1 == r % 0x2000 by {
      LowDigit(r, 0x2000, depthLess1, pitchLess1);
    }
    assert pitchLess1 == (r / 0x2000) % 0x4000 by {
      Digit(r, 0x2000, 0x4000, depthLess1, pitchLess1, 0);
    }
  }

  /** Register 6: the five flags at bits 20-24; the rest is 0. */
  function Register6(
    lodHdwCntEn: bool, compressionEn: bool, alphaIsOnMsb: bool, colorTransform: bool,
    altTileMode: bool): (r: nat)
    ensures r < TWO_32
  {
    Flag(lodHdwCntEn) * 0x10_0000 + Flag(compressionEn) * 0x20_0000 + Flag(alphaIsOnMsb) * 0x40_0000 +
    Flag(colorTransform) * 0x80_0000 + Flag(altTileMode) * 0x100_0000
  }

  /** Each field of a register-6 word is the digit its getter reads. */
  lemma Register6Digits(
    lodHdwCntEn: bool, compressionEn: bool, alphaIsOnMsb: bool, colorTransform: bool,
    altTileMode: bool)
    ensures var r := Register6(lodHdwCntEn, compressionEn, alphaIsOnMsb, colorTransform, altTileMode);
            lodHdwCntEn == ((r / 0x10_0000) % 2 == 1) &&
            compressionEn == ((r / 0x20_0000) % 2 == 1) &&
            alphaIsOnMsb == ((r / 0x40_0000) % 2 == 1) &&
            colorTransform == ((r / 0x80_0000) % 2 == 1) &&
            altTileMode == ((r / 0x100_0000) % 2 == 1)
  {
    var r := Register6(lodHdwCntEn, compressionEn, alphaIsOnMsb, colorTransform, altTileMode);
    assert lodHdwCntEn == ((r / 0x10_0000) % 2 == 1) by {
      Digit(r, 0x10_0000, 2, 0, Flag(lodHdwCntEn), Flag(compressionEn) + Flag(alphaIsOnMsb) * 0x2 + Flag(colorTransform) * 0x4 + Flag(altTileMode) * 0x8);
    }
    assert compressionEn == ((r / 0x20_0000) % 2 == 1) by {
      Digit(r, 0x20_0000, 2, Flag(lodHdwCntEn) * 0x10_0000, Flag(compressionEn), Flag(alphaIsOnMsb) + Flag(colorTransform) * 0x2 + Flag(altTileMode) * 0x4);
    }
    assert alphaIsOnMsb == ((r / 0x40_0000) % 2 == 1) by {
      Digit(r, 0x40_0000, 2, Flag(lodHdwCntEn) * 0x10_0000 + Flag(compressionEn) * 0x20_0000, Flag(alphaIsOnMsb), Flag(colorTransform) + Flag(altTileMode) * 0x2);
    }
    assert colorTransform == ((r / 0x80_0000) % 2 == 1) by {
      Digit(r, 0x80_0000, 2, Flag(lodHdwCntEn) * 0x10_0000 + Flag(compressionEn) * 0x20_0000 + Flag(alphaIsOnMsb) * 0x40_0000, Flag(colorTransform), Flag(altTileMode));
    }
    assert altTileMode == ((r / 0x100_0000) % 2 == 1) by {
      Digit(r, 0x100_0000, 2, Flag(lodHdwCntEn) * 0x10_0000 + Flag(compressionEn) * 0x20_0000 + Flag(alphaIsOnMsb) * 0x40_0000 + Flag(colorTransform) * 0x80_0000, Flag(altTileMode), 0);
    }
  }

  /** The eight registers of a descriptor, laid out as the getters read
      them; register 5 and the bits no getter reads are 0. */
  function Encode(d: Descriptor): (t: GnmTexture)
    requires d.Valid()
    ensures t.Valid()
  {
    GnmTexture([d.baseAddress,
                Register1(d.minLod, d.dataFormat, d.numFormat, d.mType0, d.mType1),
                Register2(d.width - 1, d.height - 1, d.perfMod, d.interlaced),
                Register3(d.dstSelX, d.dstSelY, d.dstSelZ, d.dstSelW, d.baseLevel, d.lastLevel,
                          d.tilingIndex, d.pow2Pad, d.mType2, d.atc, d.textureType),
                Register4(d.depth - 1, d.pitch - 1),
                0,
                Register6(d.lodHdwCntEn, d.compressionEn, d.alphaIsOnMsb, d.colorTransform,
                          d.altTileMode),
                d.metadata])
  }

  /** The register-1 getters read back the fields Encode put there. */
  lemma Register1Decodes(d: Descriptor)
    requires d.Valid()
    ensures var t := Encode(d);
            t.MinLod() == d.minLod &&
            t.DataFormat() == d.dataFormat &&
            t.NumFormat() == d.numFormat &&
            t.MType0() == d.mType0 &&
            t.MType1() == d.mType1
  {
    Register1Digits(d.minLod, d.dataFormat, d.numFormat, d.mType0, d.mType1);
  }

  /** The register-2 getters read back the fields Encode put there. */
  lemma Register2Decodes(d: Descriptor)
    requires d.Valid()
    ensures var t := Encode(d);
            t.Width() == d.width &&
            t.Height() == d.height &&
            t.PerfMod() == d.perfMod &&
            t.Interlaced() == d.interlaced
  {
    Register2Digits(d.width - 1, d.height - 1, d.perfMod, d.interlaced);
  }

  /** The register-3 getters, the flags read from register 3, read back the
      fields Encode put there. */
  lemma Register3Decodes(d: Descriptor)
    requires d.Valid()
    ensures var t := Encode(d);
            t.DstSelX() == d.dstSelX &&
            t.DstSelY() == d.dstSelY &&
            t.DstSelZ() == d.dstSelZ &&
            t.DstSelW() == d.dstSelW &&
            t.BaseLevel() == d.baseLevel &&
            t.LastLevel() == d.lastLevel &&
            t.TilingIndex() == d.tilingIndex &&
            t.Pow2PadCorrected() == d.pow2Pad &&
            t.MType2Corrected() == d.mType2 &&
            t.AtcCorrected() == d.atc &&
            t.TextureType() == d.textureType
  {
    Register3LowDigits(d.dstSelX, d.dstSelY, d.dstSelZ, d.dstSelW, d.baseLevel, d.lastLevel, d.tilingIndex, d.pow2Pad,
      d.mType2, d.atc, d.textureType);
    Register3HighDigits(d.dstSelX, d.dstSelY, d.dstSelZ, d.dstSelW, d.baseLevel, d.lastLevel, d.tilingIndex, d.pow2Pad,
      d.mType2, d.atc, d.textureType);
  }

  /** The register-4 getters read back the fields Encode put there. */
  lemma Register4Decodes(d: Descriptor)
    requires d.Valid()
    ensures var t := Encode(d);
            t.Depth() == d.depth &&
            t.Pitch() == d.pitch
  {
    Register4Digits(d.depth - 1, d.pitch - 1);
  }

  /** The register-6 getters read back the fields Encode put there. */
  lemma Register6Decodes(d: Descriptor)
    requires d.Valid()
    ensures var t := Encode(d);
            t.LodHdwCntEn() == d.lodHdwCntEn &&
            t.CompressionEn() == d.compressionEn &&
            t.AlphaIsOnMsb() == d.alphaIsOnMsb &&
            t.ColorTransform() == d.colorTransform &&
            t.AltTileMode() == d.altTileMode
  {
    Register6Digits(d.lodHdwCntEn, d.compressionEn, d.alphaIsOnMsb, d.colorTransform, d.altTileMode);
  }

  /** Every getter reads back the field the descriptor layout puts there:
      decoding an encoded descriptor gives it back. */
  lemma DecodeEncode(d: Descriptor)
    requires d.Valid()
    ensures Encode(d).Decode() == d
  {
    Register1Decodes(d);
    Register2Decodes(d);
    Register3Decodes(d);
    Register4Decodes(d);
    Register6Decodes(d);
  }

  /** Bits 25, 26 and 27 of a register-1 word: the top bit of the data
      format and the two low bits of the number format. */
  lemma Register1FormatBits(
    minLod: nat, dataFormat: nat, numFormat: nat, mType0: bool, mType1: bool)
    requires minLod < 0x1000 && dataFormat < 0x40 && numFormat < 0x10
    ensures var r := Register1(minLod, dataFormat, numFormat, mType0, mType1);
            (r / 0x200_0000) % 2 == dataFormat / 0x20 &&
            (r / 0x400_0000) % 2 == numFormat % 2 &&
            (r / 0x800_0000) % 2 == (numFormat / 2) % 2
  {
    var r := Register1(minLod, dataFormat, numFormat, mType0, mType1);
    assert (r / 0x200_0000) % 2 == dataFormat / 0x20 by {
      assert dataFormat == dataFormat % 0x20 + 0x20 * (dataFormat / 0x20);
      Digit(r, 0x200_0000, 2, minLod * 0x100 + (dataFormat % 0x20) * 0x10_0000, dataFormat / 0x20,
            numFormat + Flag(mType0) * 0x10 + Flag(mType1) * 0x20);
    }
    assert (r / 0x400_0000) % 2 == numFormat % 2 by {
      assert numFormat == numFormat % 2 + 2 * (numFormat / 2);
      Digit(r, 0x400_0000, 2, minLod * 0x100 + dataFormat * 0x10_0000, numFormat % 2,
            numFormat / 2 + Flag(mType0) * 8 + Flag(mType1) * 0x10);
    }
    assert (r / 0x800_0000) % 2 == (numFormat / 2) % 2 by {
      assert numFormat == numFormat % 2 + 2 * ((numFormat / 2) % 2) + 4 * (numFormat / 4);
      Digit(r, 0x800_0000, 2, minLod * 0x100 + dataFormat * 0x10_0000 + (numFormat % 2) * 0x400_0000,
            (numFormat / 2) % 2, numFormat / 4 + Flag(mType0) * 4 + Flag(mType1) * 8);
    }
  }

  /** The getters as written take pow2pad for the top bit of the data format,
      and mtype2 and atc for the two low bits of the number format. */
  lemma FlagsReadFromFormat(d: Descriptor)
    requires d.Valid()
    ensures var t := Encode(d);
            (t.Pow2Pad() <==> d.dataFormat >= 0x20) &&
            (t.MType2() <==> d.numFormat % 2 == 1) &&
            (t.Atc() <==> (d.numFormat / 2) % 2 == 1)
  {
    Register1FormatBits(d.minLod, d.dataFormat, d.numFormat, d.mType0, d.mType1);
  }

  /** A descriptor whose register 3 carries the three flags while register 1
      is zero: the getters as written report none of them. */
  lemma FlagsReadFromWrongRegister()
    ensures var t := GnmTexture([0, 0, 0, 0x0E00_0000, 0, 0, 0, 0]);
            t.Valid() && !t.Pow2Pad() && !t.MType2() && !t.Atc() &&
            t.Pow2PadCorrected() && t.MType2Corrected() && t.AtcCorrected()
  {
  }
}
