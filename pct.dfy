/** PS2 PCT textures: a short header followed by a stream of GIF A+D packets
    whose image transfers carry the pixel indices and the palette (CLUT). */
module Pct {
  import opened Wrappers
  import opened Bytes
  import opened Range

  const GIF_STREAM_OFFSET: nat := 0x8D
  const GIF_BLOCK_SIZE: nat := 16
  const GS_TRXPOS: nat := 0x51
  const GS_TRXREG: nat := 0x52
  const GS_TRXDIR: nat := 0x53

  // ------------------------------------------------------------------ CLUT

  /** The palette entry that entry i of the unswizzled palette comes from:
      entries 8-15 of every group of 32 take the entry 8 further on, entries
      16-23 the entry 8 before, so the two runs of 8 trade places. */
  function ClutSource(i: nat): nat
  {
    if 8 <= i % 32 < 16 then i + 8 else if 16 <= i % 32 < 24 then i - 8 else i
  }

  /** The source's bit test on bits 3-4 of i (`(i & 0x18) === 0x08` takes
      i + 8, `=== 0x10` takes i - 8) selects the same entries, and the source
      entry stays in the group of 32 and at the same place mod 8. */
  lemma ClutSourceBits(i: nat)
    ensures Field(i, 3, 2) == 1 ==> ClutSource(i) == i + 8
    ensures Field(i, 3, 2) == 2 ==> ClutSource(i) == i - 8
    ensures Field(i, 3, 2) != 1 && Field(i, 3, 2) != 2 ==> ClutSource(i) == i
    ensures ClutSource(i) / 32 == i / 32 && ClutSource(i) % 8 == i % 8
  {
    Pow2Table();
    var q, b := i / 32, i % 32;
    DivModUnique(i, 8, 4 * q + b / 8, b % 8);
    DivModUnique(i / 8, 4, q, b / 8);
    var s := ClutSource(i);
    if 8 <= b < 16 {
      DivModUnique(s, 32, q, b + 8);
      DivModUnique(s, 8, 4 * q + (b + 8) / 8, b % 8);
    } else if 16 <= b < 24 {
      DivModUnique(s, 32, q, b - 8);
      DivModUnique(s, 8, 4 * q + (b - 8) / 8, b % 8);
    }
  }

  /** The source of one of the 256 entries is one of them. */
  lemma ClutSourceBelow(i: nat)
    requires i < 256
    ensures ClutSource(i) < 256
  {
    DivModUnique(i, 32, i / 32, i % 32);
  }

  /** Taking the source entry twice comes back: the palette reordering is a
      self-inverse permutation of the entries. */
  lemma ClutSourceInvolution(i: nat)
    ensures ClutSource(ClutSource(i)) == i
  {
    var q, b := i / 32, i % 32;
    var s := ClutSource(i);
    if 8 <= b < 16 {
      DivModUnique(s, 32, q, b + 8);
    } else if 16 <= b < 24 {
      DivModUnique(s, 32, q, b - 8);
    }
  }

  /** What `unswizzleClut8(clut)` returns: a palette of the same length whose
      first 256 entries (1024 bytes) are the reordered ones, a byte past the
      end of the input reading as 0, and whose further bytes stay 0. */
  function UnswizzledClut(clut: seq<Byte>): (r: seq<Byte>)
    ensures |r| == |clut|
  {
    seq(|clut|, j requires 0 <= j < |clut| => if j < 1024 then ByteAt(clut, 4 * ClutSource(j / 4) + j % 4) else 0)
  }

  /** `unswizzleClut8(clut)`: for each of the 256 entries, copies the four
      bytes of its source entry; writes past the end are dropped. */
  method UnswizzleClut8(clut: seq<Byte>) returns (out: array<Byte>)
    ensures fresh(out) && out[..] == UnswizzledClut(clut)
  {
    out := new Byte[|clut|](_ => 0);
    for i := 0 to 256
      invariant out.Length == |clut|
      invariant forall j :: 0 <= j < out.Length ==> out[j] == if j < 4 * i then UnswizzledClut(clut)[j] else 0
    {
      CopyClutEntry(clut, out, i);
    }
  }

  /** One turn of the loop of `unswizzleClut8`: entry i receives the four
      bytes of its source entry. */
  method CopyClutEntry(clut: seq<Byte>, out: array<Byte>, i: nat)
    requires i < 256 && out.Length == |clut|
    requires forall j :: 0 <= j < out.Length ==> out[j] == if j < 4 * i then UnswizzledClut(clut)[j] else 0
    modifies out
    ensures forall j :: 0 <= j < out.Length ==> out[j] == if j < 4 * (i + 1) then UnswizzledClut(clut)[j] else 0
  {
    ghost var spec := UnswizzledClut(clut);
    var src := ClutSource(i);
    PixelBytes(i);
    if 4 * i < out.Length { out[4 * i] := ByteAt(clut, 4 * src); }
    if 4 * i + 1 < out.Length { out[4 * i + 1] := ByteAt(clut, 4 * src + 1); }
    if 4 * i + 2 < out.Length { out[4 * i + 2] := ByteAt(clut, 4 * src + 2); }
    if 4 * i + 3 < out.Length { out[4 * i + 3] := ByteAt(clut, 4 * src + 3); }
  }

  /** For a full 256-entry palette, unswizzling twice gives the palette
      back. */
  lemma {:induction false} UnswizzleClutTwice(clut: seq<Byte>)
    requires |clut| == 1024
    ensures UnswizzledClut(UnswizzledClut(clut)) == clut
  {
    forall j | 0 <= j < 1024
      ensures UnswizzledClut(UnswizzledClut(clut))[j] == clut[j]
    {
      UnswizzleClutTwiceAt(clut, j);
    }
  }

  lemma UnswizzleClutTwiceAt(clut: seq<Byte>, j: nat)
    requires |clut| == 1024 && j < 1024
    ensures UnswizzledClut(UnswizzledClut(clut))[j] == clut[j]
  {
    var once := UnswizzledClut(clut);
    var e, c := j / 4, j % 4;
    var s := ClutSource(e);
    ClutSourceInvolution(e);
    ClutSourceBelow(e);
    DivModUnique(4 * s + c, 4, s, c);
    assert once[4 * s + c] == ByteAt(clut, 4 * e + c);
    assert UnswizzledClut(once)[j] == ByteAt(once, 4 * s + c);
  }

  // ------------------------------------------------------- palette lookup

  /** `Math.min(alpha * 2, 255)`: the PS2 alpha range 0-0x80 scaled to
      0-255. */
  function Alpha(a: Byte): (r: Byte)
    ensures a <= 0x7F ==> r == 2 * a
    ensures a >= 0x80 ==> r == 255
  {
    if 2 * a < 255 then 2 * a else 255
  }

  /** Channel c of palette entry idx, alpha scaled; an entry past the end of
      the palette reads as 0. */
  function Texel(clut: seq<Byte>, idx: nat, c: nat): Byte
    requires c < 4
  {
    if c < 3 then ByteAt(clut, 4 * idx + c) else Alpha(ByteAt(clut, 4 * idx + 3))
  }

  /** What `decodeIndexed(pixels, clut, count)` returns: `count` RGBA pixels,
      pixel i the palette entry `pixels[i]`; a pixel past the end of
      `pixels` has an undefined index, which makes all four bytes 0. */
  function Indexed(pixels: seq<Byte>, clut: seq<Byte>, count: nat): (r: seq<Byte>)
    ensures |r| == 4 * count
  {
    seq(4 * count, k requires 0 <= k < 4 * count => if k / 4 < |pixels| then Texel(clut, pixels[k / 4], k % 4) else 0)
  }

  method DecodeIndexed(pixels: seq<Byte>, clut: seq<Byte>, count: nat) returns (rgba: array<Byte>)
    ensures fresh(rgba) && rgba[..] == Indexed(pixels, clut, count)
  {
    rgba := new Byte[4 * count](_ => 0);
    for i := 0 to count
      invariant forall k :: 0 <= k < 4 * i ==> rgba[k] == Indexed(pixels, clut, count)[k]
    {
      if i < |pixels| {
        var idx: nat := pixels[i];
        rgba[4 * i] := ByteAt(clut, 4 * idx);
        rgba[4 * i + 1] := ByteAt(clut, 4 * idx + 1);
        rgba[4 * i + 2] := ByteAt(clut, 4 * idx + 2);
        rgba[4 * i + 3] := Alpha(ByteAt(clut, 4 * idx + 3));
      } else {
        rgba[4 * i], rgba[4 * i + 1], rgba[4 * i + 2], rgba[4 * i + 3] := 0, 0, 0, 0;
      }
      PixelBytes(i);
    }
  }

  /** Bytes 4i to 4i + 3 hold pixel i, channel by channel. */
  lemma PixelBytes(i: nat)
    ensures (4 * i) / 4 == i && (4 * i) % 4 == 0
    ensures (4 * i + 1) / 4 == i && (4 * i + 1) % 4 == 1
    ensures (4 * i + 2) / 4 == i && (4 * i + 2) % 4 == 2
    ensures (4 * i + 3) / 4 == i && (4 * i + 3) % 4 == 3
  {
    DivModUnique(4 * i, 4, i, 0);
    DivModUnique(4 * i + 1, 4, i, 1);
    DivModUnique(4 * i + 2, 4, i, 2);
    DivModUnique(4 * i + 3, 4, i, 3);
  }

  /** The 4-bit index of pixel i: the low nibble of byte i / 2 for an even i,
      the high nibble for an odd one; a byte past the end reads as 0. */
  function Nibble(packed: seq<Byte>, i: nat): (r: nat)
    ensures r < 16
  {
    var b := ByteAt(packed, i / 2);
    if i % 2 == 0 then b % 16 else b / 16
  }

  /** The two pixels of byte j give the byte back: the even pixel is its
      low nibble and the odd one its high nibble. */
  lemma NibblesOfByte(packed: seq<Byte>, j: nat)
    requires j < |packed|
    ensures Nibble(packed, 2 * j) + 16 * Nibble(packed, 2 * j + 1) == packed[j]
  {
    DivModUnique(2 * j, 2, j, 0);
    DivModUnique(2 * j + 1, 2, j, 1);
  }

  /** What `decode4bpp(packed, clut, count)` returns: pixel i is the palette
      entry its nibble selects. */
  function Decoded4bpp(packed: seq<Byte>, clut: seq<Byte>, count: nat): (r: seq<Byte>)
    ensures |r| == 4 * count
  {
    seq(4 * count, k requires 0 <= k < 4 * count => Texel(clut, Nibble(packed, k / 4), k % 4))
  }

  method Decode4bpp(packed: seq<Byte>, clut: seq<Byte>, count: nat) returns (rgba: array<Byte>)
    ensures fresh(rgba) && rgba[..] == Decoded4bpp(packed, clut, count)
  {
    rgba := new Byte[4 * count](_ => 0);
    for i := 0 to count
      invariant forall k :: 0 <= k < 4 * i ==> rgba[k] == Decoded4bpp(packed, clut, count)[k]
    {
      var b := ByteAt(packed, i / 2);
      var idx: nat := if i % 2 == 0 then b % 16 else b / 16;
      rgba[4 * i] := ByteAt(clut, 4 * idx);
      rgba[4 * i + 1] := ByteAt(clut, 4 * idx + 1);
      rgba[4 * i + 2] := ByteAt(clut, 4 * idx + 2);
      rgba[4 * i + 3] := Alpha(ByteAt(clut, 4 * idx + 3));
      PixelBytes(i);
    }
  }

  /** Decoding 4-bit data is decoding the sequence of its nibbles as 8-bit
      indices. */
  lemma Decode4bppIsIndexed(packed: seq<Byte>, clut: seq<Byte>, count: nat)
    ensures Decoded4bpp(packed, clut, count) == Indexed(seq(count, i requires 0 <= i < count => Nibble(packed, i) as Byte), clut, count)
  {
  }

  // ------------------------------------------------------------ unswizzle8

  const INTERLACE_MATRIX: seq<int> := [0x00, 0x10, 0x02, 0x12, 0x11, 0x01, 0x13, 0x03]
  const MATRIX: seq<int> := [0, 1, -1, 0]
  const TILE_MATRIX: seq<int> := [4, -4]

  /** Where texel (x, y) is read from in the PSMT8 layout (`i` in
      `unswizzle8`); the shifts and masks of the source are written as
      divisions and remainders, which agree with them on these non-negative
      values. */
  function SourceIndex(x: nat, y: nat, width: nat): (r: int)
    ensures r >= 0
  {
    var oddRow := y % 2 != 0;
    var num4 := (x / 4) % 4 + (if oddRow then 4 else 0);
    var num7 := (if oddRow then y - 1 else y) * width;
    INTERLACE_MATRIX[num4] + (x * 4) % 16 + (x / 16) * 32 + num7
  }

  /** The column texel (x, y) is written to (`xx`): in rows 4-7 of every 8,
      the two halves of each group of 8 columns trade places. */
  function TargetX(x: nat, y: nat): (r: nat)
  {
    x + (y / 4) % 2 * TILE_MATRIX[(x / 4) % 2]
  }

  /** The row texel (x, y) is written to (`yy`): rows 1 and 2 of every 4
      trade places. */
  function TargetY(y: nat): (r: nat)
  {
    y + MATRIX[y % 4]
  }

  /** Where texel (x, y) is written to (`j`). */
  function TargetIndex(x: nat, y: nat, width: nat): nat
  {
    TargetY(y) * width + TargetX(x, y)
  }

  /** One turn of the inner loop: copies the source texel when both indices
      are in range. */
  function Write(out: seq<Byte>, pixels: seq<Byte>, width: nat, x: nat, y: nat): (r: seq<Byte>)
    ensures |r| == |out|
  {
    var i, j := SourceIndex(x, y, width), TargetIndex(x, y, width);
    if i < |pixels| && j < |out| then out[j := pixels[i]] else out
  }

  /** The output after columns 0 to x - 1 of row y have been written. */
  function RowWrites(pixels: seq<Byte>, width: nat, out: seq<Byte>, y: nat, x: nat): (r: seq<Byte>)
    ensures |r| == |out|
  {
    if x == 0 then out else Write(RowWrites(pixels, width, out, y, x - 1), pixels, width, x - 1, y)
  }

  /** The output after rows 0 to y - 1 have been written, starting from a
      zeroed `width * height` buffer. */
  function Rows(pixels: seq<Byte>, width: nat, height: nat, y: nat): (r: seq<Byte>)
    ensures |r| == width * height
  {
    if y == 0 then seq(width * height, _ => 0)
    else RowWrites(pixels, width, Rows(pixels, width, height, y - 1), y - 1, width)
  }

  /** What `unswizzle8(pixels, width, height)` returns. */
  function Unswizzled8(pixels: seq<Byte>, width: nat, height: nat): (r: seq<Byte>)
    ensures |r| == width * height
  {
    Rows(pixels, width, height, height)
  }

  method Unswizzle8(pixels: seq<Byte>, width: nat, height: nat) returns (out: array<Byte>)
    ensures fresh(out) && out[..] == Unswizzled8(pixels, width, height)
  {
    out := new Byte[width * height](_ => 0);
    for y := 0 to height
      invariant out[..] == Rows(pixels, width, height, y)
    {
      ghost var start := out[..];
      for x := 0 to width
        invariant out[..] == RowWrites(pixels, width, start, y, x)
      {
        WriteTexel(pixels, width, x, y, out);
      }
    }
  }

  /** One turn of the inner loop of `unswizzle8`. */
  method WriteTexel(pixels: seq<Byte>, width: nat, x: nat, y: nat, out: array<Byte>)
    modifies out
    ensures out[..] == Write(old(out[..]), pixels, width, x, y)
  {
    var i := SourceIndex(x, y, width);
    var j := TargetIndex(x, y, width);
    if i < |pixels| && j < out.Length {
      out[j] := pixels[i];
    }
  }

  /** The destination map undoes itself: the texel written from (x, y) lands
      on the place whose texel is written to (x, y). */
  lemma TargetInvolution(x: nat, y: nat)
    ensures TargetY(TargetY(y)) == y
    ensures TargetX(TargetX(x, y), TargetY(y)) == x
  {
    var ty := TargetY(y);
    DivModUnique(y, 4, y / 4, y % 4);
    DivModUnique(ty, 4, y / 4, ty - 4 * (y / 4));
    var tx := TargetX(x, y);
    DivModUnique(x, 4, x / 4, x % 4);
    if (y / 4) % 2 == 1 {
      if (x / 4) % 2 == 0 {
        DivModUnique(tx, 4, x / 4 + 1, x % 4);
        DivModUnique(x / 4, 2, x / 8, 0);
        DivModUnique(x / 4 + 1, 2, x / 8, 1);
      } else {
        DivModUnique(tx, 4, x / 4 - 1, x % 4);
        DivModUnique(x / 4, 2, x / 8, 1);
        DivModUnique(x / 4 - 1, 2, x / 8, 0);
      }
    }
  }

  /** On a grid of whole 8 x 4 tiles the destination stays on the grid. */
  lemma TargetInGrid(x: nat, y: nat, width: nat, height: nat)
    requires width % 8 == 0 && height % 4 == 0 && x < width && y < height
    ensures TargetX(x, y) < width && TargetY(y) < height
    ensures TargetIndex(x, y, width) < width * height
  {
    TargetYInGrid(y, height);
    TargetXInGrid(x, y, width);
    PosInRow(TargetY(y), TargetX(x, y), width, height);
  }

  lemma TargetYInGrid(y: nat, height: nat)
    requires height % 4 == 0 && y < height
    ensures TargetY(y) < height
  {
    DivModUnique(y, 4, y / 4, y % 4);
    DivModUnique(height, 4, height / 4, 0);
    assert y / 4 < height / 4;
  }

  lemma TargetXInGrid(x: nat, y: nat, width: nat)
    requires width % 8 == 0 && x < width
    ensures TargetX(x, y) < width
  {
    DivModUnique(x, 8, x / 8, x % 8);
    DivModUnique(width, 8, width / 8, 0);
    assert x / 8 < width / 8;
    DivModUnique(x % 8, 4, (x / 4) % 2, x % 4);
    DivModUnique(x, 4, 2 * (x / 8) + (x % 8) / 4, x % 4);
  }

  /** On such a grid two different texels never share a destination. */
  lemma TargetInjective(x: nat, y: nat, x': nat, y': nat, width: nat, height: nat)
    requires width % 8 == 0 && height % 4 == 0
    requires x < width && y < height && x' < width && y' < height
    requires TargetIndex(x, y, width) == TargetIndex(x', y', width)
    ensures x == x' && y == y'
  {
    TargetInGrid(x, y, width, height);
    TargetInGrid(x', y', width, height);
    DivModUnique(TargetIndex(x, y, width), width, TargetY(y), TargetX(x, y));
    DivModUnique(TargetIndex(x', y', width), width, TargetY(y'), TargetX(x', y'));
    TargetInvolution(x, y);
    TargetInvolution(x', y');
  }

  /** Texel (x', y') has been visited before texel (x, y) in row-major
      order. */
  predicate Visited(x': nat, y': nat, x: nat, y: nat)
  {
    y' < y || (y' == y && x' < x)
  }

  /** Every visited texel holds its source byte at its destination, and
      every destination of a texel not yet visited is still 0. */
  ghost predicate Gathered(out: seq<Byte>, pixels: seq<Byte>, width: nat, height: nat, x: nat, y: nat)
  {
    |out| == width * height &&
    forall x', y' :: 0 <= x' < width && 0 <= y' < height && TargetIndex(x', y', width) < |out| ==>
      out[TargetIndex(x', y', width)] == if Visited(x', y', x, y) then ByteAt(pixels, SourceIndex(x', y', width)) else 0
  }

  lemma WriteGathers(out: seq<Byte>, pixels: seq<Byte>, width: nat, height: nat, x: nat, y: nat)
    requires width % 8 == 0 && height % 4 == 0 && x < width && y < height
    requires Gathered(out, pixels, width, height, x, y)
    ensures Gathered(Write(out, pixels, width, x, y), pixels, width, height, x + 1, y)
  {
    var next := Write(out, pixels, width, x, y);
    TargetInGrid(x, y, width, height);
    forall x', y' | 0 <= x' < width && 0 <= y' < height && TargetIndex(x', y', width) < |next|
      ensures next[TargetIndex(x', y', width)] == if Visited(x', y', x + 1, y) then ByteAt(pixels, SourceIndex(x', y', width)) else 0
    {
      if x' != x || y' != y {
        if TargetIndex(x', y', width) == TargetIndex(x, y, width) {
          TargetInjective(x, y, x', y', width, height);
        }
      }
    }
  }

  lemma {:induction false} RowWritesGather(pixels: seq<Byte>, width: nat, height: nat, out: seq<Byte>, y: nat, x: nat)
    requires width % 8 == 0 && height % 4 == 0 && x <= width && y < height
    requires Gathered(out, pixels, width, height, 0, y)
    ensures Gathered(RowWrites(pixels, width, out, y, x), pixels, width, height, x, y)
  {
    if x > 0 {
      RowWritesGather(pixels, width, height, out, y, x - 1);
      WriteGathers(RowWrites(pixels, width, out, y, x - 1), pixels, width, height, x - 1, y);
    }
  }

  /** A finished row is the same as the start of the next one. */
  lemma NextRow(out: seq<Byte>, pixels: seq<Byte>, width: nat, height: nat, y: nat)
    requires Gathered(out, pixels, width, height, width, y)
    ensures Gathered(out, pixels, width, height, 0, y + 1)
  {
    forall x', y' | 0 <= x' < width && 0 <= y' < height
      ensures Visited(x', y', width, y) == Visited(x', y', 0, y + 1)
    {
    }
  }

  lemma {:induction false} RowsGather(pixels: seq<Byte>, width: nat, height: nat, y: nat)
    requires width % 8 == 0 && height % 4 == 0 && y <= height
    ensures Gathered(Rows(pixels, width, height, y), pixels, width, height, 0, y)
  {
    if y > 0 {
      RowsGather(pixels, width, height, y - 1);
      var before := Rows(pixels, width, height, y - 1);
      RowWritesGather(pixels, width, height, before, y - 1, width);
      NextRow(RowWrites(pixels, width, before, y - 1, width), pixels, width, height, y - 1);
    }
  }

  /** On a grid of whole 8 x 4 tiles, `unswizzle8` moves every texel to its
      destination: output byte TargetIndex(x, y) is input byte
      SourceIndex(x, y), or 0 where the input is too short. With
      TargetInvolution, the output is a reordering of the texels read. */
  lemma Unswizzle8Gathers(pixels: seq<Byte>, width: nat, height: nat, x: nat, y: nat)
    requires width % 8 == 0 && height % 4 == 0 && x < width && y < height
    ensures TargetIndex(x, y, width) < width * height &&
      Unswizzled8(pixels, width, height)[TargetIndex(x, y, width)] == ByteAt(pixels, SourceIndex(x, y, width))
  {
    TargetInGrid(x, y, width, height);
    RowsGather(pixels, width, height, height);
  }

  // ----------------------------------------------------------------- flipY

  /** Offset of byte c of row r in an image of rows of `rowBytes` bytes. */
  function Pos(r: nat, c: nat, rowBytes: nat): nat
  {
    r * rowBytes + c
  }

  /** Every byte of the image has a row and a column. */
  lemma RowOf(k: nat, rowBytes: nat, height: nat)
    requires k < rowBytes * height
    ensures rowBytes > 0 && k / rowBytes < height && Pos(k / rowBytes, k % rowBytes, rowBytes) == k
  {
    if k / rowBytes >= height {
      MulMonotone(rowBytes, height, k / rowBytes);
    }
  }

  /** A byte of row r lies inside an image of `height` rows, and its offset
      gives its row and column back. */
  lemma PosInRow(r: nat, c: nat, rowBytes: nat, height: nat)
    requires r < height && c < rowBytes
    ensures Pos(r, c, rowBytes) < rowBytes * height
    ensures Pos(r, c, rowBytes) / rowBytes == r && Pos(r, c, rowBytes) % rowBytes == c
  {
    DivModUnique(Pos(r, c, rowBytes), rowBytes, r, c);
    MulMonotone(rowBytes, r + 1, height);
    assert r * rowBytes + rowBytes == rowBytes * (r + 1);
  }

  /** The image with its rows in the opposite order. */
  function Flipped(s: seq<Byte>, rowBytes: nat, height: nat): (r: seq<Byte>)
    requires |s| == rowBytes * height
    ensures |r| == |s|
  {
    seq(|s|, k requires 0 <= k < |s| => FlippedByte(s, rowBytes, height, k))
  }

  function FlippedByte(s: seq<Byte>, rowBytes: nat, height: nat, k: nat): Byte
    requires |s| == rowBytes * height && k < |s|
  {
    RowOf(k, rowBytes, height);
    PosInRow(height - 1 - k / rowBytes, k % rowBytes, rowBytes, height);
    s[Pos(height - 1 - k / rowBytes, k % rowBytes, rowBytes)]
  }

  /** Byte c of row r of the flipped image is byte c of row height - 1 - r. */
  lemma FlippedAt(s: seq<Byte>, rowBytes: nat, height: nat, r: nat, c: nat)
    requires |s| == rowBytes * height && r < height && c < rowBytes
    ensures Pos(r, c, rowBytes) < |s| && Pos(height - 1 - r, c, rowBytes) < |s|
    ensures Flipped(s, rowBytes, height)[Pos(r, c, rowBytes)] == s[Pos(height - 1 - r, c, rowBytes)]
  {
    PosInRow(r, c, rowBytes, height);
    PosInRow(height - 1 - r, c, rowBytes, height);
  }

  /** Flipping twice gives the image back. */
  lemma FlipTwice(s: seq<Byte>, rowBytes: nat, height: nat)
    requires |s| == rowBytes * height
    ensures Flipped(Flipped(s, rowBytes, height), rowBytes, height) == s
  {
    var f := Flipped(s, rowBytes, height);
    forall k | 0 <= k < |s|
      ensures Flipped(f, rowBytes, height)[k] == s[k]
    {
      RowOf(k, rowBytes, height);
      var r, c := k / rowBytes, k % rowBytes;
      FlippedAt(f, rowBytes, height, r, c);
      FlippedAt(s, rowBytes, height, height - 1 - r, c);
    }
  }

  /** The row that row r of the image holds after the first y swaps of
      `flipY`. */
  function FlipRow(r: nat, y: nat, height: nat): nat
  {
    if (r < y || r + y >= height) && r < height then height - 1 - r else r
  }

  /** After the first y swaps of `flipY`, row r of `cur` is row
      FlipRow(r, y, height) of `orig`. */
  ghost predicate FlippedUpTo(cur: seq<Byte>, orig: seq<Byte>, rowBytes: nat, height: nat, y: nat)
  {
    |cur| == |orig| == rowBytes * height &&
    forall r, c :: 0 <= r < height && 0 <= c < rowBytes ==>
      Pos(r, c, rowBytes) < |cur| && Pos(FlipRow(r, y, height), c, rowBytes) < |orig| &&
      cur[Pos(r, c, rowBytes)] == orig[Pos(FlipRow(r, y, height), c, rowBytes)]
  }

  /** `flipY(rgba, width, height)`: swaps row y with row height - 1 - y for
      each y below `height >> 1`, through a one-row buffer. */
  method FlipY(rgba: array<Byte>, width: nat, height: nat)
    requires rgba.Length == 4 * width * height
    modifies rgba
    ensures rgba[..] == Flipped(old(rgba[..]), 4 * width, height)
  {
    var rowBytes := width * 4;
    ghost var orig := rgba[..];
    FlipStart(orig, rowBytes, height);
    for y := 0 to height / 2
      invariant FlippedUpTo(rgba[..], orig, rowBytes, height, y)
    {
      var a, b := y * rowBytes, (height - 1 - y) * rowBytes;
      RowsApart(rowBytes, height, y);
      ghost var before := rgba[..];
      SwapRows(rgba, a, b, rowBytes);
      FlipStep(orig, before, rgba[..], rowBytes, height, y);
    }
    FlipDone(rgba[..], orig, rowBytes, height);
  }

  lemma RowsApart(rowBytes: nat, height: nat, y: nat)
    requires y < height / 2
    ensures Pos(y, 0, rowBytes) + rowBytes <= Pos(height - 1 - y, 0, rowBytes)
    ensures Pos(height - 1 - y, 0, rowBytes) + rowBytes <= rowBytes * height
  {
    MulMonotone(rowBytes, y + 1, height - 1 - y);
    MulMonotone(rowBytes, height - y, height);
  }

  lemma FlipStart(orig: seq<Byte>, rowBytes: nat, height: nat)
    requires |orig| == rowBytes * height
    ensures FlippedUpTo(orig, orig, rowBytes, height, 0)
  {
    forall r, c | 0 <= r < height && 0 <= c < rowBytes
      ensures Pos(r, c, rowBytes) < |orig|
    {
      PosInRow(r, c, rowBytes, height);
    }
  }

  lemma FlipStep(orig: seq<Byte>, before: seq<Byte>, after: seq<Byte>, rowBytes: nat, height: nat, y: nat)
    requires y < height / 2
    requires FlippedUpTo(before, orig, rowBytes, height, y)
    requires Pos(y, 0, rowBytes) + rowBytes <= Pos(height - 1 - y, 0, rowBytes)
    requires Pos(height - 1 - y, 0, rowBytes) + rowBytes <= |before|
    requires RangesSwapped(before, after, Pos(y, 0, rowBytes), Pos(height - 1 - y, 0, rowBytes), rowBytes)
    ensures FlippedUpTo(after, orig, rowBytes, height, y + 1)
  {
    SwappedRows(before, after, rowBytes, height, y, height - 1 - y);
    var next := y + 1;
    forall r, c | 0 <= r < height && 0 <= c < rowBytes
      ensures Pos(r, c, rowBytes) < |after| && Pos(FlipRow(r, next, height), c, rowBytes) < |orig|
      ensures after[Pos(r, c, rowBytes)] == orig[Pos(FlipRow(r, next, height), c, rowBytes)]
    {
      var s := Swapped(r, y, height - 1 - y);
      assert FlipRow(s, y, height) == FlipRow(r, next, height);
    }
  }

  lemma FlipDone(cur: seq<Byte>, orig: seq<Byte>, rowBytes: nat, height: nat)
    requires FlippedUpTo(cur, orig, rowBytes, height, height / 2)
    ensures cur == Flipped(orig, rowBytes, height)
  {
    forall k | 0 <= k < |cur|
      ensures cur[k] == Flipped(orig, rowBytes, height)[k]
    {
      FlipDoneAt(cur, orig, rowBytes, height, k);
    }
  }

  lemma FlipDoneAt(cur: seq<Byte>, orig: seq<Byte>, rowBytes: nat, height: nat, k: nat)
    requires FlippedUpTo(cur, orig, rowBytes, height, height / 2) && k < |cur|
    ensures cur[k] == Flipped(orig, rowBytes, height)[k]
  {
    RowOf(k, rowBytes, height);
    var r, c := k / rowBytes, k % rowBytes;
    assert cur[Pos(r, c, rowBytes)] == orig[Pos(FlipRow(r, height / 2, height), c, rowBytes)];
    assert FlipRow(r, height / 2, height) == height - 1 - r;
    FlippedAt(orig, rowBytes, height, r, c);
  }

  /** Rows a and b trade places. */
  function Swapped(r: nat, a: nat, b: nat): nat
  {
    if r == a then b else if r == b then a else r
  }

  /** The bytes of `before` with the `len` bytes at pa and the `len` bytes
      at pb trading places. */
  ghost predicate RangesSwapped(before: seq<Byte>, after: seq<Byte>, pa: nat, pb: nat, len: nat)
    requires pa + len <= pb && pb + len <= |before|
  {
    |after| == |before| &&
    forall k {:trigger after[k]} :: 0 <= k < |after| ==>
      after[k] == if pb <= k < pb + len then before[k - pb + pa] else if pa <= k < pa + len then before[k - pa + pb] else before[k]
  }

  /** One turn of the loop of `flipY`: the row at pa is saved, the row at pb
      copied over it and the saved row copied to pb. */
  method SwapRows(rgba: array<Byte>, pa: nat, pb: nat, rowBytes: nat)
    requires pa + rowBytes <= pb && pb + rowBytes <= rgba.Length
    modifies rgba
    ensures RangesSwapped(old(rgba[..]), rgba[..], pa, pb, rowBytes)
  {
    var tmp := rgba[pa..pa + rowBytes];
    forall k | pa <= k < pa + rowBytes {
      rgba[k] := rgba[k - pa + pb];
    }
    forall k | pb <= k < pb + rowBytes {
      rgba[k] := tmp[k - pb];
    }
  }

  /** Swapping the byte ranges of rows a and b swaps the rows. */
  lemma SwappedRows(before: seq<Byte>, after: seq<Byte>, rowBytes: nat, height: nat, a: nat, b: nat)
    requires a < b < height && |before| == rowBytes * height
    requires Pos(a, 0, rowBytes) + rowBytes <= Pos(b, 0, rowBytes) && Pos(b, 0, rowBytes) + rowBytes <= |before|
    requires RangesSwapped(before, after, Pos(a, 0, rowBytes), Pos(b, 0, rowBytes), rowBytes)
    ensures forall r, c :: 0 <= r < height && 0 <= c < rowBytes ==>
      Pos(r, c, rowBytes) < |after| && Pos(Swapped(r, a, b), c, rowBytes) < |after| &&
      after[Pos(r, c, rowBytes)] == before[Pos(Swapped(r, a, b), c, rowBytes)]
  {
    forall r, c | 0 <= r < height && 0 <= c < rowBytes
      ensures Pos(r, c, rowBytes) < |after| && Pos(Swapped(r, a, b), c, rowBytes) < |after|
      ensures after[Pos(r, c, rowBytes)] == before[Pos(Swapped(r, a, b), c, rowBytes)]
    {
      SwappedRowAt(before, after, rowBytes, height, a, b, r, c);
    }
  }

  lemma SwappedRowAt(before: seq<Byte>, after: seq<Byte>, rowBytes: nat, height: nat, a: nat, b: nat, r: nat, c: nat)
    requires a < b < height && |before| == rowBytes * height && r < height && c < rowBytes
    requires Pos(a, 0, rowBytes) + rowBytes <= Pos(b, 0, rowBytes) && Pos(b, 0, rowBytes) + rowBytes <= |before|
    requires RangesSwapped(before, after, Pos(a, 0, rowBytes), Pos(b, 0, rowBytes), rowBytes)
    ensures Pos(r, c, rowBytes) < |after| && Pos(Swapped(r, a, b), c, rowBytes) < |after|
    ensures after[Pos(r, c, rowBytes)] == before[Pos(Swapped(r, a, b), c, rowBytes)]
  {
    var pa, pb := Pos(a, 0, rowBytes), Pos(b, 0, rowBytes);
    var p := Pos(r, c, rowBytes);
    PosInRow(r, c, rowBytes, height);
    PosInRow(Swapped(r, a, b), c, rowBytes, height);
    if pa <= p < pa + rowBytes {
      DivModUnique(p, rowBytes, a, p - pa);
    }
    if pb <= p < pb + rowBytes {
      DivModUnique(p, rowBytes, b, p - pb);
    }
    RangesSwappedAt(before, after, pa, pb, rowBytes, p);
  }

  lemma RangesSwappedAt(before: seq<Byte>, after: seq<Byte>, pa: nat, pb: nat, len: nat, p: nat)
    requires pa + len <= pb && pb + len <= |before| && p < |before|
    requires RangesSwapped(before, after, pa, pb, len)
    ensures pa <= p < pa + len ==> after[p] == before[p - pa + pb]
    ensures pb <= p < pb + len ==> after[p] == before[p - pb + pa]
    ensures !(pa <= p < pa + len) && !(pb <= p < pb + len) ==> after[p] == before[p]
  {
  }

  // ------------------------------------------------------------- transfers

  /** One GIF image transfer: where its pixel data starts and how many bytes
      it has, relative to the range scanned. */
  datatype Transfer = Transfer(dataOffset: nat, dataSize: nat)

  /** The transfers `parseTransfers` finds from `offset` on in `bytes`: while
      a 64-byte header fits, its three A+D register bytes (at +8, +24, +40)
      must be TRXPOS, TRXREG and TRXDIR; the low 15 bits of the IMAGE tag at
      +48 count 16-byte units of data following the header, which must fit
      too. The first header that fails any of this ends the scan. */
  function Transfers(bytes: seq<Byte>, offset: nat): (r: seq<Transfer>)
    decreases |bytes| - offset
  {
    if offset + GIF_BLOCK_SIZE * 4 > |bytes| then []
    else if bytes[offset + 8] != GS_TRXPOS || bytes[offset + GIF_BLOCK_SIZE + 8] != GS_TRXREG
      || bytes[offset + GIF_BLOCK_SIZE * 2 + 8] != GS_TRXDIR then []
    else
      var nloop := Le32At(bytes, offset + GIF_BLOCK_SIZE * 3) % 0x8000;
      var dataOffset := offset + GIF_BLOCK_SIZE * 4;
      var dataSize := nloop * GIF_BLOCK_SIZE;
      if dataOffset + dataSize > |bytes| then []
      else [Transfer(dataOffset, dataSize)] + Transfers(bytes, dataOffset + dataSize)
  }

  /** Every transfer found lies inside the bytes, holds whole 16-byte units
      (at most 0x7FFF of them), follows its three register blocks and IMAGE
      tag, has the size that tag's NLOOP field gives, and starts where the
      previous one ended plus a 64-byte header, the first one 64 bytes after
      `offset`. */
  lemma TransfersWellFormed(bytes: seq<Byte>, offset: nat)
    ensures forall t :: t in Transfers(bytes, offset) ==>
      t.dataOffset + t.dataSize <= |bytes| && t.dataSize % GIF_BLOCK_SIZE == 0 && t.dataSize < 0x8000 * GIF_BLOCK_SIZE &&
      t.dataOffset >= offset + 64 &&
      bytes[t.dataOffset - 56] == GS_TRXPOS && bytes[t.dataOffset - 40] == GS_TRXREG && bytes[t.dataOffset - 24] == GS_TRXDIR
    ensures forall t :: t in Transfers(bytes, offset) ==>
      16 <= t.dataOffset <= |bytes| && t.dataSize == (Le32At(bytes, t.dataOffset - 16) % 0x8000) * GIF_BLOCK_SIZE
    ensures |Transfers(bytes, offset)| > 0 ==> Transfers(bytes, offset)[0].dataOffset == offset + 64
    ensures forall i :: 0 < i < |Transfers(bytes, offset)| ==>
      Transfers(bytes, offset)[i].dataOffset == Transfers(bytes, offset)[i - 1].dataOffset + Transfers(bytes, offset)[i - 1].dataSize + 64
  {
    TransfersInside(bytes, offset);
    TransfersTagged(bytes, offset);
    TransfersChained(bytes, offset);
  }

  /** Each transfer lies inside the bytes, in whole 16-byte units, after its
      three register blocks. */
  lemma {:induction false} TransfersInside(bytes: seq<Byte>, offset: nat)
    ensures forall t :: t in Transfers(bytes, offset) ==>
      t.dataOffset + t.dataSize <= |bytes| && t.dataSize % GIF_BLOCK_SIZE == 0 && t.dataSize < 0x8000 * GIF_BLOCK_SIZE &&
      t.dataOffset >= offset + 64 &&
      bytes[t.dataOffset - 56] == GS_TRXPOS && bytes[t.dataOffset - 40] == GS_TRXREG && bytes[t.dataOffset - 24] == GS_TRXDIR
    decreases |bytes| - offset
  {
    var ts := Transfers(bytes, offset);
    if |ts| > 0 {
      var t := ts[0];
      assert ts == [t] + Transfers(bytes, t.dataOffset + t.dataSize);
      TransfersInside(bytes, t.dataOffset + t.dataSize);
    }
  }

  /** The first transfer starts 64 bytes after `offset`, and each later one
      64 bytes after the previous one ends. */
  lemma {:induction false} TransfersChained(bytes: seq<Byte>, offset: nat)
    ensures |Transfers(bytes, offset)| > 0 ==> Transfers(bytes, offset)[0].dataOffset == offset + 64
    ensures forall i :: 0 < i < |Transfers(bytes, offset)| ==>
      Transfers(bytes, offset)[i].dataOffset == Transfers(bytes, offset)[i - 1].dataOffset + Transfers(bytes, offset)[i - 1].dataSize + 64
    decreases |bytes| - offset
  {
    var ts := Transfers(bytes, offset);
    if |ts| > 0 {
      var t := ts[0];
      var rest := Transfers(bytes, t.dataOffset + t.dataSize);
      assert ts == [t] + rest;
      TransfersChained(bytes, t.dataOffset + t.dataSize);
      forall i | 0 < i < |ts|
        ensures ts[i].dataOffset == ts[i - 1].dataOffset + ts[i - 1].dataSize + 64
      {
        assert ts[i] == rest[i - 1];
        if i > 1 {
          assert ts[i - 1] == rest[i - 2];
        }
      }
    }
  }

  /** Each transfer's size is the NLOOP field, the low 15 bits of the IMAGE
      tag word 16 bytes before its data, in 16-byte units. */
  lemma {:induction false} TransfersTagged(bytes: seq<Byte>, offset: nat)
    ensures forall t :: t in Transfers(bytes, offset) ==>
      16 <= t.dataOffset <= |bytes| && t.dataSize == (Le32At(bytes, t.dataOffset - 16) % 0x8000) * GIF_BLOCK_SIZE
    decreases |bytes| - offset
  {
    var ts := Transfers(bytes, offset);
    if |ts| > 0 {
      var t := ts[0];
      assert ts == [t] + Transfers(bytes, t.dataOffset + t.dataSize);
      TransfersTagged(bytes, t.dataOffset + t.dataSize);
    }
  }

  /** `PCT.parseTransfers(range)`, over a little-endian range lying inside
      its buffer (as `PCT.load` makes it);
      `& 0x7fff` keeps the low 15 bits, the remainder mod 0x8000. */
  method ParseTransfers(range: BufferRange) returns (transfers: seq<Transfer>)
    requires 0 <= range.begin <= range.end <= |range.buffer| && range.le
    ensures transfers == Transfers(range.Bytes(), GIF_STREAM_OFFSET)
  {
    ghost var bytes := range.Bytes();
    ghost var all := Transfers(bytes, GIF_STREAM_OFFSET);
    transfers := [];
    var offset := GIF_STREAM_OFFSET;
    while offset + GIF_BLOCK_SIZE * 4 <= range.Size()
      invariant bytes == range.Bytes() && |bytes| == range.Size()
      invariant transfers + Transfers(bytes, offset) == all
      decreases range.Size() - offset
    {
      var next := ScanTransfer(range, offset);
      if next.None? {
        break;
      }
      var t := next.value;
      assert (transfers + [t]) + Transfers(bytes, t.dataOffset + t.dataSize) == transfers + ([t] + Transfers(bytes, t.dataOffset + t.dataSize));
      transfers := transfers + [t];
      offset := t.dataOffset + t.dataSize;
    }
    if offset + GIF_BLOCK_SIZE * 4 > range.Size() {
      NoRoomForTransfer(bytes, offset);
    }
  }

  /** Fewer than four blocks left: the scan ends. */
  lemma NoRoomForTransfer(bytes: seq<Byte>, offset: nat)
    requires offset + GIF_BLOCK_SIZE * 4 > |bytes|
    ensures Transfers(bytes, offset) == []
  {
  }

  /** One turn of the `parseTransfers` loop: the header at `offset` either
      ends the scan or yields the transfer that heads the rest of it. */
  method ScanTransfer(range: BufferRange, offset: nat) returns (next: Option<Transfer>)
    requires 0 <= range.begin <= range.end <= |range.buffer| && offset + GIF_BLOCK_SIZE * 4 <= range.Size() && range.le
    ensures next.None? ==> Transfers(range.Bytes(), offset) == []
    ensures next.Some? ==> next.value.dataOffset + next.value.dataSize > offset
    ensures next.Some? ==>
      Transfers(range.Bytes(), offset) == [next.value] + Transfers(range.Bytes(), next.value.dataOffset + next.value.dataSize)
  {
    ghost var bytes := range.Bytes();
    var addr0, addr1, addr2, gifTagLo := ReadHeader(range, offset);
    if addr0 != GS_TRXPOS || addr1 != GS_TRXREG || addr2 != GS_TRXDIR {
      return None;
    }
    var nloop := gifTagLo % 0x8000;
    var dataOffset := offset + GIF_BLOCK_SIZE * 4;
    var dataSize := nloop * GIF_BLOCK_SIZE;
    if dataOffset + dataSize > range.Size() {
      return None;
    }
    return Some(Transfer(dataOffset, dataSize));
  }

  /** The three register bytes and the IMAGE tag word of the header at
      `offset`. */
  method ReadHeader(range: BufferRange, offset: nat) returns (addr0: int, addr1: int, addr2: int, gifTagLo: int)
    requires 0 <= range.begin <= range.end <= |range.buffer| && offset + GIF_BLOCK_SIZE * 4 <= range.Size() && range.le
    ensures var bytes := range.Bytes();
      addr0 == bytes[offset + 8] && addr1 == bytes[offset + GIF_BLOCK_SIZE + 8] &&
      addr2 == bytes[offset + GIF_BLOCK_SIZE * 2 + 8] && gifTagLo == Le32At(bytes, offset + GIF_BLOCK_SIZE * 3)
  {
    ghost var bytes := range.Bytes();
    var b := range.begin;
    addr0 := range.GetUint8(offset + 8).value;
    addr1 := range.GetUint8(offset + GIF_BLOCK_SIZE + 8).value;
    addr2 := range.GetUint8(offset + GIF_BLOCK_SIZE * 2 + 8).value;
    gifTagLo := range.GetUint32(offset + GIF_BLOCK_SIZE * 3).value;
    assert bytes[offset + 8] == range.buffer[b + offset + 8];
    assert bytes[offset + 24] == range.buffer[b + offset + 24];
    assert bytes[offset + 40] == range.buffer[b + offset + 40];
    assert bytes[offset + 48..offset + 52] == range.buffer[b + offset + 48..b + offset + 52];
  }

  // ------------------------------------------------------------------ load

  /** A decoded RGBA image of `width` x `height` texels. */
  datatype Mipmap = Mipmap(width: nat, height: nat, data: seq<Byte>)

  /** A loaded `PCT`: its header size and, when its transfers could be
      decoded, its image. */
  datatype Texture = Texture(width: nat, height: nat, mipmap: Option<Mipmap>)

  /** Bit 6 of header byte 2 clear: the rows are stored bottom to top. */
  predicate StoredBottomUp(flags: Byte)
  {
    (flags / 0x40) % 2 == 0
  }

  /** The image `PCT.load` decodes from the pixel and palette data: 4-bit
      indices into the palette as stored, or unswizzled 8-bit indices into
      the unswizzled palette, then flipped when stored bottom up. */
  function Image(pixData: seq<Byte>, clutRaw: seq<Byte>, width: nat, height: nat, fourBit: bool, bottomUp: bool): (r: seq<Byte>)
    ensures |r| == 4 * (width * height)
  {
    var count := width * height;
    var rgba := if fourBit then Decoded4bpp(pixData, clutRaw, count)
      else Indexed(Unswizzled8(pixData, width, height), UnswizzledClut(clutRaw), count);
    if bottomUp then FourRows(width, height); Flipped(rgba, 4 * width, height) else rgba
  }

  lemma FourRows(width: nat, height: nat)
    ensures 4 * (width * height) == (4 * width) * height
  {
  }

  method DecodeImage(pixData: seq<Byte>, clutRaw: seq<Byte>, width: nat, height: nat, fourBit: bool, bottomUp: bool) returns (rgba: array<Byte>)
    ensures fresh(rgba) && rgba[..] == Image(pixData, clutRaw, width, height, fourBit, bottomUp)
  {
    var pixelCount := width * height;
    if fourBit {
      rgba := Decode4bpp(pixData, clutRaw, pixelCount);
    } else {
      var clut := UnswizzleClut8(clutRaw);
      var pixels := Unswizzle8(pixData, width, height);
      rgba := DecodeIndexed(pixels[..], clut[..], pixelCount);
    }
    if bottomUp {
      FourRows(width, height);
      FlipY(rgba, width, height);
    }
  }

  /** What `PCT.load(buffer)` returns, `Failure` where it throws: the header
      reads need the first 8 bytes. */
  function Loaded(data: seq<Byte>): (r: Result<Texture, RangeError>)
    ensures r.Success? <==> |data| >= 8
    ensures r.Success? ==> r.value.height == Word16(data[4], data[5], true) && r.value.width == Word16(data[6], data[7], true)
  {
    if |data| < 8 then Failure(RangeError)
    else Success(TextureOf(data, Word16(data[6], data[7], true), Word16(data[4], data[5], true), StoredBottomUp(data[2])))
  }

  /** The texture `PCT.load` builds once the header is read. With fewer than
      two transfers, or pixel data whose size fits neither 4 nor 8 bits per
      texel, there is no image; otherwise the image has 4 bytes per texel. */
  function TextureOf(data: seq<Byte>, width: nat, height: nat, bottomUp: bool): (r: Texture)
    ensures r.width == width && r.height == height
    ensures r.mipmap.Some? <==>
      var ts := Transfers(data, GIF_STREAM_OFFSET);
      |ts| >= 2 && (ts[0].dataSize * 2 == width * height || ts[0].dataSize == width * height)
    ensures r.mipmap.Some? ==>
      var m := r.mipmap.value;
      m.width == width && m.height == height && |m.data| == 4 * (width * height)
  {
    var ts := Transfers(data, GIF_STREAM_OFFSET);
    if |ts| < 2 then Texture(width, height, None)
    else
      var count := width * height;
      var pix, clut := ts[0], ts[1];
      var clutRaw := ClampedSlice(data, clut.dataOffset, clut.dataOffset + clut.dataSize);
      var pixData := ClampedSlice(data, pix.dataOffset, pix.dataOffset + pix.dataSize);
      if pix.dataSize * 2 != count && pix.dataSize != count then Texture(width, height, None)
      else
        var image := Image(pixData, clutRaw, width, height, pix.dataSize * 2 == count, bottomUp);
        Texture(width, height, Some(Mipmap(width, height, image)))
  }

  /** `PCT.load(buffer)`. The flags byte is read after the width, so it can
      no longer fail. */
  method Load(buffer: seq<Byte>) returns (r: Result<Texture, RangeError>)
    ensures r == Loaded(buffer)
  {
    var range := new BufferRange(buffer, None, None, true);
    var height :- range.GetUint16(4);
    var width :- range.GetUint16(6);
    var flags := range.GetUint8(2).value;
    var flipVertical := (flags / 0x40) % 2 == 0;
    assert range.Bytes() == buffer;
    var texture := Build(range, width, height, flipVertical);
    return Success(texture);
  }

  /** The rest of `PCT.load` after the header reads. */
  /** When the first transfer holds a 4- or 8-bit image, the texture is
      that image decoded through the second transfer's palette. */
  lemma TextureOfImage(data: seq<Byte>, width: nat, height: nat, bottomUp: bool)
    requires var ts := Transfers(data, GIF_STREAM_OFFSET);
             |ts| >= 2 && (ts[0].dataSize * 2 == width * height || ts[0].dataSize == width * height)
    ensures var ts := Transfers(data, GIF_STREAM_OFFSET);
            var pix, clut := ts[0], ts[1];
            TextureOf(data, width, height, bottomUp) ==
              Texture(width, height, Some(Mipmap(width, height,
                Image(ClampedSlice(data, pix.dataOffset, pix.dataOffset + pix.dataSize),
                      ClampedSlice(data, clut.dataOffset, clut.dataOffset + clut.dataSize),
                      width, height, pix.dataSize * 2 == width * height, bottomUp))))
  {
  }

  method Build(range: BufferRange, width: nat, height: nat, flipVertical: bool) returns (t: Texture)
    requires range.begin == 0 && range.end == |range.buffer| && range.le
    ensures t == TextureOf(range.Bytes(), width, height, flipVertical)
  {
    ghost var data := range.Bytes();
    var transfers := ParseTransfers(range);
    if |transfers| < 2 {
      return Texture(width, height, None);
    }
    var pixTransfer, clutTransfer := transfers[0], transfers[1];
    var pixelCount := width * height;
    var is4bpp := pixTransfer.dataSize * 2 == pixelCount;
    var is8bpp := pixTransfer.dataSize == pixelCount;
    var clutRaw := range.GetUint8Array(clutTransfer.dataOffset, clutTransfer.dataSize);
    var pixData := range.GetUint8Array(pixTransfer.dataOffset, pixTransfer.dataSize);
    if !is4bpp && !is8bpp {
      return Texture(width, height, None);
    }
    assert range.buffer == data;
    assert clutRaw == ClampedSlice(data, clutTransfer.dataOffset, clutTransfer.dataOffset + clutTransfer.dataSize);
    assert pixData == ClampedSlice(data, pixTransfer.dataOffset, pixTransfer.dataOffset + pixTransfer.dataSize);
    TextureOfImage(data, width, height, flipVertical);
    var rgba := DecodeImage(pixData, clutRaw, width, height, is4bpp, flipVertical);
    return Texture(width, height, Some(Mipmap(width, height, rgba[..])));
  }
}
