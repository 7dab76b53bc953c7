/** FNT bitmap fonts: a header, a table of codepoints (the charset), a table
    of offsets to 18-byte glyph records and, on PSP and PS3, an embedded
    4-bit grey image after a 0x80-byte image header. */
module Fnt {
  import opened Wrappers
  import opened Bytes
  import opened Range

  const GLYPH_SIZE: nat := 18
  const IMAGE_HEADER_SIZE: nat := 0x80

  // ---------------------------------------------------------------- records

  datatype Glyph = Glyph(
    codepoint: int, texWidth: int, texHeight: int,
    texX1: int, texX2: int, texY1: int, texY2: int,
    pixelWidth: int, advanceX: int)

  datatype Header = Header(
    magic: int, glyphs: int, charsetOffset: int, glyphOffsetsOffset: int,
    fontHeight: int, imageOffset: int)

  datatype ImageHeader = ImageHeader(width: nat, height: nat, swizzle: bool)

  /** `FNTGlyph.load(range, offset)` over the whole file with byte order le:
      the codepoint, texture size and rectangle, pixel width and the signed
      advance, in that order. */
  function GlyphAt(data: seq<Byte>, le: bool, offset: int): (r: Result<Glyph, RangeError>)
    ensures r.Success? <==> 0 <= offset && offset + 14 <= |data|
    ensures r.Success? ==> r.value.codepoint == Word16(data[offset], data[offset + 1], le)
    ensures r.Success? ==> -0x80 <= r.value.advanceX < 0x80
  {
    var codepoint :- Uint16At(data, offset + 0, le);
    var texWidth :- Uint8At(data, offset + 2);
    var texHeight :- Uint8At(data, offset + 3);
    var texX1 :- Uint16At(data, offset + 4, le);
    var texX2 :- Uint16At(data, offset + 6, le);
    var texY1 :- Uint16At(data, offset + 8, le);
    var texY2 :- Uint16At(data, offset + 10, le);
    var pixelWidth :- Uint8At(data, offset + 12);
    var advanceX :- Int8At(data, offset + 13);
    Success(Glyph(codepoint, texWidth, texHeight, texX1, texX2, texY1, texY2, pixelWidth, advanceX))
  }

  /** `FNTImageHeader.load(range, offset)`: width, height, and the swizzle
      flag, set only by a byte 6 equal to 1. */
  function ImageHeaderAt(data: seq<Byte>, le: bool, offset: int): (r: Result<ImageHeader, RangeError>)
    ensures r.Success? <==> 0 <= offset && offset + 7 <= |data|
    ensures r.Success? ==> (r.value.swizzle <==> data[offset + 6] == 1)
    ensures r.Success? ==> 0 <= r.value.width < 0x1_0000 && 0 <= r.value.height < 0x1_0000
  {
    var width :- Uint16At(data, offset + 0, le);
    var height :- Uint16At(data, offset + 2, le);
    var swizzle :- Uint8At(data, offset + 6);
    Success(ImageHeader(width, height, swizzle == 1))
  }

  /** `FNTHeader.load(range)`: six 32-bit words; the word at 20 is skipped. */
  function HeaderOf(data: seq<Byte>, le: bool): (r: Result<Header, RangeError>)
    ensures r.Success? <==> |data| >= 28
    ensures r.Success? ==> 0 <= r.value.glyphs < TWO_32 && 0 <= r.value.imageOffset < TWO_32
    ensures r.Success? ==> 0 <= r.value.charsetOffset && 0 <= r.value.glyphOffsetsOffset
  {
    var magic :- Uint32At(data, 0, le);
    var glyphs :- Uint32At(data, 4, le);
    var charsetOffset :- Uint32At(data, 8, le);
    var glyphOffsetsOffset :- Uint32At(data, 12, le);
    var fontHeight :- Uint32At(data, 16, le);
    var imageOffset :- Uint32At(data, 24, le);
    Success(Header(magic, glyphs, charsetOffset, glyphOffsetsOffset, fontHeight, imageOffset))
  }

  // ---------------------------------------------------------------- charset

  /** The charset loop of `FNT.load` from entry i on: 16-bit codepoints at
      `offset + 2i`, at most `count` of them, ending before the first 0; a
      read outside the file throws. */
  function Charset(data: seq<Byte>, le: bool, offset: int, count: int, i: nat): (r: Result<seq<int>, RangeError>)
    decreases count - i
  {
    if i >= count then Success([])
    else
      var cp :- Uint16At(data, offset + i * 2, le);
      if cp == 0 then Success([])
      else
        var rest :- Charset(data, le, offset, count, i + 1);
        Success([cp] + rest)
  }

  /** The charset holds at most `count - i` entries, none of them 0, each
      the codepoint read at its place; when it stops short of `count`
      entries, the codepoint after the last one is 0. */
  lemma {:induction false} CharsetScan(data: seq<Byte>, le: bool, offset: int, count: int, i: nat)
    ensures var r := Charset(data, le, offset, count, i);
      r.Success? ==>
        |r.value| <= (if count >= i then count - i else 0) && 0 !in r.value &&
        (forall k :: 0 <= k < |r.value| ==> Uint16At(data, offset + (i + k) * 2, le) == Success(r.value[k])) &&
        (i + |r.value| < count ==> Uint16At(data, offset + (i + |r.value|) * 2, le) == Success(0))
    decreases count - i
  {
    if i < count {
      var cp := Uint16At(data, offset + i * 2, le);
      if cp.Success? && cp.value != 0 {
        CharsetScan(data, le, offset, count, i + 1);
        var r := Charset(data, le, offset, count, i);
        var rest := Charset(data, le, offset, count, i + 1);
        if rest.Success? {
          assert r.value == [cp.value] + rest.value;
          forall k | 0 <= k < |r.value|
            ensures Uint16At(data, offset + (i + k) * 2, le) == Success(r.value[k])
          {
            if k > 0 {
              assert r.value[k] == rest.value[k - 1];
              assert i + k == (i + 1) + (k - 1);
            }
          }
          assert i + |r.value| == (i + 1) + |rest.value|;
        }
      }
    }
  }

  // ----------------------------------------------------------------- glyphs

  /** The test `charset[i] === 0` of the glyph loop: an index past the end
      of the charset reads `undefined`, which is not 0. */
  predicate CharsetEndsAt(charset: seq<int>, i: nat)
  {
    i < |charset| && charset[i] == 0
  }

  /** The glyph loop of `FNT.load` as written, from entry i on: at most
      `count` entries of the 32-bit offset table at `offset`; it stops at
      `charset[i] === 0` or at the first glyph offset whose 18-byte record
      would end past the file, and a table read outside the file throws.
      When it stops short of `count` entries without the charset test, the
      table entry after the last glyph is such an offset. */
  function Glyphs(data: seq<Byte>, le: bool, offset: int, count: int, charset: seq<int>, i: nat): (r: Result<seq<Glyph>, RangeError>)
    ensures r.Success? ==> |r.value| <= (if count >= i then count - i else 0)
    ensures r.Success? && i + |r.value| < count && !CharsetEndsAt(charset, i + |r.value|) ==>
      Uint32At(data, offset + (i + |r.value|) * 4, le).Success? &&
      Uint32At(data, offset + (i + |r.value|) * 4, le).value + GLYPH_SIZE > |data|
    decreases count - i
  {
    if i >= count then Success([])
    else if CharsetEndsAt(charset, i) then Success([])
    else
      var glyphOff :- Uint32At(data, offset + i * 4, le);
      if glyphOff + GLYPH_SIZE > |data| then Success([])
      else
        var glyph :- GlyphAt(data, le, glyphOff);
        var rest :- Glyphs(data, le, offset, count, charset, i + 1);
        Success([glyph] + rest)
  }

  /** The charset the charset loop builds never holds 0, so the glyph loop's
      charset test never stops it. */
  lemma CharsetNeverEnds(data: seq<Byte>, le: bool, offset: int, count: int, i: nat)
    requires Charset(data, le, offset, count, 0).Success?
    ensures !CharsetEndsAt(Charset(data, le, offset, count, 0).value, i)
  {
    CharsetScan(data, le, offset, count, 0);
  }

  /** A 32-byte little-endian file (first byte 1) whose header counts one
      glyph, puts both the charset and the glyph offset table at 28, where
      the bytes are 0, and its image offset at the end of the file: the
      charset is empty, yet the loop as written loads the glyph at offset 0;
      the corrected loop loads none. */
  lemma GlyphWithoutCodepoint()
    ensures var file := [1, 0, 0, 0, 1, 0, 0, 0, 28, 0, 0, 0, 28, 0, 0, 0] + seq(8, _ => 0) + [32, 0, 0, 0, 0, 0, 0, 0];
      Loaded(file).Success? && Loaded(file).value.charset == [] && |Loaded(file).value.glyphs| == 1 &&
      GlyphsCorrected(file, true, Loaded(file).value.header.glyphOffsetsOffset, Loaded(file).value.header.glyphs,
                      Loaded(file).value.charset, 0) == Success([])
  {
    var file: seq<Byte> := [1, 0, 0, 0, 1, 0, 0, 0, 28, 0, 0, 0, 28, 0, 0, 0] + seq(8, _ => 0) + [32, 0, 0, 0, 0, 0, 0, 0];
    assert |file| == 32 && file[0] == 1;
    var h := HeaderOf(file, true);
    assert Uint32At(file, 4, true) == Success(1);
    assert Uint32At(file, 8, true) == Success(28);
    assert Uint32At(file, 12, true) == Success(28);
    assert Uint32At(file, 24, true) == Success(32);
    assert h.Success? && h.value.glyphs == 1 && h.value.charsetOffset == 28 && h.value.glyphOffsetsOffset == 28 && h.value.imageOffset == 32;
    assert Uint16At(file, 28, true) == Success(0);
    assert Charset(file, true, 28, 1, 0) == Success([]);
    assert Uint32At(file, 28 + 0 * 4, true) == Success(0);
    assert !CharsetEndsAt([], 0) && 0 + GLYPH_SIZE <= |file|;
    assert GlyphAt(file, true, 0).Success?;
    assert Glyphs(file, true, 28, 1, [], 1) == Success([]);
    assert Glyphs(file, true, 28, 1, [], 0).Success? && |Glyphs(file, true, 28, 1, [], 0).value| == 1;
  }

  /** The glyph loop as its comment intends it: the charset ends at its last
      entry, so no glyph is loaded past it. */
  function GlyphsCorrected(data: seq<Byte>, le: bool, offset: int, count: int, charset: seq<int>, i: nat): (r: Result<seq<Glyph>, RangeError>)
    ensures r.Success? ==> |r.value| <= (if count >= i then count - i else 0)
    ensures r.Success? ==> |r.value| <= (if |charset| >= i then |charset| - i else 0)
    decreases count - i
  {
    if i >= count then Success([])
    else if i >= |charset| then Success([])
    else
      var glyphOff :- Uint32At(data, offset + i * 4, le);
      if glyphOff + GLYPH_SIZE > |data| then Success([])
      else
        var glyph :- GlyphAt(data, le, glyphOff);
        var rest :- GlyphsCorrected(data, le, offset, count, charset, i + 1);
        Success([glyph] + rest)
  }

  /** Every glyph loaded is the record at an offset read from the table,
      lying wholly inside the file. */
  lemma {:induction false} GlyphsInFile(data: seq<Byte>, le: bool, offset: int, count: int, charset: seq<int>, i: nat)
    ensures Glyphs(data, le, offset, count, charset, i).Success? ==>
      forall k :: 0 <= k < |Glyphs(data, le, offset, count, charset, i).value| ==>
        GlyphFromTable(data, le, offset, i + k, Glyphs(data, le, offset, count, charset, i).value[k])
    decreases count - i
  {
    var r := Glyphs(data, le, offset, count, charset, i);
    if r.Success? && |r.value| > 0 {
      GlyphsInFile(data, le, offset, count, charset, i + 1);
      var rest := Glyphs(data, le, offset, count, charset, i + 1);
      var o := Uint32At(data, offset + i * 4, le);
      assert o.Success? && o.value + GLYPH_SIZE <= |data|;
      assert rest.Success? && r.value == [GlyphAt(data, le, o.value).value] + rest.value;
      assert GlyphFromTable(data, le, offset, i, r.value[0]);
      forall k | 0 <= k < |r.value|
        ensures GlyphFromTable(data, le, offset, i + k, r.value[k])
      {
        if k > 0 {
          assert r.value[k] == rest.value[k - 1];
          assert GlyphFromTable(data, le, offset, (i + 1) + (k - 1), rest.value[k - 1]);
          assert i + k == (i + 1) + (k - 1);
        }
      }
    }
  }

  /** Glyph g is the record at the offset held in entry j of the table at
      `offset`, and that record ends inside the file. */
  ghost predicate GlyphFromTable(data: seq<Byte>, le: bool, offset: int, j: int, g: Glyph)
  {
    var o := Uint32At(data, offset + j * 4, le);
    o.Success? && o.value + GLYPH_SIZE <= |data| && GlyphAt(data, le, o.value) == Success(g)
  }

  // --------------------------------------------------------- unswizzleGray4

  /** Tile row t of the swizzled data (row t % 8 of 16-byte-wide tile t / 8)
      starts at byte 16t. */
  function TileSrc(t: nat): nat
  {
    16 * t
  }

  /** Where `unswizzleGray4` puts tile row t, for image rows of `rowStride`
      bytes: tile b = t / 8 sits in band (16b) / rowStride and starts at
      column (16b) % rowStride. The source computes tile column and tile row
      in floating point; both are exact integers here. With rowStride 0 the
      destination is NaN, which `set` takes as offset 0. */
  function TileDst(t: nat, rowStride: nat): nat
  {
    if rowStride == 0 then 0
    else ((16 * (t / 8)) / rowStride * 8 + t % 8) * rowStride + (16 * (t / 8)) % rowStride
  }

  /** TileDst as the map from tile row to destination offset. */
  function TileDstOf(rowStride: nat): nat -> nat
  {
    t => TileDst(t, rowStride)
  }

  /** Number of tiles the outer loop visits: b runs while b < length / 128. */
  function Tiles(len: nat): nat
  {
    (len + 127) / 128
  }

  /** `target.set(source, offset)`: RangeError when the source would run past
      the end of the target; otherwise the source overwrites the bytes from
      offset on and nothing else changes. */
  function Place(out: seq<Byte>, src: seq<Byte>, offset: nat): (r: Result<seq<Byte>, RangeError>)
    ensures r.Success? <==> offset + |src| <= |out|
    ensures r.Success? ==> |r.value| == |out|
  {
    if offset + |src| > |out| then Failure(RangeError)
    else Success(seq(|out|, k requires 0 <= k < |out| => if offset <= k < offset + |src| then src[k - offset] else out[k]))
  }

  /** After a successful `set`, byte k is the source byte over it, or the old
      byte where the source does not reach. */
  lemma PlaceAt(out: seq<Byte>, src: seq<Byte>, offset: nat, k: nat)
    requires Place(out, src, offset).Success? && k < |out|
    ensures Place(out, src, offset).value[k] == if offset <= k < offset + |src| then src[k - offset] else out[k]
  {
  }

  /** The output of `unswizzleGray4` after its first t tile rows, starting
      from a zeroed buffer as long as the input, when tile row s goes to
      dst(s); a `set` that throws ends it. */
  function Steps(data: seq<Byte>, dst: nat -> nat, t: nat): (r: Result<seq<Byte>, RangeError>)
    ensures r.Success? ==> |r.value| == |data|
  {
    if t == 0 then Success(seq(|data|, _ => 0))
    else
      var out :- Steps(data, dst, t - 1);
      Place(out, ClampedSlice(data, TileSrc(t - 1), TileSrc(t - 1) + 16), dst(t - 1))
  }

  /** What `unswizzleGray4(swizzled, width)` returns, or the RangeError it throws. */
  function UnswizzledGray4(data: seq<Byte>, width: nat): (r: Result<seq<Byte>, RangeError>)
    ensures r.Success? ==> |r.value| == |data|
  {
    Steps(data, TileDstOf(width / 2), 8 * Tiles(|data|))
  }

  method UnswizzleGray4(swizzled: seq<Byte>, width: nat) returns (r: Result<array<Byte>, RangeError>)
    ensures r.Success? <==> UnswizzledGray4(swizzled, width).Success?
    ensures r.Success? ==> fresh(r.value) && r.value[..] == UnswizzledGray4(swizzled, width).value
  {
    var output := new Byte[|swizzled|](_ => 0);
    assert output[..] == seq(|swizzled|, _ => 0);
    assert Steps(swizzled, TileDstOf(width / 2), 0) == Success(output[..]);
    var ok := CopyTiles(swizzled, TileDstOf(width / 2), output);
    assert Steps(swizzled, TileDstOf(width / 2), 8 * Tiles(|swizzled|)) == UnswizzledGray4(swizzled, width);
    if ok {
      r := Success(output);
    } else {
      r := Failure(RangeError);
    }
  }

  /** The first t tile rows have been placed, giving out. The quantifier
      keeps Steps folded until a caller names Steps(data, dst, t). */
  ghost predicate Reached(data: seq<Byte>, dst: nat -> nat, t: nat, out: seq<Byte>)
  {
    forall u {:trigger Steps(data, dst, u)} :: u == t ==> Steps(data, dst, u) == Success(out)
  }

  /** Placing one of the first t tile rows has thrown. */
  ghost predicate Failed(data: seq<Byte>, dst: nat -> nat, t: nat)
  {
    forall u {:trigger Steps(data, dst, u)} :: u == t ==> Steps(data, dst, u).Failure?
  }

  /** The outer loop of `unswizzleGray4`, over tiles of 128 bytes: b counts
      tiles, 8b tile rows; ok is false where a `set` throws. */
  method CopyTiles(swizzled: seq<Byte>, dst: nat -> nat, output: array<Byte>) returns (ok: bool)
    requires Reached(swizzled, dst, 0, output[..])
    modifies output
    ensures ok ==> Reached(swizzled, dst, 8 * Tiles(|swizzled|), output[..])
    ensures !ok ==> Failed(swizzled, dst, 8 * Tiles(|swizzled|))
  {
    ghost var n := Tiles(|swizzled|);
    var b: nat := 0;
    while 128 * b < |swizzled|
      invariant b <= n
      invariant Reached(swizzled, dst, 8 * b, output[..])
    {
      TilesCount(b, |swizzled|);
      ok := CopyTile(swizzled, dst, 8 * b, output);
      if !ok {
        FailedStays(swizzled, dst, 8 * b + 8, 8 * n);
        return;
      }
      b := b + 1;
    }
    TilesCount(b, |swizzled|);
    ok := true;
  }

  /** Once a `set` has thrown, it stays thrown (StepsStayFailed, folded). */
  lemma FailedStays(data: seq<Byte>, dst: nat -> nat, t: nat, t': nat)
    requires Failed(data, dst, t) && t <= t'
    ensures Failed(data, dst, t')
  {
    assert Steps(data, dst, t).Failure?;
    StepsStayFailed(data, dst, t, t');
  }

  /** The outer loop runs for exactly Tiles(len) turns. */
  lemma TilesCount(b: nat, len: nat)
    ensures 128 * b < len <==> b < Tiles(len)
  {
  }

  /** One turn of the outer loop: the 8 rows of the tile starting at tile
      row t; ok is false where a `set` throws. */
  method CopyTile(swizzled: seq<Byte>, dst: nat -> nat, t: nat, output: array<Byte>) returns (ok: bool)
    requires Reached(swizzled, dst, t, output[..])
    modifies output
    ensures ok ==> Reached(swizzled, dst, t + 8, output[..])
    ensures !ok ==> Failed(swizzled, dst, t + 8)
  {
    for u := t to t + 8
      invariant Reached(swizzled, dst, u, output[..])
    {
      ok := CopyTileRow(swizzled, dst, u, output);
      if !ok {
        FailedStays(swizzled, dst, u + 1, t + 8);
        return;
      }
    }
    ok := true;
  }

  /** One turn of the inner loop, tile row t: `output.set(swizzled.subarray(
      srcOff, srcOff + 16), dstOff)`; ok is false where `set` throws. */
  method CopyTileRow(swizzled: seq<Byte>, dst: nat -> nat, t: nat, output: array<Byte>) returns (ok: bool)
    requires Reached(swizzled, dst, t, output[..])
    modifies output
    ensures !ok ==> Failed(swizzled, dst, t + 1)
    ensures ok ==> Reached(swizzled, dst, t + 1, output[..])
  {
    var src := ClampedSlice(swizzled, TileSrc(t), TileSrc(t) + 16);
    var dstOff := dst(t);
    assert Steps(swizzled, dst, t + 1) == Place(output[..], src, dstOff);
    ok := SetAt(output, src, dstOff);
  }

  /** `output.set(src, offset)` in place. */
  method SetAt(output: array<Byte>, src: seq<Byte>, offset: nat) returns (ok: bool)
    modifies output
    ensures ok <==> Place(old(output[..]), src, offset).Success?
    ensures ok ==> output[..] == Place(old(output[..]), src, offset).value
    ensures !ok ==> output[..] == old(output[..])
  {
    if offset + |src| > output.Length {
      return false;
    }
    ghost var before := output[..];
    forall k | offset <= k < offset + |src| {
      output[k] := src[k - offset];
    }
    forall k | 0 <= k < output.Length
      ensures output[k] == Place(before, src, offset).value[k]
    {
      PlaceAt(before, src, offset, k);
    }
    assert output[..] == Place(before, src, offset).value;
    return true;
  }

  /** Once a `set` has thrown, the whole unswizzle has. */
  lemma {:induction false} StepsStayFailed(data: seq<Byte>, dst: nat -> nat, t: nat, t': nat)
    requires Steps(data, dst, t).Failure? && t <= t'
    ensures Steps(data, dst, t').Failure?
    decreases t' - t
  {
    if t < t' {
      StepsStayFailed(data, dst, t + 1, t');
    }
  }

  /** The image is a whole number of 8-row bands of 16-byte tiles. */
  predicate WholeTileRows(len: nat, rowStride: nat)
  {
    rowStride > 0 && rowStride % 16 == 0 && len % (8 * rowStride) == 0
  }

  /** When a row holds a whole number of tiles, TileDst is the source's
      row-major formula: tile b is tile column b % (rowStride / 16) of tile
      row b / (rowStride / 16), and a tile row fits inside its image row. */
  lemma TileDstRowMajor(t: nat, rowStride: nat)
    requires rowStride > 0 && rowStride % 16 == 0
    ensures var perRow, b := rowStride / 16, t / 8;
      TileDst(t, rowStride) == (b / perRow * 8 + t % 8) * rowStride + (b % perRow) * 16 &&
      (b % perRow) * 16 + 16 <= rowStride
  {
    var perRow, b := rowStride / 16, t / 8;
    assert b == b / perRow * perRow + b % perRow;
    assert 16 * b == (b / perRow) * rowStride + 16 * (b % perRow);
    DivModUnique(16 * b, rowStride, b / perRow, 16 * (b % perRow));
  }

  /** Under WholeTileRows the data is `bands` bands of 8 image rows, that is
      rowStride / 16 tiles per band. */
  lemma WholeTiles(len: nat, rowStride: nat)
    requires WholeTileRows(len, rowStride)
    ensures var bands := len / (8 * rowStride);
      len == 8 * rowStride * bands && Tiles(len) == rowStride / 16 * bands && len == 128 * Tiles(len)
  {
    var perRow, bands := rowStride / 16, len / (8 * rowStride);
    assert len == 8 * rowStride * bands;
    assert len == 128 * (perRow * bands) by {
      assert 8 * rowStride == 128 * perRow;
    }
  }

  /** A tile b before the last one lies in a band before the last one. */
  lemma BandOf(b: nat, perRow: nat, bands: nat)
    requires perRow > 0 && b < perRow * bands
    ensures b / perRow < bands
  {
    if b / perRow >= bands {
      MulMonotone(perRow, bands, b / perRow);
    }
  }

  /** Under WholeTileRows every tile row the loop visits is read whole from
      the input and lands wholly inside the output. */
  lemma TileInBounds(t: nat, rowStride: nat, len: nat)
    requires WholeTileRows(len, rowStride) && t < 8 * Tiles(len)
    ensures TileSrc(t) + 16 <= len && TileDst(t, rowStride) + 16 <= len
  {
    var perRow, b := rowStride / 16, t / 8;
    var bands := len / (8 * rowStride);
    WholeTiles(len, rowStride);
    TileDstRowMajor(t, rowStride);
    BandOf(b, perRow, bands);
    var line, col := b / perRow * 8 + t % 8, (b % perRow) * 16;
    RowBound(line, col, rowStride, 8 * bands);
    TileSrcBound(t, Tiles(len));
  }

  /** Tile row t < 8n of n tiles of 128 bytes ends inside them. */
  lemma TileSrcBound(t: nat, n: nat)
    requires t < 8 * n
    ensures TileSrc(t) + 16 <= 128 * n
  {
  }

  /** A 16-byte run starting at column col of row line ends inside `rows`
      rows of rowStride bytes. */
  lemma RowBound(line: nat, col: nat, rowStride: nat, rows: nat)
    requires line < rows && col + 16 <= rowStride
    ensures line * rowStride + col + 16 <= rowStride * rows
  {
    MulMonotone(rowStride, line + 1, rows);
  }

  /** Different tile rows land on disjoint bytes: byte j of row s and byte
      j' of row t never share a place. */
  lemma TileDisjoint(s: nat, j: nat, t: nat, j': nat, rowStride: nat)
    requires rowStride > 0 && rowStride % 16 == 0 && s != t && j < 16 && j' < 16
    ensures TileDst(s, rowStride) + j != TileDst(t, rowStride) + j'
  {
    var perRow := rowStride / 16;
    TileDstRowMajor(s, rowStride);
    TileDstRowMajor(t, rowStride);
    var ls, cs := (s / 8) / perRow * 8 + s % 8, (s / 8) % perRow;
    var lt, ct := (t / 8) / perRow * 8 + t % 8, (t / 8) % perRow;
    if TileDst(s, rowStride) + j == TileDst(t, rowStride) + j' {
      PosUnique(ls, 16 * cs + j, lt, 16 * ct + j', rowStride);
      PosUnique(cs, j, ct, j', 16);
      PosUnique((s / 8) / perRow, s % 8, (t / 8) / perRow, t % 8, 8);
      assert false;
    }
  }

  /** A place in rows of d columns has one row and one column. */
  lemma PosUnique(l: int, c: int, l': int, c': int, d: int)
    requires d > 0 && 0 <= c < d && 0 <= c' < d && l * d + c == l' * d + c'
    ensures l == l' && c == c'
  {
    DivModUnique(l * d + c, d, l, c);
    DivModUnique(l' * d + c', d, l', c');
  }

  /** The first n tile rows are read whole from data, land inside it, and
      land on pairwise disjoint 16-byte runs when row s goes to dst(s). */
  ghost predicate Separated(dst: nat -> nat, n: nat, len: nat)
  {
    TileSrc(n) <= len &&
    (forall s :: 0 <= s < n ==> dst(s) + 16 <= len) &&
    (forall s, s' {:trigger Apart(dst, s, s')} :: 0 <= s < s' < n ==> Apart(dst, s, s'))
  }

  /** Tile rows s and s' land on 16-byte runs that do not overlap. */
  ghost predicate Apart(dst: nat -> nat, s: nat, s': nat)
  {
    dst(s) + 16 <= dst(s') || dst(s') + 16 <= dst(s)
  }

  /** On whole tile rows, the tile rows `unswizzleGray4` visits are Separated. */
  lemma TileRowsSeparated(rowStride: nat, len: nat)
    requires WholeTileRows(len, rowStride)
    ensures Separated(TileDstOf(rowStride), 8 * Tiles(len), len)
  {
    var n := 8 * Tiles(len);
    var dst := TileDstOf(rowStride);
    WholeTiles(len, rowStride);
    forall s | 0 <= s < n
      ensures dst(s) + 16 <= len
    {
      TileInBounds(s, rowStride, len);
    }
    forall s, s' | 0 <= s < s' < n
      ensures Apart(dst, s, s')
    {
      if dst(s) <= dst(s') < dst(s) + 16 {
        TileDisjoint(s, dst(s') - dst(s), s', 0, rowStride);
      } else if dst(s') <= dst(s) < dst(s') + 16 {
        TileDisjoint(s, 0, s', dst(s) - dst(s'), rowStride);
      }
    }
  }

  /** Byte j of tile row s goes to DstByte(dst, s, j). */
  ghost function DstByte(dst: nat -> nat, s: nat, j: nat): nat
  {
    dst(s) + j
  }

  /** Every byte of tile rows 0 to t - 1 sits at its destination. */
  ghost predicate Gathered(out: seq<Byte>, data: seq<Byte>, dst: nat -> nat, t: nat)
  {
    forall s, j {:trigger DstByte(dst, s, j)} :: 0 <= s < t && 0 <= j < 16 ==>
      DstByte(dst, s, j) < |out| && TileSrc(s) + j < |data| &&
      out[DstByte(dst, s, j)] == data[TileSrc(s) + j]
  }

  /** The first t tile rows are placed without a throw, each byte at its
      destination; folded like Reached. */
  ghost predicate GatheredUpTo(data: seq<Byte>, dst: nat -> nat, t: nat)
  {
    forall u {:trigger Steps(data, dst, u)} :: u == t ==>
      Steps(data, dst, u).Success? && Gathered(Steps(data, dst, u).value, data, dst, u)
  }

  /** When the tile rows are Separated, placing them one by one never throws
      and keeps every byte placed so far. */
  lemma {:induction false} StepsGather(data: seq<Byte>, dst: nat -> nat, n: nat, t: nat)
    requires Separated(dst, n, |data|) && t <= n
    ensures GatheredUpTo(data, dst, t)
  {
    if t > 0 {
      StepsGather(data, dst, n, t - 1);
      GatherStep(data, dst, n, t - 1);
    } else {
      assert Steps(data, dst, 0).Success?;
    }
  }

  /** One more tile row placed: GatheredUpTo goes from t to t + 1. */
  lemma GatherStep(data: seq<Byte>, dst: nat -> nat, n: nat, t: nat)
    requires Separated(dst, n, |data|) && t < n && GatheredUpTo(data, dst, t)
    ensures GatheredUpTo(data, dst, t + 1)
  {
    var out := Steps(data, dst, t).value;
    var src := ClampedSlice(data, TileSrc(t), TileSrc(t) + 16);
    assert Steps(data, dst, t + 1) == Place(out, src, dst(t));
    PlaceKeepsGathered(out, src, data, dst, n, t);
  }

  /** Placing tile row t over an output holding tile rows 0 to t - 1 gives
      one holding tile rows 0 to t. */
  lemma PlaceKeepsGathered(out: seq<Byte>, src: seq<Byte>, data: seq<Byte>, dst: nat -> nat, n: nat, t: nat)
    requires Separated(dst, n, |data|) && t < n && |out| == |data| && Gathered(out, data, dst, t)
    requires src == ClampedSlice(data, TileSrc(t), TileSrc(t) + 16)
    ensures Place(out, src, dst(t)).Success?
    ensures Gathered(Place(out, src, dst(t)).value, data, dst, t + 1)
  {
    PlaceGathers(out, src, data, dst, n, t, t, 0);
    forall s, j | 0 <= s < t + 1 && 0 <= j < 16
      ensures DstByte(dst, s, j) < |out| && TileSrc(s) + j < |data| &&
        Place(out, src, dst(t)).value[DstByte(dst, s, j)] == data[TileSrc(s) + j]
    {
      PlaceGathers(out, src, data, dst, n, t, s, j);
    }
  }

  /** Placing tile row t over an output holding tile rows 0 to t - 1 keeps
      them and adds byte j of row t at DstByte(dst, t, j). */
  lemma PlaceGathers(out: seq<Byte>, src: seq<Byte>, data: seq<Byte>, dst: nat -> nat, n: nat, t: nat, s: nat, j: nat)
    requires Separated(dst, n, |data|) && t < n && |out| == |data| && Gathered(out, data, dst, t)
    requires src == ClampedSlice(data, TileSrc(t), TileSrc(t) + 16)
    requires s <= t && j < 16
    ensures Place(out, src, dst(t)).Success?
    ensures DstByte(dst, s, j) < |out| && TileSrc(s) + j < |data| &&
      Place(out, src, dst(t)).value[DstByte(dst, s, j)] == data[TileSrc(s) + j]
  {
    assert TileSrc(t) + 16 <= TileSrc(n);
    var k := DstByte(dst, s, j);
    if s < t {
      assert k < |out| && Apart(dst, s, t);
      PlaceAt(out, src, dst(t), k);
    } else {
      PlaceAt(out, src, dst(t), k);
    }
  }

  /** On whole tile rows, `unswizzleGray4` does not throw, and byte j of tile
      row t ends up at TileDst(t) + j, which TileDstRowMajor places in tile
      row t / 8 / (rowStride / 16), tile column t / 8 % (rowStride / 16);
      distinct source bytes land on distinct places (TileDisjoint). */
  lemma UnswizzleGray4Gathers(data: seq<Byte>, width: nat, t: nat, j: nat)
    requires WholeTileRows(|data|, width / 2) && t < 8 * Tiles(|data|) && j < 16
    ensures var out := UnswizzledGray4(data, width);
      out.Success? && TileDst(t, width / 2) + j < |out.value| && TileSrc(t) + j < |data| &&
      out.value[TileDst(t, width / 2) + j] == data[TileSrc(t) + j]
  {
    var dst := TileDstOf(width / 2);
    TileRowsSeparated(width / 2, |data|);
    StepsGather(data, dst, 8 * Tiles(|data|), 8 * Tiles(|data|));
    assert Steps(data, dst, 8 * Tiles(|data|)) == UnswizzledGray4(data, width);
    assert DstByte(dst, t, j) == TileDst(t, width / 2) + j;
  }

  // ------------------------------------------------------------------- load

  /** The Gray4 mipmap of the embedded image: 4 bits per pixel. */
  datatype Mipmap = Mipmap(width: int, height: int, data: seq<Byte>)

  /** A loaded font. The image header and the mipmap are present exactly
      when the image offset lies inside the file; on PS2 it equals the file
      size and the image lives in a companion texture. */
  datatype Font = Font(
    size: nat, le: bool, header: Header, charset: seq<int>, glyphs: seq<Glyph>,
    imageHeader: Option<ImageHeader>, mipmap: Option<Mipmap>)
  {
    predicate HasEmbeddedImage()
    {
      header.imageOffset < size
    }
  }

  /** The embedded image: its header and its Gray4 mipmap. */
  datatype Image = Image(header: ImageHeader, mipmap: Mipmap)

  /** The image part of `FNT.load` for an image offset inside the file: the
      image data is (width * height) / 2 bytes after the 0x80-byte image
      header, clamped to the file (an odd pixel count's half byte is dropped),
      unswizzled when the header says so. */
  function ImageAt(buffer: seq<Byte>, le: bool, offset: int): (r: Result<Image, RangeError>)
  {
    var header :- ImageHeaderAt(buffer, le, offset);
    ImageWith(buffer, offset, header, DataSize(header))
  }

  /** Bytes of 4-bit image data the header asks for. */
  function DataSize(header: ImageHeader): nat
  {
    header.width * header.height / 2
  }

  /** The image after its header: `size` bytes after the 0x80-byte image
      header, clamped to the file, unswizzled when the header says so. */
  function ImageWith(buffer: seq<Byte>, offset: int, header: ImageHeader, size: nat): (r: Result<Image, RangeError>)
  {
    var dataOffset := offset + IMAGE_HEADER_SIZE;
    var data :- ImageData(ClampedSlice(buffer, dataOffset, dataOffset + size), header);
    Success(Image(header, Mipmap(header.width, header.height, data)))
  }

  /** The image data as stored, unswizzled when the header says so. */
  function ImageData(raw: seq<Byte>, header: ImageHeader): Result<seq<Byte>, RangeError>
  {
    if header.swizzle then UnswizzledGray4(raw, header.width) else Success(raw)
  }

  /** The mipmap has the header's size and at most `size` bytes, exactly
      that many when the file holds them. */
  lemma ImageWithWellFormed(buffer: seq<Byte>, offset: int, header: ImageHeader, size: nat)
    ensures var r := ImageWith(buffer, offset, header, size);
      r.Success? ==>
        var m := r.value.mipmap;
        r.value.header == header && m.width == header.width && m.height == header.height &&
        |m.data| <= size && (0 <= offset && offset + IMAGE_HEADER_SIZE + size <= |buffer| ==> |m.data| == size)
  {
    var dataOffset := offset + IMAGE_HEADER_SIZE;
    var raw := ClampedSlice(buffer, dataOffset, dataOffset + size);
    if ImageData(raw, header).Success? {
      assert |ImageData(raw, header).value| == |raw|;
    }
  }

  /** The mipmap has the header's size and at most (width * height) / 2
      bytes, exactly that many when the file holds them. */
  lemma ImageWellFormed(buffer: seq<Byte>, le: bool, offset: int)
    ensures var r := ImageAt(buffer, le, offset);
      r.Success? ==>
        var h, m := r.value.header, r.value.mipmap;
        m.width == h.width && m.height == h.height &&
        |m.data| <= DataSize(h) &&
        (offset + IMAGE_HEADER_SIZE + DataSize(h) <= |buffer| ==> |m.data| == DataSize(h))
  {
    var header := ImageHeaderAt(buffer, le, offset);
    if header.Success? {
      ImageWithWellFormed(buffer, offset, header.value, DataSize(header.value));
    }
  }

  /** What `FNT.load(buffer)` returns, or the RangeError it throws. The byte
      order comes from the first byte (1: little-endian, anything else:
      big-endian). */
  function Loaded(buffer: seq<Byte>): (r: Result<Font, RangeError>)
  {
    var first :- Uint8At(buffer, 0);
    var le := first == 1;
    var header :- HeaderOf(buffer, le);
    var charset :- Charset(buffer, le, header.charsetOffset, header.glyphs, 0);
    var glyphs :- Glyphs(buffer, le, header.glyphOffsetsOffset, header.glyphs, charset, 0);
    if header.imageOffset < |buffer| then
      var image :- ImageAt(buffer, le, header.imageOffset);
      Success(Font(|buffer|, le, header, charset, glyphs, Some(image.header), Some(image.mipmap)))
    else
      Success(Font(|buffer|, le, header, charset, glyphs, None, None))
  }

  /** A loaded font: the file holds at least the 28 header bytes; the byte
      order is the first byte's; the charset and the glyphs number at most
      the header's glyph count and the charset holds no 0; the image header
      and the mipmap are there exactly when HasEmbeddedImage. */
  lemma LoadedWellFormed(buffer: seq<Byte>)
    ensures var r := Loaded(buffer);
      r.Success? ==>
        |buffer| >= 28 && r.value.size == |buffer| && r.value.le == (buffer[0] == 1) &&
        |r.value.charset| <= r.value.header.glyphs && 0 !in r.value.charset &&
        |r.value.glyphs| <= r.value.header.glyphs &&
        (r.value.mipmap.Some? <==> r.value.HasEmbeddedImage()) &&
        (r.value.imageHeader.Some? <==> r.value.HasEmbeddedImage())
  {
    var r := Loaded(buffer);
    if r.Success? {
      var le := buffer[0] == 1;
      var header := HeaderOf(buffer, le).value;
      CharsetScan(buffer, le, header.charsetOffset, header.glyphs, 0);
    }
  }

  /** A file shorter than the header throws. */
  lemma LoadedShortFile(buffer: seq<Byte>)
    requires |buffer| < 28
    ensures Loaded(buffer) == Failure(RangeError)
  {
  }

  method Load(buffer: seq<Byte>) returns (r: Result<Font, RangeError>)
    ensures r == Loaded(buffer)
  {
    var range := new BufferRange(buffer, None, None, true);
    var first := range.GetUint8(0);
    if first.Failure? {
      return Failure(RangeError);
    }
    range.SetLe(first.value == 1);
    var header :- HeaderOf(range.buffer, range.le);
    var charset :- ScanCharset(range, header.charsetOffset, header.glyphs);
    var glyphs :- ScanGlyphs(range, header.glyphOffsetsOffset, header.glyphs, charset);
    if header.imageOffset < range.Size() {
      var image :- LoadImage(range, header.imageOffset);
      return Success(Font(|buffer|, range.le, header, charset, glyphs, Some(image.header), Some(image.mipmap)));
    }
    return Success(Font(|buffer|, range.le, header, charset, glyphs, None, None));
  }

  /** The image part of `FNT.load` over a range spanning the whole file. */
  method LoadImage(range: BufferRange, offset: int) returns (r: Result<Image, RangeError>)
    requires range.begin == 0
    ensures r == ImageAt(range.buffer, range.le, offset)
  {
    var header :- ImageHeaderAt(range.buffer, range.le, offset);
    var size := header.width * header.height / 2;
    r := LoadImageData(range, offset, header, size);
  }

  /** The image data after a loaded image header, `size` bytes long. */
  method LoadImageData(range: BufferRange, offset: int, header: ImageHeader, size: nat) returns (r: Result<Image, RangeError>)
    requires range.begin == 0
    ensures r == ImageWith(range.buffer, offset, header, size)
  {
    var dataOffset := offset + IMAGE_HEADER_SIZE;
    var raw := range.GetUint8Array(dataOffset, size);
    assert raw == ClampedSlice(range.buffer, dataOffset, dataOffset + size);
    var data := raw;
    if header.swizzle {
      var unswizzled := UnswizzleGray4(raw, header.width);
      if unswizzled.Failure? {
        assert ImageData(raw, header).Failure?;
        assert ImageData(raw, header).error == RangeError;
        return Failure(RangeError);
      }
      data := unswizzled.value[..];
    }
    assert ImageData(raw, header) == Success(data);
    return Success(Image(header, Mipmap(header.width, header.height, data)));
  }

  /** The charset loop of `FNT.load` over a range spanning the whole file. */
  method ScanCharset(range: BufferRange, offset: int, count: int) returns (r: Result<seq<int>, RangeError>)
    requires range.begin == 0
    ensures r == Charset(range.buffer, range.le, offset, count, 0)
  {
    var charset: seq<int> := [];
    var i: nat := 0;
    PrependedEmpty(Charset(range.buffer, range.le, offset, count, 0));
    while i < count
      invariant Charset(range.buffer, range.le, offset, count, 0) == Prepended(charset, Charset(range.buffer, range.le, offset, count, i))
      decreases count - i
    {
      var cp :- range.GetUint16(offset + i * 2);
      if cp == 0 {
        assert Charset(range.buffer, range.le, offset, count, i) == Success([]);
        assert charset + [] == charset;
        return Success(charset);
      }
      PrependedOne(charset, cp, Charset(range.buffer, range.le, offset, count, i + 1));
      charset := charset + [cp];
      i := i + 1;
    }
    assert charset + [] == charset;
    return Success(charset);
  }

  /** The glyph loop of `FNT.load` over a range spanning the whole file. */
  method ScanGlyphs(range: BufferRange, offset: int, count: int, charset: seq<int>) returns (r: Result<seq<Glyph>, RangeError>)
    requires range.begin == 0 && range.end == |range.buffer|
    ensures r == Glyphs(range.buffer, range.le, offset, count, charset, 0)
  {
    var glyphs: seq<Glyph> := [];
    var i: nat := 0;
    PrependedEmpty(Glyphs(range.buffer, range.le, offset, count, charset, 0));
    while i < count
      invariant Glyphs(range.buffer, range.le, offset, count, charset, 0) == Prepended(glyphs, Glyphs(range.buffer, range.le, offset, count, charset, i))
      decreases count - i
    {
      var next :- ReadGlyph(range, offset, count, charset, i);
      if next.None? {
        assert glyphs + [] == glyphs;
        return Success(glyphs);
      }
      PrependedOne(glyphs, next.value, Glyphs(range.buffer, range.le, offset, count, charset, i + 1));
      glyphs := glyphs + [next.value];
      i := i + 1;
    }
    assert glyphs + [] == glyphs;
    return Success(glyphs);
  }

  /** One turn of the glyph loop, at glyph i: None where the charset has
      ended or the glyph would run past the end of the file (the loop
      stops), the RangeError reading its offset throws, or the glyph. */
  method ReadGlyph(range: BufferRange, offset: int, count: int, charset: seq<int>, i: nat) returns (r: Result<Option<Glyph>, RangeError>)
    requires range.begin == 0 && range.end == |range.buffer| && i < count
    ensures r.Failure? ==> Glyphs(range.buffer, range.le, offset, count, charset, i) == Failure(r.error)
    ensures r == Success(None) ==> Glyphs(range.buffer, range.le, offset, count, charset, i) == Success([])
    ensures r.Success? && r.value.Some? ==>
      Glyphs(range.buffer, range.le, offset, count, charset, i) == Prepended([r.value.value], Glyphs(range.buffer, range.le, offset, count, charset, i + 1))
  {
    if i < |charset| && charset[i] == 0 {
      return Success(None);
    }
    var glyphOffset :- range.GetUint32(offset + i * 4);
    if glyphOffset + GLYPH_SIZE > range.Size() {
      return Success(None);
    }
    var glyph := GlyphAt(range.buffer, range.le, glyphOffset).value;
    return Success(Some(glyph));
  }
}
