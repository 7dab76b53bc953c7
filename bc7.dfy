/** The BC7 (BPTC) decoder: `BC7.decompressBlock` turns one 16-byte block
    into 16 RGBA texels written into a 4 x 4 tile of the image, and
    `BC7.decompress` walks the blocks of a width x height image, 16 bytes
    per block. The specification is `DecodeBlock` (the 16 texels in reading
    order, texel k = 4 * i + j being row i, column j of the block's tables)
    and `DecodedImage` (the image after every block has been painted). */
module Bc7 {
  import opened Bytes
  import opened Wrappers
  import opened Range
  import opened Bc7Bits
  import opened Bc7Tables
  import opened Bc7Layout
  import opened Bc7Endpoints

  const BLOCK_SIZE: nat := 16

  datatype Texel = Texel(r: Byte, g: Byte, b: Byte, a: Byte)

  /** Channel c of a texel: 0 red, 1 green, 2 blue, 3 alpha. */
  function Channel(t: Texel, c: nat): Byte
    requires c < 4
  {
    if c == 0 then t.r else if c == 1 then t.g else if c == 2 then t.b else t.a
  }

  const TRANSPARENT_BLACK := Texel(0, 0, 0, 0)

  // ----------------------------------------------------------- interpolation

  /** `bcdec__interpolate`: the 6-bit weighted mean of a and b, rounded;
      weight 0 gives a and weight 64 gives b. */
  function Interpolate(a: nat, b: nat, weights: seq<nat>, index: nat): (r: nat)
    requires index < |weights| && weights[index] <= 64
    ensures if a <= b then a <= r <= b else b <= r <= a
    ensures weights[index] == 0 ==> r == a
    ensures weights[index] == 64 ==> r == b
  {
    MixBetween(a, b, weights[index]);
    Mix(a, b, weights[index])
  }

  function Mix(a: nat, b: nat, w: nat): nat
    requires w <= 64
  {
    (a * (64 - w) + b * w + 32) / 64
  }

  lemma MixBetween(a: nat, b: nat, w: nat)
    requires w <= 64
    ensures if a <= b then a <= Mix(a, b, w) <= b else b <= Mix(a, b, w) <= a
    ensures w == 0 ==> Mix(a, b, w) == a
    ensures w == 64 ==> Mix(a, b, w) == b
  {
    if a <= b {
      MixRising(a, b, w);
    } else {
      assert a * (64 - w) + b * w == b * (64 - (64 - w)) + a * (64 - w);
      MixRising(b, a, 64 - w);
    }
  }

  /** The mean of a <= b lies between them. */
  lemma MixRising(a: nat, b: nat, w: nat)
    requires a <= b && w <= 64
    ensures a <= Mix(a, b, w) <= b
    ensures w == 0 ==> Mix(a, b, w) == a
    ensures w == 64 ==> Mix(a, b, w) == b
  {
    var d := b - a;
    assert a * (64 - w) + b * w == 64 * a + w * d;
    MulMonotone(d, w, 64);
    MeanBounds(a, b, w * d);
  }

  lemma MeanBounds(lo: nat, hi: nat, t: nat)
    requires lo <= hi && t <= 64 * (hi - lo)
    ensures lo <= (64 * lo + t + 32) / 64 <= hi
    ensures t == 0 ==> (64 * lo + t + 32) / 64 == lo
    ensures t == 64 * (hi - lo) ==> (64 * lo + t + 32) / 64 == hi
  {
    var q := (64 * lo + t + 32) / 64;
    assert 64 * q <= 64 * lo + t + 32 < 64 * q + 64;
  }

  /** The weights of the second index stream: `indexBits2 == 2 ? aWeight2 : aWeight3`. */
  function Weights2(mode: nat): (w: seq<nat>)
  {
    Weights(if IndexBits2(mode) == 2 then 2 else 3)
  }

  // ------------------------------------------------------------------ texels

  /** The six expanded endpoints of a block, four channels each (endpoints
      past the mode's count stay 0). */
  function Endpoints(buffer: seq<Byte>, mode: nat): (e: seq<seq<nat>>)
    requires mode < 8
    ensures Colours(e)
  {
    seq(6, j requires 0 <= j => seq(4, c requires 0 <= c => Endpoint(buffer, mode, j, c)))
  }

  /** Six endpoints of four 8-bit channels. */
  predicate Colours(e: seq<seq<nat>>)
  {
    Table(e) && forall j, c :: 0 <= j < 6 && 0 <= c < 4 ==> e[j][c] < 256
  }

  /** Table t gives each of the 16 texels one of the mode's subsets. */
  predicate Partitioned(mode: nat, t: seq<seq<int>>)
  {
    Shaped(t) && forall k :: 0 <= k < 16 ==> SubsetOf(EntryAt(t, k)) < Subsets(mode)
  }

  /** Every table the decoder consults partitions the block. */
  lemma PartitionTablePartitions(mode: nat, partition: nat)
    requires partition < 64
    ensures Partitioned(mode, PartitionTable(mode, partition))
  {
    var t := PartitionTable(mode, partition);
    PartitionTableWellFormed(mode, partition);
    forall k | 0 <= k < 16
      ensures SubsetOf(EntryAt(t, k)) < Subsets(mode)
    {
      assert EntryAt(t, k) == t[k / 4][k % 4];
    }
  }

  /** The primary index of texel k. */
  function PrimaryIndex(buffer: seq<Byte>, mode: nat, t: seq<seq<int>>, k: nat): (r: nat)
    requires mode < 8 && Shaped(t) && k < 16
    ensures r < |Weights(IndexBits(mode))|
  {
    Pow2Low();
    Pow2Monotone(IndexWidth(mode, t, k), IndexBits(mode));
    Uint(buffer, IndexStart(mode) + IndexOffset(mode, t, k), IndexWidth(mode, t, k))
  }

  /** The 16 primary indices of pass 1 in reading order. */
  function PrimaryIndexList(buffer: seq<Byte>, mode: nat, t: seq<seq<int>>): (r: seq<nat>)
    requires mode < 8 && Shaped(t)
    ensures |r| == 16
  {
    seq(16, k requires 0 <= k < 16 => PrimaryIndex(buffer, mode, t, k))
  }

  /** Entry k of the list is texel k's primary index. */
  lemma PrimaryIndexListAt(buffer: seq<Byte>, mode: nat, t: seq<seq<int>>, k: nat)
    requires mode < 8 && Shaped(t) && k < 16
    ensures PrimaryIndexList(buffer, mode, t)[k] == PrimaryIndex(buffer, mode, t, k)
  {
  }

  /** Entry k of the list is the IndexWidth bits read where texel k's index
      starts. */
  lemma PrimaryIndexRead(buffer: seq<Byte>, mode: nat, t: seq<seq<int>>, k: nat)
    requires mode < 8 && Shaped(t) && k < 16
    ensures PrimaryIndexList(buffer, mode, t)[k] == Uint(buffer, IndexStart(mode) + IndexOffset(mode, t, k), IndexWidth(mode, t, k))
  {
    PrimaryIndexListAt(buffer, mode, t, k);
  }

  /** The 4 x 4 primary indices of pass 1, one per entry of the partition
      table: row i holds texels 4 * i to 4 * i + 3. */
  function PrimaryIndices(buffer: seq<Byte>, mode: nat, t: seq<seq<int>>): (r: seq<seq<nat>>)
    requires mode < 8 && Shaped(t)
    ensures |r| == 4
  {
    var ids := PrimaryIndexList(buffer, mode, t);
    seq(4, i requires 0 <= i < 4 => ids[4 * i..4 * i + 4])
  }

  /** Row i of the table is the slice of texels 4 * i to 4 * i + 3. */
  lemma PrimaryIndicesRow(buffer: seq<Byte>, mode: nat, t: seq<seq<int>>, i: nat)
    requires mode < 8 && Shaped(t) && i < 4
    ensures PrimaryIndices(buffer, mode, t)[i] == PrimaryIndexList(buffer, mode, t)[4 * i..4 * i + 4]
  {
  }

  /** Row i, column j of the table is the index of texel 4 * i + j. */
  lemma PrimaryIndicesAt(buffer: seq<Byte>, mode: nat, t: seq<seq<int>>, i: nat, j: nat)
    requires mode < 8 && Shaped(t) && i < 4 && j < 4
    ensures |PrimaryIndices(buffer, mode, t)[i]| == 4
    ensures PrimaryIndices(buffer, mode, t)[i][j] == PrimaryIndex(buffer, mode, t, 4 * i + j)
  {
    var ids := PrimaryIndexList(buffer, mode, t);
    assert PrimaryIndices(buffer, mode, t)[i] == ids[4 * i..4 * i + 4];
    PrimaryIndexListAt(buffer, mode, t, 4 * i + j);
  }

  /** The primary indices form a 4 x 4 table of valid weight indices. */
  lemma PrimaryIndicesTable(buffer: seq<Byte>, mode: nat, t: seq<seq<int>>)
    requires mode < 8 && Shaped(t)
    ensures IndexTable(mode, PrimaryIndices(buffer, mode, t))
  {
    var r := PrimaryIndices(buffer, mode, t);
    forall i | 0 <= i < 4
      ensures |r[i]| == 4 && forall j :: 0 <= j < 4 ==> r[i][j] < |Weights(IndexBits(mode))|
    {
      forall j | 0 <= j < 4
        ensures |r[i]| == 4 && r[i][j] < |Weights(IndexBits(mode))|
      {
        PrimaryIndicesAt(buffer, mode, t, i, j);
      }
      PrimaryIndicesAt(buffer, mode, t, i, 0);
    }
  }

  /** A 4 x 4 table of indices into the mode's primary weights. */
  predicate IndexTable(mode: nat, indices: seq<seq<nat>>)
  {
    |indices| == 4 &&
    forall i :: 0 <= i < 4 ==> (|indices[i]| == 4 && forall j :: 0 <= j < 4 ==> indices[i][j] < |Weights(IndexBits(mode))|)
  }

  /** The secondary index of texel k (modes 4 and 5). */
  function SecondaryIndex(buffer: seq<Byte>, mode: nat, t: seq<seq<int>>, k: nat): (r: nat)
    requires mode < 8 && Shaped(t) && k < 16 && IndexBits2(mode) > 0
    ensures r < |Weights2(mode)|
  {
    Pow2Low();
    Pow2Monotone(Index2Width(mode, k), IndexBits2(mode));
    Uint(buffer, Index2Start(mode, t) + Index2Offset(mode, k), Index2Width(mode, k))
  }

  /** The colour channels interpolated between e0 and e1 with weight
      wc[ic], the alpha with wa[ia]. */
  function Blend(e0: seq<nat>, e1: seq<nat>, wc: seq<nat>, ic: nat, wa: seq<nat>, ia: nat): (r: Texel)
    requires |e0| == 4 && |e1| == 4 && forall c :: 0 <= c < 4 ==> e0[c] < 256 && e1[c] < 256
    requires ic < |wc| && wc[ic] <= 64 && ia < |wa| && wa[ia] <= 64
  {
    Texel(Interpolate(e0[0], e1[0], wc, ic), Interpolate(e0[1], e1[1], wc, ic),
          Interpolate(e0[2], e1[2], wc, ic), Interpolate(e0[3], e1[3], wa, ia))
  }

  /** Every channel of a blend lies between the endpoints' channels. */
  lemma BlendBetween(e0: seq<nat>, e1: seq<nat>, wc: seq<nat>, ic: nat, wa: seq<nat>, ia: nat, c: nat)
    requires |e0| == 4 && |e1| == 4 && forall c :: 0 <= c < 4 ==> e0[c] < 256 && e1[c] < 256
    requires ic < |wc| && wc[ic] <= 64 && ia < |wa| && wa[ia] <= 64 && c < 4
    ensures var v := Channel(Blend(e0, e1, wc, ic, wa, ia), c);
            if e0[c] <= e1[c] then e0[c] <= v <= e1[c] else e1[c] <= v <= e0[c]
  {
  }

  /** Index 0 gives the first endpoint and the last index the second. */
  lemma BlendExtremes(e0: seq<nat>, e1: seq<nat>, bits: nat)
    requires |e0| == 4 && |e1| == 4 && forall c :: 0 <= c < 4 ==> e0[c] < 256 && e1[c] < 256
    ensures var w := Weights(bits);
            Blend(e0, e1, w, 0, w, 0) == Texel(e0[0], e0[1], e0[2], e0[3])
    ensures var w := Weights(bits);
            Blend(e0, e1, w, |w| - 1, w, |w| - 1) == Texel(e1[0], e1[1], e1[2], e1[3])
  {
  }

  /** Rotation 1, 2 and 3 swap alpha with red, green and blue. */
  function Rotate(t: Texel, rotation: nat): Texel
  {
    if rotation == 1 then Texel(t.a, t.g, t.b, t.r)
    else if rotation == 2 then Texel(t.r, t.a, t.b, t.g)
    else if rotation == 3 then Texel(t.r, t.g, t.a, t.b)
    else t
  }

  /** The channel of the unrotated texel that ends up in channel c. */
  function RotatedFrom(rotation: nat, c: nat): (r: nat)
    requires c < 4
    ensures r < 4
  {
    if 1 <= rotation <= 3 && c == rotation - 1 then 3
    else if 1 <= rotation <= 3 && c == 3 then rotation - 1
    else c
  }

  /** Rotating moves channel RotatedFrom(rotation, c) to c, and rotating
      twice gives the texel back. */
  lemma RotateChannels(t: Texel, rotation: nat)
    ensures forall c :: 0 <= c < 4 ==> Channel(Rotate(t, rotation), c) == Channel(t, RotatedFrom(rotation, c))
    ensures Rotate(Rotate(t, rotation), rotation) == t
  {
  }

  /** The subset of texel k. */
  function SubsetAt(t: seq<seq<int>>, k: nat): nat
    requires Shaped(t) && k < 16
  {
    SubsetOf(EntryAt(t, k))
  }

  /** A texel from its subset's endpoints e0, e1 and its indices: without
      a second index stream the primary index drives all four channels;
      otherwise the selection bit chooses which stream drives colour and
      which alpha. */
  function Select(mode: nat, selection: nat, e0: seq<nat>, e1: seq<nat>, index: nat, index2: nat): Texel
    requires |e0| == 4 && |e1| == 4 && forall c :: 0 <= c < 4 ==> e0[c] < 256 && e1[c] < 256
    requires index < |Weights(IndexBits(mode))| && (IndexBits2(mode) > 0 ==> index2 < |Weights2(mode)|)
  {
    var w := Weights(IndexBits(mode));
    if IndexBits2(mode) == 0 then Blend(e0, e1, w, index, w, index)
    else if selection == 0 then Blend(e0, e1, w, index, Weights2(mode), index2)
    else Blend(e0, e1, Weights2(mode), index2, w, index)
  }

  /** Texel k before the rotation. */
  function Unrotated(buffer: seq<Byte>, h: Header, t: seq<seq<int>>, e: seq<seq<nat>>, indices: seq<seq<nat>>, k: nat): Texel
    requires h.mode < 8 && Partitioned(h.mode, t) && Colours(e) && IndexTable(h.mode, indices) && k < 16
  {
    var s := SubsetAt(t, k);
    Select(h.mode, h.selection, e[2 * s], e[2 * s + 1], indices[k / 4][k % 4],
           if IndexBits2(h.mode) > 0 then SecondaryIndex(buffer, h.mode, t, k) else 0)
  }

  /** Texel k of a block in mode < 8 with header h, partition table t,
      endpoints e and primary indices. */
  function TexelAt(buffer: seq<Byte>, h: Header, t: seq<seq<int>>, e: seq<seq<nat>>, indices: seq<seq<nat>>, k: nat): Texel
    requires h.mode < 8 && Partitioned(h.mode, t) && Colours(e) && IndexTable(h.mode, indices) && k < 16
  {
    Rotate(Unrotated(buffer, h, t, e, indices, k), h.rotation)
  }

  /** The 16 texels of a block in mode < 8, in reading order. */
  function BlockTexels(buffer: seq<Byte>, h: Header, t: seq<seq<int>>, e: seq<seq<nat>>, indices: seq<seq<nat>>): (r: seq<Texel>)
    requires h.mode < 8 && Partitioned(h.mode, t) && Colours(e) && IndexTable(h.mode, indices)
    ensures |r| == 16
  {
    seq(16, k requires 0 <= k < 16 => TexelAt(buffer, h, t, e, indices, k))
  }

  /** The 16 texels of a block in reading order; a block without a mode bit
      among its first 8 bits is transparent black. */
  function DecodeBlock(buffer: seq<Byte>): (r: seq<Texel>)
    ensures |r| == 16
  {
    var mode := ModeOf(buffer);
    if mode >= 8 then seq(16, _ => TRANSPARENT_BLACK)
    else
      var h := HeaderOf(buffer, mode);
      PartitionTablePartitions(mode, h.partition);
      var t := PartitionTable(mode, h.partition);
      PrimaryIndicesTable(buffer, mode, t);
      BlockTexels(buffer, h, t, Endpoints(buffer, mode), PrimaryIndices(buffer, mode, t))
  }

  /** Each channel of texel k lies between the channels of its subset's two
      endpoints that it was rotated from. */
  lemma TexelAtBetween(buffer: seq<Byte>, h: Header, t: seq<seq<int>>, e: seq<seq<nat>>, indices: seq<seq<nat>>, k: nat, c: nat)
    requires h.mode < 8 && Partitioned(h.mode, t) && Colours(e) && IndexTable(h.mode, indices) && k < 16 && c < 4
    ensures SubsetAt(t, k) < Subsets(h.mode)
    ensures var s := SubsetAt(t, k);
            var e0 := e[2 * s][RotatedFrom(h.rotation, c)];
            var e1 := e[2 * s + 1][RotatedFrom(h.rotation, c)];
            var v := Channel(TexelAt(buffer, h, t, e, indices, k), c);
            if e0 <= e1 then e0 <= v <= e1 else e1 <= v <= e0
  {
    var u := Unrotated(buffer, h, t, e, indices, k);
    RotateChannels(u, h.rotation);
    var c' := RotatedFrom(h.rotation, c);
    var s := SubsetAt(t, k);
    var w := Weights(IndexBits(h.mode));
    var index := indices[k / 4][k % 4];
    if IndexBits2(h.mode) == 0 {
      BlendBetween(e[2 * s], e[2 * s + 1], w, index, w, index, c');
    } else if h.selection == 0 {
      BlendBetween(e[2 * s], e[2 * s + 1], w, index, Weights2(h.mode), SecondaryIndex(buffer, h.mode, t, k), c');
    } else {
      BlendBetween(e[2 * s], e[2 * s + 1], Weights2(h.mode), SecondaryIndex(buffer, h.mode, t, k), w, index, c');
    }
  }

  /** Every channel of every decoded texel lies between the two endpoints of
      its subset, for the channel it was rotated from; the subset is one the
      mode has. */
  lemma TexelBetweenEndpoints(buffer: seq<Byte>, k: nat, c: nat)
    requires ModeOf(buffer) < 8 && k < 16 && c < 4
    ensures var h := HeaderOf(buffer, ModeOf(buffer));
            var t := PartitionTable(h.mode, h.partition);
            Shaped(t) && SubsetAt(t, k) < Subsets(h.mode) &&
            var s := SubsetAt(t, k);
            var e0 := Endpoint(buffer, h.mode, 2 * s, RotatedFrom(h.rotation, c));
            var e1 := Endpoint(buffer, h.mode, 2 * s + 1, RotatedFrom(h.rotation, c));
            if e0 <= e1 then e0 <= Channel(DecodeBlock(buffer)[k], c) <= e1
            else e1 <= Channel(DecodeBlock(buffer)[k], c) <= e0
  {
    var h := HeaderOf(buffer, ModeOf(buffer));
    var t := PartitionTable(h.mode, h.partition);
    var e := Endpoints(buffer, h.mode);
    PartitionTablePartitions(h.mode, h.partition);
    var indices := PrimaryIndices(buffer, h.mode, t);
    PrimaryIndicesTable(buffer, h.mode, t);
    TexelAtBetween(buffer, h, t, e, indices, k, c);
    assert DecodeBlock(buffer)[k] == TexelAt(buffer, h, t, e, indices, k);
  }

  /** No mode bit among the first 8 means a zero first byte, or no byte
      at all: such a block, a missing one included, is transparent black. */
  lemma NoModeIffZeroByte(buffer: seq<Byte>)
    ensures ModeOf(buffer) == 8 <==> |buffer| == 0 || buffer[0] == 0
    ensures ModeOf(buffer) == 8 ==> DecodeBlock(buffer) == seq(16, _ => TRANSPARENT_BLACK)
  {
    ModeIsFirstSetBit(buffer, 8);
    UintZero(buffer, 0, 8);
    if |buffer| == 0 {
      UintPastEnd(buffer, 0, 8);
    } else {
      UintByte(buffer, 0);
    }
  }

  /** A read is 0 exactly when all its bits are clear. */
  lemma {:induction false} UintZero(buffer: seq<Byte>, o: nat, n: nat)
    ensures Uint(buffer, o, n) == 0 <==> forall i :: o <= i < o + n ==> Bit(buffer, i) == 0
  {
    if n > 0 {
      UintZero(buffer, o, n - 1);
      assert Uint(buffer, o, n) == 2 * Uint(buffer, o, n - 1) + Bit(buffer, o + (n - 1));
    }
  }

  // ------------------------------------------------------------------- image

  /** A `Uint8ClampedArray` store: out-of-range indices are ignored. */
  function Put(image: seq<Byte>, p: int, v: Byte): (r: seq<Byte>)
    ensures |r| == |image|
  {
    if 0 <= p < |image| then image[p := v] else image
  }

  /** `writeImage`'s four stores at pixel idx. */
  function PutTexel(image: seq<Byte>, idx: int, t: Texel): (r: seq<Byte>)
    ensures |r| == |image|
  {
    Put(Put(Put(Put(image, idx * 4 + 0, t.r), idx * 4 + 1, t.g), idx * 4 + 2, t.b), idx * 4 + 3, t.a)
  }

  /** As written, texel k = 4 * i + j is stored by `writeImage(j, i)`: at
      row y + j, column x + i. */
  function TilePosition(x: int, y: int, width: int, k: nat): int
  {
    (y + k % 4) * width + (x + k / 4)
  }

  /** The image after the first n texels have been stored. */
  function PaintTile(image: seq<Byte>, x: int, y: int, width: int, texels: seq<Texel>, n: nat): (r: seq<Byte>)
    requires n <= |texels|
    ensures |r| == |image|
  {
    if n == 0 then image
    else PutTexel(PaintTile(image, x, y, width, texels, n - 1), TilePosition(x, y, width, n - 1), texels[n - 1])
  }

  /** The image once every texel of a tile has been stored. */
  function Tile(image: seq<Byte>, x: int, y: int, width: int, texels: seq<Texel>): (r: seq<Byte>)
    ensures |r| == |image|
  {
    PaintTile(image, x, y, width, texels, |texels|)
  }

  /** The image after `decompressBlock(x, y, width, block, image)`. */
  function BlockImage(image: seq<Byte>, x: int, y: int, width: int, block: seq<Byte>): (r: seq<Byte>)
    ensures |r| == |image|
  {
    Tile(image, x, y, width, DecodeBlock(block))
  }

  /** A store at pixel idx leaves the bytes of every other pixel alone. */
  lemma PutTexelFrame(image: seq<Byte>, idx: int, t: Texel, p: int)
    requires 0 <= p < |image| && p / 4 != idx
    ensures PutTexel(image, idx, t)[p] == image[p]
  {
  }

  /** Stores n to m - 1 leave a byte alone unless one of them is at its pixel. */
  lemma {:induction false} PaintTileFrame(image: seq<Byte>, x: int, y: int, width: int, texels: seq<Texel>, m: nat, n: nat, p: int)
    requires m <= n <= |texels| && 0 <= p < |image|
    requires forall k :: m <= k < n ==> p / 4 != TilePosition(x, y, width, k)
    ensures PaintTile(image, x, y, width, texels, n)[p] == PaintTile(image, x, y, width, texels, m)[p]
  {
    if m < n {
      PaintTileFrame(image, x, y, width, texels, m, n - 1, p);
      PutTexelFrame(PaintTile(image, x, y, width, texels, n - 1), TilePosition(x, y, width, n - 1), texels[n - 1], p);
    }
  }

  /** In an image at least 4 pixels wide the 16 texels of a tile land on 16
      different pixels. */
  lemma TilePositionInjective(x: int, y: int, width: int, k: nat, k': nat)
    requires width >= 4 && k < 16 && k' < 16 && k != k'
    ensures TilePosition(x, y, width, k) != TilePosition(x, y, width, k')
  {
    var d := k % 4 - k' % 4;
    assert TilePosition(x, y, width, k) - TilePosition(x, y, width, k') == d * width + (k / 4 - k' / 4);
    if d > 0 {
      MulAtLeast(d, width);
    } else if d < 0 {
      MulAtLeast(-d, width);
    }
  }

  /** A tile stores its texel k, channel c, at byte 4 * TilePosition(k) + c
      (when that byte is inside the image), and nothing outside its 16
      pixels. */
  lemma TileWritesOwnPixels(image: seq<Byte>, x: int, y: int, width: int, texels: seq<Texel>)
    requires |texels| == 16
    ensures forall p :: 0 <= p < |image| && (forall k :: 0 <= k < |texels| ==> p / 4 != TilePosition(x, y, width, k)) ==>
              Tile(image, x, y, width, texels)[p] == image[p]
    ensures width >= 4 ==> forall k, c :: 0 <= k < |texels| && 0 <= c < 4 && 0 <= 4 * TilePosition(x, y, width, k) + c < |image| ==>
              Tile(image, x, y, width, texels)[4 * TilePosition(x, y, width, k) + c] == Channel(texels[k], c)
  {
    forall p | 0 <= p < |image| && (forall k :: 0 <= k < |texels| ==> p / 4 != TilePosition(x, y, width, k))
      ensures Tile(image, x, y, width, texels)[p] == image[p]
    {
      PaintTileFrame(image, x, y, width, texels, 0, |texels|, p);
    }
    if width >= 4 {
      forall k, c | 0 <= k < |texels| && 0 <= c < 4 && 0 <= 4 * TilePosition(x, y, width, k) + c < |image|
        ensures Tile(image, x, y, width, texels)[4 * TilePosition(x, y, width, k) + c] == Channel(texels[k], c)
      {
        TileStoresTexel(image, x, y, width, texels, k, c);
      }
    }
  }

  /** Texel k's store is the last one to touch its pixel. */
  lemma TileStoresTexel(image: seq<Byte>, x: int, y: int, width: int, texels: seq<Texel>, k: nat, c: nat)
    requires |texels| == 16 && width >= 4 && k < 16 && c < 4 && 0 <= 4 * TilePosition(x, y, width, k) + c < |image|
    ensures Tile(image, x, y, width, texels)[4 * TilePosition(x, y, width, k) + c] == Channel(texels[k], c)
  {
    var p := 4 * TilePosition(x, y, width, k) + c;
    assert p / 4 == TilePosition(x, y, width, k);
    forall k' | k + 1 <= k' < |texels|
      ensures p / 4 != TilePosition(x, y, width, k')
    {
      TilePositionInjective(x, y, width, k, k');
    }
    PaintTileFrame(image, x, y, width, texels, k + 1, |texels|, p);
  }

  // ----------------------------------------------------------------- methods

  /** `writeImage(yy, xx, r, g, b, a)`. */
  method WriteImage(image: array<Byte>, x: int, y: int, width: int, yy: int, xx: int, r: Byte, g: Byte, b: Byte, a: Byte)
    modifies image
    ensures image[..] == PutTexel(old(image[..]), (y + yy) * width + (x + xx), Texel(r, g, b, a))
  {
    var idx := (y + yy) * width + (x + xx);
    if 0 <= idx * 4 + 0 < image.Length {
      image[idx * 4 + 0] := r;
    }
    if 0 <= idx * 4 + 1 < image.Length {
      image[idx * 4 + 1] := g;
    }
    if 0 <= idx * 4 + 2 < image.Length {
      image[idx * 4 + 2] := b;
    }
    if 0 <= idx * 4 + 3 < image.Length {
      image[idx * 4 + 3] := a;
    }
  }

  lemma TexelNumber(x: int, y: int, width: int, i: nat, j: nat)
    requires i < 4 && j < 4
    ensures (4 * i + j) / 4 == i && (4 * i + j) % 4 == j
    ensures TilePosition(x, y, width, 4 * i + j) == (y + j) * width + (x + i)
  {
    DivModUnique(4 * i + j, 4, i, j);
  }

  /** Storing texel (i, j) at row y + j, column x + i is the next step
      of PaintTile. */
  lemma PaintStep(image: seq<Byte>, x: int, y: int, width: int, texels: seq<Texel>, i: nat, j: nat)
    requires i < 4 && j < 4 && |texels| == 16
    ensures PaintTile(image, x, y, width, texels, 4 * i + j + 1) ==
            PutTexel(PaintTile(image, x, y, width, texels, 4 * i + j), (y + j) * width + (x + i), texels[4 * i + j])
  {
    TexelNumber(x, y, width, i, j);
  }

  /** The mode loop: the bits up to and including the first set one, at
      most 8. */
  method ReadMode(bit: BitReader) returns (mode: nat)
    requires bit.offset == 0
    modifies bit
    ensures mode == ModeOf(bit.buffer) && bit.offset == ModeBits(mode)
  {
    mode := 0;
    while mode < 8
      invariant mode <= 8 && bit.offset == mode
      invariant LeadingZeros(bit.buffer, mode) == ModeOf(bit.buffer)
      decreases 8 - mode
    {
      var b := bit.GetBit();
      if b {
        return;
      }
      mode := mode + 1;
    }
  }

  /** The partition table the loops consult: `i | j ? 0 : 128` for one
      subset, else the `partition_sets` entry the decoder indexes. */
  predicate Consults(t: seq<seq<int>>, numPartitions: nat, sets: seq<seq<int>>)
  {
    Shaped(t) && if numPartitions == 1 then t == SingleSubset() else t == sets
  }

  /** `partitionSet` for texel (i, j). */
  method PartitionEntry(numPartitions: nat, sets: seq<seq<int>>, ghost t: seq<seq<int>>, i: nat, j: nat)
    returns (partitionSet: int)
    requires Consults(t, numPartitions, sets) && i < 4 && j < 4
    ensures partitionSet == EntryAt(t, 4 * i + j)
  {
    TexelNumber(0, 0, 0, i, j);
    if numPartitions == 1 {
      partitionSet := if i == 0 && j == 0 then 128 else 0;
    } else {
      partitionSet := sets[i][j];
    }
  }

  /** Pass 1: the primary indices, anchors one bit short. */
  method ReadIndices(bit: BitReader, mode: nat, numPartitions: nat, sets: seq<seq<int>>, ghost t: seq<seq<int>>)
    returns (indices: seq<seq<nat>>)
    requires mode < 8 && Consults(t, numPartitions, sets) && bit.offset == IndexStart(mode)
    modifies bit
    ensures bit.offset == Index2Start(mode, t)
    ensures indices == PrimaryIndices(bit.buffer, mode, t)
  {
    ghost var ids := PrimaryIndexList(bit.buffer, mode, t);
    ghost var rows := PrimaryIndices(bit.buffer, mode, t);
    indices := [];
    for i := 0 to 4
      invariant bit.offset == IndexStart(mode) + IndexOffset(mode, t, 4 * i)
      invariant indices == rows[..i]
    {
      var row := ReadIndexRow(bit, mode, numPartitions, sets, t, ids, i);
      PrimaryIndicesRow(bit.buffer, mode, t, i);
      assert rows[..i + 1] == rows[..i] + [row];
      indices := indices + [row];
    }
    assert rows[..4] == rows;
  }

  /** Row i of pass 1: the indices of texels 4 * i to 4 * i + 3. */
  method ReadIndexRow(bit: BitReader, mode: nat, numPartitions: nat, sets: seq<seq<int>>, ghost t: seq<seq<int>>,
                      ghost ids: seq<nat>, i: nat)
    returns (row: seq<nat>)
    requires mode < 8 && Consults(t, numPartitions, sets) && i < 4
    requires ids == PrimaryIndexList(bit.buffer, mode, t)
    requires bit.offset == IndexStart(mode) + IndexOffset(mode, t, 4 * i)
    modifies bit
    ensures bit.offset == IndexStart(mode) + IndexOffset(mode, t, 4 * i + 4)
    ensures row == ids[4 * i..4 * i + 4]
  {
    row := [];
    for j := 0 to 4
      invariant bit.offset == IndexStart(mode) + IndexOffset(mode, t, 4 * i + j)
      invariant row == ids[4 * i..4 * i + j]
    {
      row := ReadIndexStep(bit, mode, numPartitions, sets, t, ids, i, j, row);
    }
  }

  /** Texel (i, j) of pass 1: its partition entry, then its index. */
  method ReadIndexStep(bit: BitReader, mode: nat, numPartitions: nat, sets: seq<seq<int>>, ghost t: seq<seq<int>>,
                       ghost ids: seq<nat>, i: nat, j: nat, row: seq<nat>)
    returns (row': seq<nat>)
    requires mode < 8 && Consults(t, numPartitions, sets) && i < 4 && j < 4
    requires ids == PrimaryIndexList(bit.buffer, mode, t)
    requires bit.offset == IndexStart(mode) + IndexOffset(mode, t, 4 * i + j)
    requires row == ids[4 * i..4 * i + j]
    modifies bit
    ensures bit.offset == IndexStart(mode) + IndexOffset(mode, t, 4 * i + j + 1)
    ensures row' == ids[4 * i..4 * i + j + 1]
  {
    var partitionSet := PartitionEntry(numPartitions, sets, t, i, j);
    var v := ReadIndex(bit, mode, t, ids, 4 * i + j, partitionSet);
    assert ids[4 * i..4 * i + j + 1] == ids[4 * i..4 * i + j] + [v];
    row' := row + [v];
  }

  /** One primary index: `indexBits`, one less on an anchor. */
  method ReadIndex(bit: BitReader, mode: nat, ghost t: seq<seq<int>>, ghost ids: seq<nat>, k: nat, partitionSet: int)
    returns (v: nat)
    requires mode < 8 && Shaped(t) && k < 16 && partitionSet == EntryAt(t, k)
    requires ids == PrimaryIndexList(bit.buffer, mode, t)
    requires bit.offset == IndexStart(mode) + IndexOffset(mode, t, k)
    modifies bit
    ensures bit.offset == IndexStart(mode) + IndexOffset(mode, t, k + 1)
    ensures v == ids[k]
  {
    var indexBits := if mode == 0 || mode == 1 then 3 else if mode == 6 then 4 else 2;
    if IsAnchor(partitionSet) {
      indexBits := indexBits - 1;
    }
    assert indexBits == IndexWidth(mode, t, k);
    PrimaryIndexRead(bit.buffer, mode, t, k);
    v := bit.GetUint(indexBits);
  }

  /** The block header fields, read after the mode. */
  method ReadHeader(bit: BitReader, mode: nat) returns (numPartitions: nat, partition: nat, rotation: nat, indexSelectionBit: nat)
    requires mode < 8 && bit.offset == ModeBits(mode)
    modifies bit
    ensures bit.offset == EndpointStart(mode)
    ensures numPartitions == Subsets(mode)
    ensures HeaderOf(bit.buffer, mode) == Header(mode, partition, rotation, indexSelectionBit)
  {
    numPartitions := 1;
    partition := 0;
    if mode == 0 || mode == 1 || mode == 2 || mode == 3 || mode == 7 {
      numPartitions := if mode == 0 || mode == 2 then 3 else 2;
      partition := bit.GetUint(if mode == 0 then 4 else 6);
    }
    rotation := 0;
    indexSelectionBit := 0;
    if mode == 4 || mode == 5 {
      rotation := bit.GetUint(2);
      if mode == 4 {
        indexSelectionBit := bit.GetUint(1);
      }
    }
  }

  /** Pass 2 for texel (i, j): the secondary index if any, the four
      interpolations and the rotation. */
  method DecodeTexel(bit: BitReader, h: Header, numPartitions: nat, sets: seq<seq<int>>, ghost t: seq<seq<int>>,
                     endpoints: seq<seq<nat>>, indices: seq<seq<nat>>, i: nat, j: nat)
    returns (r: Byte, g: Byte, b: Byte, a: Byte)
    requires h.mode < 8 && Consults(t, numPartitions, sets) && Partitioned(h.mode, t) && i < 4 && j < 4
    requires Colours(endpoints)
    requires IndexTable(h.mode, indices)
    requires IndexBits2(h.mode) > 0 ==> bit.offset == Index2Start(h.mode, t) + Index2Offset(h.mode, 4 * i + j)
    modifies bit
    ensures IndexBits2(h.mode) > 0 ==> bit.offset == Index2Start(h.mode, t) + Index2Offset(h.mode, 4 * i + j + 1)
    ensures IndexBits2(h.mode) == 0 ==> bit.offset == old(bit.offset)
    ensures Texel(r, g, b, a) == TexelAt(bit.buffer, h, t, endpoints, indices, 4 * i + j)
  {
    var u := BlendTexel(bit, h, numPartitions, sets, t, endpoints, indices, i, j);
    r, g, b, a := u.r, u.g, u.b, u.a;
    if h.rotation == 1 {
      a, r := r, a;
    } else if h.rotation == 2 {
      a, g := g, a;
    } else if h.rotation == 3 {
      a, b := b, a;
    }
  }

  /** Texel (i, j) before the rotation: the secondary index if any and the
      four interpolations between the endpoints of its subset. */
  method BlendTexel(bit: BitReader, h: Header, numPartitions: nat, sets: seq<seq<int>>, ghost t: seq<seq<int>>,
                    endpoints: seq<seq<nat>>, indices: seq<seq<nat>>, i: nat, j: nat)
    returns (u: Texel)
    requires h.mode < 8 && Consults(t, numPartitions, sets) && Partitioned(h.mode, t) && i < 4 && j < 4
    requires Colours(endpoints)
    requires IndexTable(h.mode, indices)
    requires IndexBits2(h.mode) > 0 ==> bit.offset == Index2Start(h.mode, t) + Index2Offset(h.mode, 4 * i + j)
    modifies bit
    ensures IndexBits2(h.mode) > 0 ==> bit.offset == Index2Start(h.mode, t) + Index2Offset(h.mode, 4 * i + j + 1)
    ensures IndexBits2(h.mode) == 0 ==> bit.offset == old(bit.offset)
    ensures u == Unrotated(bit.buffer, h, t, endpoints, indices, 4 * i + j)
  {
    var partitionSet := PartitionEntry(numPartitions, sets, t, i, j);
    var s := SubsetOf(partitionSet);
    assert s == SubsetAt(t, 4 * i + j);
    var index := indices[i][j];
    var index2 := 0;
    if IndexBits2(h.mode) > 0 {
      index2 := ReadIndex2(bit, h.mode, t, 4 * i + j, i, j);
    }
    EndpointPair(endpoints, s);
    u := SelectBlend(h.mode, h.selection, endpoints[s * 2], endpoints[s * 2 + 1], index, index2);
    assert endpoints[s * 2] == endpoints[2 * s] && endpoints[s * 2 + 1] == endpoints[2 * s + 1];
    UnrotatedIs(bit.buffer, h, t, endpoints, indices, i, j, s, index, index2);
  }

  /** The four interpolations of a texel: with one index set (`indexBits2`
      0) both colour and alpha use the primary index; otherwise the
      selection bit says which index the colour uses and which the alpha. */
  method SelectBlend(mode: nat, selection: nat, e0: seq<nat>, e1: seq<nat>, index: nat, index2: nat) returns (u: Texel)
    requires |e0| == 4 && |e1| == 4 && forall c :: 0 <= c < 4 ==> e0[c] < 256 && e1[c] < 256
    requires index < |Weights(IndexBits(mode))| && (IndexBits2(mode) > 0 ==> index2 < |Weights2(mode)|)
    ensures u == Select(mode, selection, e0, e1, index, index2)
  {
    var indexBits2 := if mode == 4 then 3 else if mode == 5 then 2 else 0;
    var weights := Weights(IndexBits(mode));
    var weights2 := Weights(if indexBits2 == 2 then 2 else 3);
    assert indexBits2 == IndexBits2(mode) && weights2 == Weights2(mode);
    if indexBits2 == 0 {
      u := Blend(e0, e1, weights, index, weights, index);
    } else if selection == 0 {
      u := Blend(e0, e1, weights, index, weights2, index2);
    } else {
      u := Blend(e0, e1, weights2, index2, weights, index);
    }
  }

  /** The two endpoints of subset s are colours of four channels. */
  lemma EndpointPair(e: seq<seq<nat>>, s: nat)
    requires Colours(e) && s < 3
    ensures |e[2 * s]| == 4 && |e[2 * s + 1]| == 4
    ensures forall c :: 0 <= c < 4 ==> e[2 * s][c] < 256 && e[2 * s + 1][c] < 256
  {
  }

  /** Texel (i, j) before rotation, from its subset and its two indices. */
  lemma UnrotatedIs(buffer: seq<Byte>, h: Header, t: seq<seq<int>>, e: seq<seq<nat>>, indices: seq<seq<nat>>,
                    i: nat, j: nat, s: nat, index: nat, index2: nat)
    requires h.mode < 8 && Partitioned(h.mode, t) && Colours(e) && IndexTable(h.mode, indices) && i < 4 && j < 4
    requires s == SubsetAt(t, 4 * i + j) && index == indices[i][j]
    requires index2 == if IndexBits2(h.mode) > 0 then SecondaryIndex(buffer, h.mode, t, 4 * i + j) else 0
    ensures s < Subsets(h.mode)
    ensures Unrotated(buffer, h, t, e, indices, 4 * i + j) == Select(h.mode, h.selection, e[2 * s], e[2 * s + 1], index, index2)
  {
    TexelNumber(0, 0, 0, i, j);
  }

  /** One secondary index: `i | j ? indexBits2 : indexBits2 - 1` bits. */
  method ReadIndex2(bit: BitReader, mode: nat, ghost t: seq<seq<int>>, k: nat, i: nat, j: nat) returns (v: nat)
    requires mode < 8 && Shaped(t) && IndexBits2(mode) > 0 && i < 4 && j < 4 && k == 4 * i + j
    requires bit.offset == Index2Start(mode, t) + Index2Offset(mode, k)
    modifies bit
    ensures bit.offset == Index2Start(mode, t) + Index2Offset(mode, k + 1)
    ensures v == SecondaryIndex(bit.buffer, mode, t, k)
  {
    var indexBits2 := if mode == 4 then 3 else 2;
    v := bit.GetUint(if i == 0 && j == 0 then indexBits2 - 1 else indexBits2);
  }

  /** Pass 2: every texel decoded and stored, in reading order. */
  method WriteTexels(bit: BitReader, x: int, y: int, width: int, image: array<Byte>, h: Header, numPartitions: nat,
                     sets: seq<seq<int>>, ghost t: seq<seq<int>>, endpoints: seq<seq<nat>>, indices: seq<seq<nat>>)
    requires h.mode < 8 && Consults(t, numPartitions, sets) && Partitioned(h.mode, t) && Colours(endpoints)
    requires IndexTable(h.mode, indices)
    requires bit.offset == Index2Start(h.mode, t)
    modifies bit, image
    ensures image[..] == Tile(old(image[..]), x, y, width, BlockTexels(bit.buffer, h, t, endpoints, indices))
  {
    ghost var texels := BlockTexels(bit.buffer, h, t, endpoints, indices);
    ghost var before := image[..];
    for i := 0 to 4
      invariant IndexBits2(h.mode) > 0 ==> bit.offset == Index2Start(h.mode, t) + Index2Offset(h.mode, 4 * i)
      invariant image[..] == PaintTile(before, x, y, width, texels, 4 * i)
    {
      WriteTexelRow(bit, x, y, width, image, h, numPartitions, sets, t, endpoints, indices, texels, before, i);
    }
  }

  /** Row i of pass 2. */
  method WriteTexelRow(bit: BitReader, x: int, y: int, width: int, image: array<Byte>, h: Header, numPartitions: nat,
                       sets: seq<seq<int>>, ghost t: seq<seq<int>>, endpoints: seq<seq<nat>>, indices: seq<seq<nat>>,
                       ghost texels: seq<Texel>, ghost before: seq<Byte>, i: nat)
    requires h.mode < 8 && Consults(t, numPartitions, sets) && Partitioned(h.mode, t) && Colours(endpoints) && i < 4
    requires IndexTable(h.mode, indices) && texels == BlockTexels(bit.buffer, h, t, endpoints, indices)
    requires IndexBits2(h.mode) > 0 ==> bit.offset == Index2Start(h.mode, t) + Index2Offset(h.mode, 4 * i)
    requires image[..] == PaintTile(before, x, y, width, texels, 4 * i)
    modifies bit, image
    ensures IndexBits2(h.mode) > 0 ==> bit.offset == Index2Start(h.mode, t) + Index2Offset(h.mode, 4 * i + 4)
    ensures image[..] == PaintTile(before, x, y, width, texels, 4 * i + 4)
  {
    for j := 0 to 4
      invariant IndexBits2(h.mode) > 0 ==> bit.offset == Index2Start(h.mode, t) + Index2Offset(h.mode, 4 * i + j)
      invariant image[..] == PaintTile(before, x, y, width, texels, 4 * i + j)
    {
      WriteTexel(bit, x, y, width, image, h, numPartitions, sets, t, endpoints, indices, texels, before, i, j);
    }
  }

  /** Texel (i, j) of pass 2: decoded, then stored in the image. */
  method WriteTexel(bit: BitReader, x: int, y: int, width: int, image: array<Byte>, h: Header, numPartitions: nat,
                    sets: seq<seq<int>>, ghost t: seq<seq<int>>, endpoints: seq<seq<nat>>, indices: seq<seq<nat>>,
                    ghost texels: seq<Texel>, ghost before: seq<Byte>, i: nat, j: nat)
    requires h.mode < 8 && Consults(t, numPartitions, sets) && Partitioned(h.mode, t) && Colours(endpoints) && i < 4 && j < 4
    requires IndexTable(h.mode, indices) && texels == BlockTexels(bit.buffer, h, t, endpoints, indices)
    requires IndexBits2(h.mode) > 0 ==> bit.offset == Index2Start(h.mode, t) + Index2Offset(h.mode, 4 * i + j)
    requires image[..] == PaintTile(before, x, y, width, texels, 4 * i + j)
    modifies bit, image
    ensures IndexBits2(h.mode) > 0 ==> bit.offset == Index2Start(h.mode, t) + Index2Offset(h.mode, 4 * i + j + 1)
    ensures image[..] == PaintTile(before, x, y, width, texels, 4 * i + j + 1)
  {
    var r, g, b, a := DecodeTexel(bit, h, numPartitions, sets, t, endpoints, indices, i, j);
    assert texels[4 * i + j] == Texel(r, g, b, a);
    PaintStep(before, x, y, width, texels, i, j);
    WriteImage(image, x, y, width, j, i, r, g, b, a);
  }

  /** "Unexpected mode, clear the block": 16 transparent black texels. */
  method ClearTile(x: int, y: int, width: int, image: array<Byte>)
    modifies image
    ensures image[..] == Tile(old(image[..]), x, y, width, seq(16, _ => TRANSPARENT_BLACK))
  {
    ghost var texels: seq<Texel> := seq(16, _ => TRANSPARENT_BLACK);
    ghost var before := image[..];
    for i := 0 to 4
      invariant image[..] == PaintTile(before, x, y, width, texels, 4 * i)
    {
      ClearRow(x, y, width, image, texels, before, i);
    }
  }

  /** Row i of the cleared tile. */
  method ClearRow(x: int, y: int, width: int, image: array<Byte>, ghost texels: seq<Texel>, ghost before: seq<Byte>, i: nat)
    requires texels == seq(16, _ => TRANSPARENT_BLACK) && i < 4
    requires image[..] == PaintTile(before, x, y, width, texels, 4 * i)
    modifies image
    ensures image[..] == PaintTile(before, x, y, width, texels, 4 * i + 4)
  {
    for j := 0 to 4
      invariant image[..] == PaintTile(before, x, y, width, texels, 4 * i + j)
    {
      assert texels[4 * i + j] == TRANSPARENT_BLACK;
      PaintStep(before, x, y, width, texels, i, j);
      WriteImage(image, x, y, width, j, i, 0, 0, 0, 0);
    }
  }

  /** `BC7.decompressBlock(x, y, width, range, image)`. */
  method DecompressBlock(x: int, y: int, width: int, range: BufferRange, image: array<Byte>)
    modifies image
    ensures image[..] == BlockImage(old(image[..]), x, y, width, range.GetUint8Array(0, BLOCK_SIZE))
  {
    var bit := new BitReader(range.GetUint8Array(0, BLOCK_SIZE));
    var mode := ReadMode(bit);
    if mode >= 8 {
      ClearTile(x, y, width, image);
      return;
    }
    DecodeTexels(bit, mode, x, y, width, image);
  }

  /** The block after its mode bits: header, endpoints, both index passes.
      The partition table is looked up once rather than per texel. */
  method DecodeTexels(bit: BitReader, mode: nat, x: int, y: int, width: int, image: array<Byte>)
    requires mode < 8 && mode == ModeOf(bit.buffer) && bit.offset == ModeBits(mode)
    modifies bit, image
    ensures image[..] == BlockImage(old(image[..]), x, y, width, bit.buffer)
  {
    var numPartitions, partition, rotation, indexSelectionBit := ReadHeader(bit, mode);
    var h := Header(mode, partition, rotation, indexSelectionBit);
    var sets: seq<seq<int>> := [];
    if numPartitions > 1 {
      sets := PartitionSet(numPartitions, partition);
    }
    ghost var t := PartitionTable(mode, partition);
    PartitionTablePartitions(mode, partition);
    var endpoints := ReadColours(bit, mode, numPartitions * 2);
    var indices := ReadIndices(bit, mode, numPartitions, sets, t);
    PrimaryIndicesTable(bit.buffer, mode, t);
    WriteTexels(bit, x, y, width, image, h, numPartitions, sets, t, endpoints, indices);
  }

  /** The endpoints: read, p-bits applied, expanded to 8 bits. */
  method ReadColours(bit: BitReader, mode: nat, numEndpoints: nat) returns (endpoints: seq<seq<nat>>)
    requires mode < 8 && numEndpoints == EndpointCount(mode) && bit.offset == EndpointStart(mode)
    modifies bit
    ensures bit.offset == IndexStart(mode)
    ensures endpoints == Endpoints(bit.buffer, mode)
  {
    endpoints := ReadEndpoints(bit, mode, numEndpoints);
    endpoints := ApplyPBits(bit, mode, numEndpoints, endpoints);
    endpoints := ExpandEndpoints(bit.buffer, mode, numEndpoints, endpoints);
    assert forall j :: 0 <= j < 6 ==> endpoints[j] == Endpoints(bit.buffer, mode)[j];
  }

  // ----------------------------------------------------------- whole image

  /** Blocks per row (or column): the loop `i < width / 4` runs over the
      real quotient, so a partial block at the edge is decoded too. */
  function BlocksAcross(n: nat): nat
  {
    (n + 3) / 4
  }

  lemma RealLoopBound(i: nat, n: nat)
    ensures (i as real) < (n as real) / 4.0 <==> i < BlocksAcross(n)
  {
    assert (i as real) < (n as real) / 4.0 <==> ((4 * i) as real) < (n as real);
  }

  /** The 16 bytes of block b (fewer, or none, past the end of the data). */
  function BlockBytes(blocks: seq<Byte>, b: nat): seq<Byte>
  {
    ClampedSlice(blocks, BLOCK_SIZE * b, BLOCK_SIZE * b + BLOCK_SIZE)
  }

  /** The decoded texels of block b of the data. */
  function BlockTexelsOf(blocks: seq<Byte>, b: nat): (r: seq<Texel>)
    ensures |r| == 16
  {
    DecodeBlock(BlockBytes(blocks, b))
  }

  /** Block b's texels, as a function of b. */
  function TileOf(blocks: seq<Byte>): nat -> seq<Texel>
  {
    (b: nat) => BlockTexelsOf(blocks, b)
  }

  lemma TileOfBlock(blocks: seq<Byte>)
    ensures forall b {:trigger BlockTexelsOf(blocks, b)} :: TileOf(blocks)(b) == BlockTexelsOf(blocks, b)
  {
  }

  /** The image once blocks 0 to i - 1 of block row j, blocks `first` on
      in the data, have been painted with the texels `tileOf` gives them. */
  function RowImage(image: seq<Byte>, width: nat, tileOf: nat -> seq<Texel>, first: nat, j: nat, i: nat): (r: seq<Byte>)
    ensures |r| == |image|
  {
    if i == 0 then image
    else Tile(RowImage(image, width, tileOf, first, j, i - 1), 4 * (i - 1), 4 * j, width, tileOf(first + (i - 1)))
  }

  /** Painting block i of the row extends the row by one block. */
  lemma RowImageStep(image: seq<Byte>, width: nat, tileOf: nat -> seq<Texel>, first: nat, j: nat, i: nat, after: seq<Byte>)
    requires after == Tile(RowImage(image, width, tileOf, first, j, i), i * 4, j * 4, width, tileOf(first + i))
    ensures after == RowImage(image, width, tileOf, first, j, i + 1)
  {
  }

  /** The image once block rows 0 to j - 1 have been painted. */
  function RowsImage(width: nat, height: nat, tileOf: nat -> seq<Texel>, j: nat): (r: seq<Byte>)
    ensures |r| == width * height * 4
  {
    if j == 0 then seq(width * height * 4, _ => 0)
    else
      var across := BlocksAcross(width);
      RowImage(RowsImage(width, height, tileOf, j - 1), width, tileOf, (j - 1) * across, j - 1, across)
  }

  /** What `BC7.decompress(width, height, blocks)` returns: block b painted
      at block row b / BlocksAcross(width), column b % BlocksAcross(width). */
  function DecodedImage(width: nat, height: nat, blocks: seq<Byte>): (r: seq<Byte>)
    ensures |r| == width * height * 4
  {
    RowsImage(width, height, TileOf(blocks), BlocksAcross(height))
  }

  /** The block that paints pixel (X, Y), numbering blocks row by row. */
  function PixelBlock(width: nat, X: nat, Y: nat): nat
  {
    (Y / 4) * (width / 4) + X / 4
  }

  /** The texel of its block that pixel (X, Y) shows: blocks are stored
      transposed, texel 4 * column + row. */
  function PixelTexel(X: nat, Y: nat): (k: nat)
    ensures k < 16
  {
    4 * (X % 4) + Y % 4
  }

  /** Where channel c of pixel (X, Y) sits in an RGBA image `width` pixels wide. */
  function PixelIndex(width: nat, X: nat, Y: nat, c: nat): nat
  {
    4 * (Y * width + X) + c
  }

  /** Byte p is channel c of pixel (X, Y) in an image `width` pixels wide. */
  predicate PixelByte(p: nat, width: nat, X: nat, Y: nat, c: nat)
  {
    X < width && c < 4 && p == PixelIndex(width, X, Y, c)
  }

  /** The pixel (X, Y) is painted by the tile at (4i, 4j) exactly when
      X / 4 == i and Y / 4 == j, and then with texel 4 * (X % 4) + Y % 4, the
      transposed position; any other pixel keeps its bytes. */
  lemma TileAt(image: seq<Byte>, i: nat, j: nat, width: nat, texels: seq<Texel>, p: nat, X: nat, Y: nat, c: nat)
    requires |texels| == 16 && 4 * i + 4 <= width && PixelByte(p, width, X, Y, c) && p < |image|
    ensures Tile(image, 4 * i, 4 * j, width, texels)[p] ==
      if Y / 4 == j && X / 4 == i then Channel(texels[PixelTexel(X, Y)], c) else image[p]
  {
    var P := Y * width + X;
    DivModUnique(p, 4, P, c);
    if Y / 4 == j && X / 4 == i {
      var k := PixelTexel(X, Y);
      DivModUnique(k, 4, X % 4, Y % 4);
      assert 4 * j + Y % 4 == Y && 4 * i + X % 4 == X;
      assert TilePosition(4 * i, 4 * j, width, k) == P;
      TileStoresTexel(image, 4 * i, 4 * j, width, texels, k, c);
    } else {
      forall k | 0 <= k < |texels|
        ensures p / 4 != TilePosition(4 * i, 4 * j, width, k)
      {
        if P == TilePosition(4 * i, 4 * j, width, k) {
          TileCovers(width, i, j, k, X, Y);
          assert false;
        }
      }
      TileWritesOwnPixels(image, 4 * i, 4 * j, width, texels);
    }
  }

  /** A pixel that texel k of the tile at (4i, 4j) is stored to lies in that
      tile. */
  lemma TileCovers(width: nat, i: nat, j: nat, k: nat, X: nat, Y: nat)
    requires 4 * i + 4 <= width && k < 16 && X < width
    requires Y * width + X == TilePosition(4 * i, 4 * j, width, k)
    ensures Y / 4 == j && X / 4 == i
  {
    PixelUnique(width, Y, X, 4 * j + k % 4, 4 * i + k / 4);
    DivModUnique(Y, 4, j, k % 4);
    DivModUnique(X, 4, i, k / 4);
  }

  /** Row and column of a pixel are determined by its index. */
  lemma PixelUnique(width: nat, Y: int, X: int, Y': int, X': int)
    requires 0 <= X < width && 0 <= X' < width && Y * width + X == Y' * width + X'
    ensures Y == Y' && X == X'
  {
    DivModUnique(Y * width + X, width, Y, X);
    DivModUnique(Y' * width + X', width, Y', X');
  }

  /** After the first i blocks of block row j are painted, a pixel in that
      row of blocks and in one of its first i block columns holds its texel
      of block `first + X / 4`; every other pixel keeps its bytes. */
  lemma {:induction false} RowImageAt(image: seq<Byte>, width: nat, tileOf: nat -> seq<Texel>, first: nat, j: nat, i: nat,
                                      p: nat, X: nat, Y: nat, c: nat)
    requires 4 * i <= width && PixelByte(p, width, X, Y, c) && p < |image|
    requires forall b {:trigger tileOf(b)} :: |tileOf(b)| == 16
    ensures RowImage(image, width, tileOf, first, j, i)[p] ==
      if Y / 4 == j && X / 4 < i then Channel(tileOf(first + X / 4)[PixelTexel(X, Y)], c) else image[p]
  {
    if i > 0 {
      var before := RowImage(image, width, tileOf, first, j, i - 1);
      assert RowImage(image, width, tileOf, first, j, i) == Tile(before, 4 * (i - 1), 4 * j, width, tileOf(first + (i - 1)));
      RowImageAt(image, width, tileOf, first, j, i - 1, p, X, Y, c);
      TileAt(before, i - 1, j, width, tileOf(first + (i - 1)), p, X, Y, c);
    }
  }

  /** In an image whose width is a multiple of 4, the pixel's block lies in
      block row j = Y / 4, at column X / 4 of that row. */
  lemma PixelBlockInRow(width: nat, X: nat, Y: nat, j: nat)
    requires width % 4 == 0 && X < width && Y / 4 == j
    ensures X / 4 < BlocksAcross(width) && 4 * BlocksAcross(width) == width
    ensures PixelBlock(width, X, Y) == j * BlocksAcross(width) + X / 4
  {
    assert BlocksAcross(width) == width / 4;
  }

  /** Block row j - 1 is painted over block rows 0 to j - 2. */
  lemma RowsImageUnfold(width: nat, height: nat, tileOf: nat -> seq<Texel>, j: nat)
    requires j > 0
    ensures 0 <= (j - 1) * BlocksAcross(width)
    ensures RowsImage(width, height, tileOf, j) ==
      RowImage(RowsImage(width, height, tileOf, j - 1), width, tileOf, (j - 1) * BlocksAcross(width), j - 1, BlocksAcross(width))
  {
  }

  /** Painting block row j - 1 gives each pixel of that row its texel. */
  lemma RowsImageStepIn(width: nat, height: nat, tileOf: nat -> seq<Texel>, j: nat, p: nat, X: nat, Y: nat, c: nat)
    requires j > 0 && Y / 4 == j - 1 && width % 4 == 0 && PixelByte(p, width, X, Y, c) && p < width * height * 4
    requires forall b {:trigger tileOf(b)} :: |tileOf(b)| == 16
    ensures RowsImage(width, height, tileOf, j)[p] == Channel(tileOf(PixelBlock(width, X, Y))[PixelTexel(X, Y)], c)
  {
    PixelBlockInRow(width, X, Y, j - 1);
    RowsImageUnfold(width, height, tileOf, j);
    RowImageAt(RowsImage(width, height, tileOf, j - 1), width, tileOf, (j - 1) * BlocksAcross(width), j - 1, BlocksAcross(width), p, X, Y, c);
  }

  /** Painting block row j - 1 leaves the pixels of every other row alone. */
  lemma RowsImageStepOut(width: nat, height: nat, tileOf: nat -> seq<Texel>, j: nat, p: nat, X: nat, Y: nat, c: nat)
    requires j > 0 && Y / 4 != j - 1 && width % 4 == 0 && PixelByte(p, width, X, Y, c) && p < width * height * 4
    requires forall b {:trigger tileOf(b)} :: |tileOf(b)| == 16
    ensures RowsImage(width, height, tileOf, j)[p] == RowsImage(width, height, tileOf, j - 1)[p]
  {
    PixelBlockInRow(width, X, Y, Y / 4);
    RowsImageUnfold(width, height, tileOf, j);
    RowImageAt(RowsImage(width, height, tileOf, j - 1), width, tileOf, (j - 1) * BlocksAcross(width), j - 1, BlocksAcross(width), p, X, Y, c);
  }

  /** After block rows 0 to j - 1 are painted, a pixel in one of those rows
      holds its texel of block (Y / 4) * (width / 4) + X / 4, and every
      other byte is still 0. */
  lemma {:induction false} RowsImageAt(width: nat, height: nat, tileOf: nat -> seq<Texel>, j: nat, p: nat, X: nat, Y: nat, c: nat)
    requires width % 4 == 0 && PixelByte(p, width, X, Y, c) && p < width * height * 4
    requires forall b {:trigger tileOf(b)} :: |tileOf(b)| == 16
    ensures RowsImage(width, height, tileOf, j)[p] ==
      if Y / 4 < j then Channel(tileOf(PixelBlock(width, X, Y))[PixelTexel(X, Y)], c) else 0
  {
    if j > 0 {
      RowsImageAt(width, height, tileOf, j - 1, p, X, Y, c);
      if Y / 4 == j - 1 {
        RowsImageStepIn(width, height, tileOf, j, p, X, Y, c);
      } else {
        RowsImageStepOut(width, height, tileOf, j, p, X, Y, c);
      }
    }
  }

  /** Byte c of pixel (X, Y) lies inside a width * height RGBA image. */
  lemma PixelInImage(width: nat, height: nat, X: nat, Y: nat, c: nat)
    requires X < width && Y < height && c < 4
    ensures PixelIndex(width, X, Y, c) < width * height * 4
  {
    MulMonotone(width, Y + 1, height);
  }

  /** When both dimensions are multiples of 4, byte c of pixel (X, Y) of the
      decoded image is channel c of texel 4 * (X % 4) + Y % 4 of block
      (Y / 4) * (width / 4) + X / 4: blocks tile the image in row-major
      order, and each block's texels land transposed. */
  lemma DecodedImageAt(width: nat, height: nat, blocks: seq<Byte>, X: nat, Y: nat, c: nat)
    requires width % 4 == 0 && height % 4 == 0 && X < width && Y < height && c < 4
    ensures PixelIndex(width, X, Y, c) < |DecodedImage(width, height, blocks)|
    ensures DecodedImage(width, height, blocks)[PixelIndex(width, X, Y, c)] ==
      Channel(BlockTexelsOf(blocks, PixelBlock(width, X, Y))[PixelTexel(X, Y)], c)
  {
    var p := PixelIndex(width, X, Y, c);
    PixelInImage(width, height, X, Y, c);
    TileOfBlock(blocks);
    RowsImageAt(width, height, TileOf(blocks), BlocksAcross(height), p, X, Y, c);
  }

  /** `BC7.decompress`. */
  method Decompress(width: nat, height: nat, blocks: seq<Byte>) returns (image: array<Byte>)
    ensures fresh(image)
    ensures image[..] == DecodedImage(width, height, blocks)
  {
    ghost var tileOf := TileOf(blocks);
    var blockCountX: real := (width as real) / 4.0;
    var blockCountY: real := (height as real) / 4.0;
    image := new Byte[width * height * 4](_ => 0);
    var range := new BufferRange(blocks, None, None, true);
    var j: nat := 0;
    ghost var first: nat := 0;
    RealLoopBound(j, height);
    while (j as real) < blockCountY
      invariant j <= BlocksAcross(height)
      invariant ((j as real) < blockCountY) == (j < BlocksAcross(height))
      invariant first == j * BlocksAcross(width)
      invariant range.buffer == blocks && range.begin == BLOCK_SIZE * first
      invariant image[..] == RowsImage(width, height, tileOf, j)
      decreases BlocksAcross(height) - j
    {
      TileOfBlock(blocks);
      range := DecompressRow(width, blocks, tileOf, blockCountX, j, first, range, image);
      NextRowStart(j, BlocksAcross(width), first);
      first := first + BlocksAcross(width);
      j := j + 1;
      RealLoopBound(j, height);
    }
  }

  /** Block row j + 1 starts one row of blocks after row j. */
  lemma NextRowStart(j: nat, across: nat, first: nat)
    requires first == j * across
    ensures first + across == (j + 1) * across
  {
  }

  /** Block row j: `for (let i = 0; i < blockCountX; i++)`, each block
      decoded from the window and the window moved on by one block. */
  method DecompressRow(width: nat, blocks: seq<Byte>, ghost tileOf: nat -> seq<Texel>, blockCountX: real, j: nat,
                       ghost first: nat, range0: BufferRange, image: array<Byte>)
    returns (range: BufferRange)
    requires forall b {:trigger BlockTexelsOf(blocks, b)} :: tileOf(b) == BlockTexelsOf(blocks, b)
    requires blockCountX == (width as real) / 4.0
    requires range0.buffer == blocks && range0.begin == BLOCK_SIZE * first
    modifies image
    ensures range.buffer == blocks && range.begin == BLOCK_SIZE * (first + BlocksAcross(width))
    ensures image[..] == RowImage(old(image[..]), width, tileOf, first, j, BlocksAcross(width))
  {
    ghost var before := image[..];
    range := range0;
    var i: nat := 0;
    RealLoopBound(i, width);
    while (i as real) < blockCountX
      invariant i <= BlocksAcross(width)
      invariant ((i as real) < blockCountX) == (i < BlocksAcross(width))
      invariant range.buffer == blocks && range.begin == BLOCK_SIZE * (first + i)
      invariant image[..] == RowImage(before, width, tileOf, first, j, i)
      decreases BlocksAcross(width) - i
    {
      range := DecompressStep(width, blocks, tileOf, i, j, first, range, image, before);
      i := i + 1;
      RealLoopBound(i, width);
    }
  }

  /** One turn of the row loop: block first + i painted, the window moved
      on by `BLOCK_SIZE`. */
  method DecompressStep(width: nat, blocks: seq<Byte>, ghost tileOf: nat -> seq<Texel>, i: nat, j: nat, ghost first: nat,
                        range: BufferRange, image: array<Byte>, ghost before: seq<Byte>)
    returns (next: BufferRange)
    requires forall b {:trigger BlockTexelsOf(blocks, b)} :: tileOf(b) == BlockTexelsOf(blocks, b)
    requires range.buffer == blocks && range.begin == BLOCK_SIZE * (first + i)
    requires image[..] == RowImage(before, width, tileOf, first, j, i)
    modifies image
    ensures next.buffer == blocks && next.begin == BLOCK_SIZE * (first + i + 1)
    ensures image[..] == RowImage(before, width, tileOf, first, j, i + 1)
  {
    DecompressOne(width, blocks, tileOf, i, j, first, range, image);
    RowImageStep(before, width, tileOf, first, j, i, image[..]);
    next := range.Slice(BLOCK_SIZE, None);
  }

  /** Block first + i, painted at block column i of block row j. */
  method DecompressOne(width: nat, blocks: seq<Byte>, ghost tileOf: nat -> seq<Texel>, i: nat, j: nat, ghost first: nat,
                       range: BufferRange, image: array<Byte>)
    requires forall b {:trigger BlockTexelsOf(blocks, b)} :: tileOf(b) == BlockTexelsOf(blocks, b)
    requires range.buffer == blocks && range.begin == BLOCK_SIZE * (first + i)
    modifies image
    ensures image[..] == Tile(old(image[..]), i * 4, j * 4, width, tileOf(first + i))
  {
    assert range.GetUint8Array(0, BLOCK_SIZE) == BlockBytes(blocks, first + i);
    assert tileOf(first + i) == BlockTexelsOf(blocks, first + i);
    DecompressBlock(i * 4, j * 4, width, range, image);
  }

  /** `BC7.size`: the byte count the texture loader reserves for a mip
      level, as a real since the divisions are not rounded. */
  function Size(width: nat, height: nat): (r: real)
  {
    var w := (if width < 4 then 4 else width) as real / 4.0;
    var h := (if height < 4 then 4 else height) as real / 4.0;
    w * h * (BLOCK_SIZE as real)
  }

  /** For dimensions that are whole numbers of blocks (a dimension below 4
      counting as one block), `BC7.size` is exactly the data `decompress`
      reads: 16 bytes per block. */
  lemma SizeIsBlockData(width: nat, height: nat)
    requires (width < 4 || width % 4 == 0) && (height < 4 || height % 4 == 0) && width > 0 && height > 0
    ensures Size(width, height) == (BLOCK_SIZE * BlocksAcross(width) * BlocksAcross(height)) as real
  {
    var bw := BlocksAcross(width);
    var bh := BlocksAcross(height);
    assert (if width < 4 then 4 else width) == 4 * bw;
    assert (if height < 4 then 4 else height) == 4 * bh;
    assert ((4 * bw) as real / 4.0) * ((4 * bh) as real / 4.0) * 16.0 == (16 * bw * bh) as real;
  }
}
