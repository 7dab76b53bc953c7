/** Where each field of a BC7 block lies: the mode prefix, the header fields
    of each mode, the endpoint components, the P-bits and the two index
    streams. Positions are bit offsets from the start of the 16-byte block,
    in the order the decoder's bit reader consumes them. */
module Bc7Layout {
  import opened Bytes
  import opened Bc7Bits
  import opened Bc7Tables

  /** `actual_bits_count[0]`: colour bits per endpoint component, by mode. */
  const COLOR_BITS: seq<nat> := [4, 6, 5, 7, 5, 7, 7, 5]
  /** `actual_bits_count[1]`: alpha bits per endpoint, by mode. */
  const ALPHA_BITS: seq<nat> := [0, 0, 0, 0, 6, 8, 7, 5]
  /** `sModeHasPBits`: bit m is set when mode m carries P-bits (0b11001011). */
  const MODE_HAS_PBITS: nat := 203

  // ------------------------------------------------------------------ mode

  /** The mode loop from position m on: it stops at the first set bit, or
      after the eighth bit. */
  function LeadingZeros(buffer: seq<Byte>, m: nat): (r: nat)
    requires m <= 8
    ensures m <= r <= 8
    decreases 8 - m
  {
    if m < 8 && Bit(buffer, m) == 0 then LeadingZeros(buffer, m + 1) else m
  }

  /** The block's mode; 8 stands for "no set bit among the first eight". */
  function ModeOf(buffer: seq<Byte>): (r: nat)
    ensures r <= 8
  {
    LeadingZeros(buffer, 0)
  }

  /** The mode is m exactly when the first m bits are clear and bit m (if
      m < 8) is set. */
  lemma ModeIsFirstSetBit(buffer: seq<Byte>, m: nat)
    requires m <= 8
    ensures ModeOf(buffer) == m <==>
              (forall i :: 0 <= i < m ==> Bit(buffer, i) == 0) && (m < 8 ==> Bit(buffer, m) == 1)
  {
    LeadingZerosAt(buffer, 0, m);
  }

  lemma {:induction false} LeadingZerosAt(buffer: seq<Byte>, s: nat, m: nat)
    requires s <= m <= 8
    ensures LeadingZeros(buffer, s) == m <==>
              (forall i :: s <= i < m ==> Bit(buffer, i) == 0) && (m < 8 ==> Bit(buffer, m) == 1)
    decreases m - s
  {
    if s < m && Bit(buffer, s) == 0 {
      LeadingZerosAt(buffer, s + 1, m);
    }
  }

  /** Bits the mode loop consumes. */
  function ModeBits(mode: nat): nat
  {
    if mode < 8 then mode + 1 else 8
  }

  // ---------------------------------------------------------------- header

  /** Modes with a partition number: 0, 1, 2, 3 and 7. */
  predicate HasPartition(mode: nat)
  {
    mode == 0 || mode == 1 || mode == 2 || mode == 3 || mode == 7
  }

  /** `numPartitions`: 3 for modes 0 and 2, 2 for the other partitioned
      modes, 1 otherwise. */
  function Subsets(mode: nat): (n: nat)
    ensures 1 <= n <= 3
  {
    if HasPartition(mode) then (if mode == 0 || mode == 2 then 3 else 2) else 1
  }

  /** Width of the partition number: 4 bits for mode 0, 6 for the others
      that have one. */
  function PartitionBits(mode: nat): nat
  {
    if HasPartition(mode) then (if mode == 0 then 4 else 6) else 0
  }

  /** Modes with a rotation field: 4 and 5. */
  predicate HasRotation(mode: nat)
  {
    mode == 4 || mode == 5
  }

  function RotationStart(mode: nat): nat
  {
    ModeBits(mode) + PartitionBits(mode)
  }

  /** Start of the endpoints: after the rotation and, in mode 4, the index
      selection bit. */
  function EndpointStart(mode: nat): nat
  {
    RotationStart(mode) + (if HasRotation(mode) then 2 else 0) + (if mode == 4 then 1 else 0)
  }

  datatype Header = Header(mode: nat, partition: nat, rotation: nat, selection: nat)

  /** The fields that follow the mode bits. */
  function HeaderOf(buffer: seq<Byte>, mode: nat): (h: Header)
    requires mode < 8
    ensures h.mode == mode && h.partition < Pow2(PartitionBits(mode))
    ensures h.partition < 64 && h.rotation < 4 && h.selection < 2
    ensures !HasPartition(mode) ==> h.partition == 0
    ensures !HasRotation(mode) ==> h.rotation == 0
    ensures mode != 4 ==> h.selection == 0
  {
    Pow2Low();
    Header(mode,
           if HasPartition(mode) then Uint(buffer, ModeBits(mode), PartitionBits(mode)) else 0,
           if HasRotation(mode) then Uint(buffer, RotationStart(mode), 2) else 0,
           if mode == 4 then Uint(buffer, RotationStart(mode) + 2, 1) else 0)
  }

  // ------------------------------------------------------------- endpoints

  function ColorBits(mode: nat): nat
    requires mode < 8
  {
    COLOR_BITS[mode]
  }

  function AlphaBits(mode: nat): nat
    requires mode < 8
  {
    ALPHA_BITS[mode]
  }

  /** `numEndpoints`: two per subset. */
  function EndpointCount(mode: nat): (n: nat)
    ensures 2 <= n <= 6
  {
    2 * Subsets(mode)
  }

  /** The colour fields are read component-major: all red values, then all
      green, then all blue; field number n = c * count + j. */
  function ColorPos(mode: nat, n: nat): nat
    requires mode < 8
  {
    EndpointStart(mode) + n * ColorBits(mode)
  }

  function AlphaStart(mode: nat): nat
    requires mode < 8
  {
    ColorPos(mode, 3 * EndpointCount(mode))
  }

  function AlphaPos(mode: nat, j: nat): nat
    requires mode < 8
  {
    AlphaStart(mode) + j * AlphaBits(mode)
  }

  function PBitStart(mode: nat): nat
    requires mode < 8
  {
    if AlphaBits(mode) > 0 then AlphaPos(mode, EndpointCount(mode)) else AlphaStart(mode)
  }

  /** Modes whose endpoints are shifted to make room for a P-bit. */
  predicate HasPBits(mode: nat)
  {
    mode == 0 || mode == 1 || mode == 3 || mode == 6 || mode == 7
  }

  /** `(sModeHasPBits >>> mode) & 1`, which is also the test
      `sModeHasPBits & (1 << mode)`. */
  function PBitFlag(mode: nat): (r: nat)
    ensures r < 2
  {
    Pow2Low();
    Field(MODE_HAS_PBITS, mode, 1)
  }

  /** The P-bits read: two shared ones in mode 1, one per endpoint in the
      other P-bit modes. */
  function PBitCount(mode: nat): nat
  {
    if !HasPBits(mode) then 0
    else if mode == 1 then 2
    else if PBitFlag(mode) == 1 then EndpointCount(mode)
    else 0
  }

  function IndexStart(mode: nat): nat
    requires mode < 8
  {
    PBitStart(mode) + PBitCount(mode)
  }

  // --------------------------------------------------------------- indices

  /** `indexBits` before the anchor adjustment. */
  function IndexBits(mode: nat): (r: nat)
    ensures 2 <= r <= 4
  {
    if mode == 0 || mode == 1 then 3 else if mode == 6 then 4 else 2
  }

  /** `indexBits2`: the width of the second index stream (0: none). */
  function IndexBits2(mode: nat): (r: nat)
    ensures r == 0 || r == 2 || r == 3
  {
    if mode == 4 then 3 else if mode == 5 then 2 else 0
  }

  /** The partition table of a one-subset mode: `i | j ? 0 : 128`, the only
      anchor being texel (0, 0). */
  function SingleSubset(): (t: seq<seq<int>>)
  {
    seq(4, i => seq(4, j => if i == 0 && j == 0 then 128 else 0))
  }

  /** The table the decoder consults for each texel. */
  function PartitionTable(mode: nat, partition: nat): (t: seq<seq<int>>)
    requires partition < 64
  {
    if Subsets(mode) == 1 then SingleSubset() else PartitionSet(Subsets(mode), partition)
  }

  /** Every table the decoder consults is well formed for its subset count. */
  lemma PartitionTableWellFormed(mode: nat, partition: nat)
    requires partition < 64
    ensures Shaped(PartitionTable(mode, partition))
    ensures AnchorsIn(PartitionTable(mode, partition), 16) == Subsets(mode)
    ensures IsAnchor(PartitionTable(mode, partition)[0][0])
    ensures forall i, j :: 0 <= i < 4 && 0 <= j < 4 ==>
              SubsetOf(PartitionTable(mode, partition)[i][j]) < Subsets(mode)
  {
    var t := PartitionTable(mode, partition);
    Pow2Table();
    if Subsets(mode) == 1 {
      SingleSubsetShape();
      SingleSubsetAnchors();
    } else {
      PartitionSetsWellFormed(Subsets(mode), partition);
      AnchorsInTable(t, Subsets(mode));
      WellFormedEntries(t, Subsets(mode));
      forall i, j | 0 <= i < 4 && 0 <= j < 4
        ensures SubsetOf(t[i][j]) < Subsets(mode)
      {
        EntryFields(t[i][j], Subsets(mode));
      }
      EntryFields(t[0][0], Subsets(mode));
    }
  }

  lemma SingleSubsetShape()
    ensures Shaped(SingleSubset())
    ensures IsAnchor(SingleSubset()[0][0])
    ensures forall i, j :: 0 <= i < 4 && 0 <= j < 4 ==> SubsetOf(SingleSubset()[i][j]) == 0
  {
    Pow2Table();
    assert Field(0, 7, 1) == 0 && Field(128, 7, 1) == 1;
    assert Field(0, 0, 2) == 0 && Field(128, 0, 2) == 0;
  }

  /** The single-subset table has exactly one anchor, texel 0. */
  lemma SingleSubsetAnchors()
    ensures Shaped(SingleSubset()) && AnchorsIn(SingleSubset(), 16) == 1
  {
    Pow2Table();
    assert Field(0, 7, 1) == 0 && Field(128, 7, 1) == 1;
    AnchorsInRows(SingleSubset());
  }

  lemma PartitionSetsShaped(mode: nat, partition: nat)
    requires partition < 64
    ensures Shaped(PartitionTable(mode, partition))
  {
    PartitionTableWellFormed(mode, partition);
  }

  /** The entry of texel k = 4 * i + j in table t. */
  function EntryAt(t: seq<seq<int>>, k: nat): int
    requires Shaped(t) && k < 16
  {
    t[k / 4][k % 4]
  }

  /** The width of texel k's primary index: one bit less on an anchor. */
  function IndexWidth(mode: nat, t: seq<seq<int>>, k: nat): (r: nat)
    requires Shaped(t) && k < 16
    ensures r < IndexBits(mode) <==> IsAnchor(EntryAt(t, k))
  {
    if IsAnchor(EntryAt(t, k)) then IndexBits(mode) - 1 else IndexBits(mode)
  }

  /** Bits of the primary index stream before texel k's index. */
  function IndexOffset(mode: nat, t: seq<seq<int>>, k: nat): nat
    requires Shaped(t) && k <= 16
  {
    if k == 0 then 0 else IndexOffset(mode, t, k - 1) + IndexWidth(mode, t, k - 1)
  }

  /** One bit is saved on every anchor passed so far. */
  lemma {:induction false} IndexOffsetAnchors(mode: nat, t: seq<seq<int>>, k: nat)
    requires Shaped(t) && k <= 16
    ensures IndexOffset(mode, t, k) == k * IndexBits(mode) - AnchorsIn(t, k)
  {
    if k > 0 {
      IndexOffsetAnchors(mode, t, k - 1);
    }
  }

  /** The primary index stream is 16 indices less one bit per subset. */
  lemma IndexStreamBits(mode: nat, partition: nat)
    requires partition < 64
    ensures Shaped(PartitionTable(mode, partition))
    ensures IndexOffset(mode, PartitionTable(mode, partition), 16) == 16 * IndexBits(mode) - Subsets(mode)
  {
    PartitionTableWellFormed(mode, partition);
    IndexOffsetAnchors(mode, PartitionTable(mode, partition), 16);
  }

  /** Texel 0 is always an anchor: its primary index is one bit short. */
  lemma FirstIndexShort(mode: nat, partition: nat)
    requires partition < 64
    ensures Shaped(PartitionTable(mode, partition))
    ensures IndexWidth(mode, PartitionTable(mode, partition), 0) == IndexBits(mode) - 1
  {
    PartitionTableWellFormed(mode, partition);
  }

  /** Where the secondary index stream starts. */
  function Index2Start(mode: nat, t: seq<seq<int>>): nat
    requires mode < 8 && Shaped(t)
  {
    IndexStart(mode) + IndexOffset(mode, t, 16)
  }

  /** Width of texel k's secondary index: `i | j ? indexBits2 : indexBits2 - 1`. */
  function Index2Width(mode: nat, k: nat): nat
    requires IndexBits2(mode) > 0
  {
    if k == 0 then IndexBits2(mode) - 1 else IndexBits2(mode)
  }

  /** Bits of the secondary stream before texel k's index. */
  function Index2Offset(mode: nat, k: nat): nat
    requires IndexBits2(mode) > 0
  {
    if k == 0 then 0 else Index2Offset(mode, k - 1) + Index2Width(mode, k - 1)
  }

  /** The secondary stream saves one bit, on texel 0. */
  lemma {:induction false} Index2OffsetIs(mode: nat, k: nat)
    requires IndexBits2(mode) > 0 && k > 0
    ensures Index2Offset(mode, k) == k * IndexBits2(mode) - 1
  {
    if k > 1 {
      Index2OffsetIs(mode, k - 1);
    }
  }

  /** Where the decoder's bit reader stops: after the secondary indices, or
      after the primary ones when there are none. */
  function BlockEnd(mode: nat, partition: nat): nat
    requires mode < 8 && partition < 64
  {
    PartitionSetsShaped(mode, partition);
    Index2Start(mode, PartitionTable(mode, partition)) + (if IndexBits2(mode) > 0 then Index2Offset(mode, 16) else 0)
  }

  /** Every mode fills exactly the 128 bits of a block. */
  lemma BlockIs128Bits(mode: nat, partition: nat)
    requires mode < 8 && partition < 64
    ensures BlockEnd(mode, partition) == 128
  {
    IndexStreamBits(mode, partition);
    if IndexBits2(mode) > 0 {
      Index2OffsetIs(mode, 16);
    }
    IndexStartOf(mode);
  }

  /** Where the primary indices start, mode by mode. */
  lemma IndexStartOf(mode: nat)
    requires mode < 8
    ensures IndexStart(mode) == [83, 82, 99, 98, 50, 66, 65, 98][mode]
  {
    if mode < 4 {
      IndexStartLow(mode);
    } else {
      IndexStartHigh(mode);
    }
  }

  /** IndexStartOf for the partitioned modes 0 to 3. */
  lemma IndexStartLow(mode: nat)
    requires mode < 4
    ensures IndexStart(mode) == [83, 82, 99, 98][mode]
  {
    Pow2Table();
    if mode == 0 {
      assert PBitFlag(0) == 1;
    } else if mode == 3 {
      assert PBitFlag(3) == 1;
    }
  }

  /** IndexStartOf for the single-subset modes 4 to 7. */
  lemma IndexStartHigh(mode: nat)
    requires 4 <= mode < 8
    ensures IndexStart(mode) == [50, 66, 65, 98][mode - 4]
  {
    Pow2Table();
    if mode == 6 {
      assert PBitFlag(6) == 1;
    } else if mode == 7 {
      assert PBitFlag(7) == 1;
    }
  }
}
