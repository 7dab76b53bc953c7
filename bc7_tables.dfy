/** The fixed tables of the BC7 (BPTC) block decoder: the partition shapes
    for two- and three-subset modes and the interpolation weights. Each
    partition entry is a texel's subset number, with bit 0x80 set on the one
    anchor ("fix-up") texel of each subset, whose index is stored with one bit
    less. Tables are indexed [i][j], i being the outer loop of the decoder. */
module Bc7Tables {
  import opened Bytes

  const WEIGHTS2: seq<nat> := [0, 21, 43, 64]
  const WEIGHTS3: seq<nat> := [0, 9, 18, 27, 37, 46, 55, 64]
  const WEIGHTS4: seq<nat> := [0, 4, 9, 13, 17, 21, 26, 30, 34, 38, 43, 47, 51, 55, 60, 64]

  /** The weight table for an index of `bits` bits, as the decoder selects
      it: 2 and 3 bits get their own tables, anything else the 4-bit one. */
  function Weights(bits: nat): (w: seq<nat>)
    ensures bits == 2 ==> |w| == 4
    ensures bits == 3 ==> |w| == 8
    ensures bits != 2 && bits != 3 ==> |w| == 16
    ensures |w| >= 4 && w[0] == 0 && w[|w| - 1] == 64
    ensures forall k :: 0 <= k < |w| ==> w[k] <= 64
  {
    if bits == 2 then WEIGHTS2 else if bits == 3 then WEIGHTS3 else WEIGHTS4
  }

  /** The weights increase strictly, so distinct indices blend differently. */
  lemma WeightsIncrease(bits: nat)
    ensures forall k :: 0 < k < |Weights(bits)| ==> Weights(bits)[k - 1] < Weights(bits)[k]
  {
  }

  /** A 4 x 4 table. */
  predicate Shaped(t: seq<seq<int>>)
  {
    |t| == 4 && forall i :: 0 <= i < 4 ==> |t[i]| == 4
  }

  /** Partition table `partition` for two subsets. */
  function TwoSubsetPartition(partition: nat): (t: seq<seq<int>>)
    requires partition < 64
  {
    match partition
    case 0 => [[128, 0, 1, 1], [0, 0, 1, 1], [0, 0, 1, 1], [0, 0, 1, 129]]
    case 1 => [[128, 0, 0, 1], [0, 0, 0, 1], [0, 0, 0, 1], [0, 0, 0, 129]]
    case 2 => [[128, 1, 1, 1], [0, 1, 1, 1], [0, 1, 1, 1], [0, 1, 1, 129]]
    case 3 => [[128, 0, 0, 1], [0, 0, 1, 1], [0, 0, 1, 1], [0, 1, 1, 129]]
    case 4 => [[128, 0, 0, 0], [0, 0, 0, 1], [0, 0, 0, 1], [0, 0, 1, 129]]
    case 5 => [[128, 0, 1, 1], [0, 1, 1, 1], [0, 1, 1, 1], [1, 1, 1, 129]]
    case 6 => [[128, 0, 0, 1], [0, 0, 1, 1], [0, 1, 1, 1], [1, 1, 1, 129]]
    case 7 => [[128, 0, 0, 0], [0, 0, 0, 1], [0, 0, 1, 1], [0, 1, 1, 129]]
    case 8 => [[128, 0, 0, 0], [0, 0, 0, 0], [0, 0, 0, 1], [0, 0, 1, 129]]
    case 9 => [[128, 0, 1, 1], [0, 1, 1, 1], [1, 1, 1, 1], [1, 1, 1, 129]]
    case 10 => [[128, 0, 0, 0], [0, 0, 0, 1], [0, 1, 1, 1], [1, 1, 1, 129]]
    case 11 => [[128, 0, 0, 0], [0, 0, 0, 0], [0, 0, 0, 1], [0, 1, 1, 129]]
    case 12 => [[128, 0, 0, 1], [0, 1, 1, 1], [1, 1, 1, 1], [1, 1, 1, 129]]
    case 13 => [[128, 0, 0, 0], [0, 0, 0, 0], [1, 1, 1, 1], [1, 1, 1, 129]]
    case 14 => [[128, 0, 0, 0], [1, 1, 1, 1], [1, 1, 1, 1], [1, 1, 1, 129]]
    case 15 => [[128, 0, 0, 0], [0, 0, 0, 0], [0, 0, 0, 0], [1, 1, 1, 129]]
    case 16 => [[128, 0, 0, 0], [1, 0, 0, 0], [1, 1, 1, 0], [1, 1, 1, 129]]
    case 17 => [[128, 1, 129, 1], [0, 0, 0, 1], [0, 0, 0, 0], [0, 0, 0, 0]]
    case 18 => [[128, 0, 0, 0], [0, 0, 0, 0], [129, 0, 0, 0], [1, 1, 1, 0]]
    case 19 => [[128, 1, 129, 1], [0, 0, 1, 1], [0, 0, 0, 1], [0, 0, 0, 0]]
    case 20 => [[128, 0, 129, 1], [0, 0, 0, 1], [0, 0, 0, 0], [0, 0, 0, 0]]
    case 21 => [[128, 0, 0, 0], [1, 0, 0, 0], [129, 1, 0, 0], [1, 1, 1, 0]]
    case 22 => [[128, 0, 0, 0], [0, 0, 0, 0], [129, 0, 0, 0], [1, 1, 0, 0]]
    case 23 => [[128, 1, 1, 1], [0, 0, 1, 1], [0, 0, 1, 1], [0, 0, 0, 129]]
    case 24 => [[128, 0, 129, 1], [0, 0, 0, 1], [0, 0, 0, 1], [0, 0, 0, 0]]
    case 25 => [[128, 0, 0, 0], [1, 0, 0, 0], [129, 0, 0, 0], [1, 1, 0, 0]]
    case 26 => [[128, 1, 129, 0], [0, 1, 1, 0], [0, 1, 1, 0], [0, 1, 1, 0]]
    case 27 => [[128, 0, 129, 1], [0, 1, 1, 0], [0, 1, 1, 0], [1, 1, 0, 0]]
    case 28 => [[128, 0, 0, 1], [0, 1, 1, 1], [129, 1, 1, 0], [1, 0, 0, 0]]
    case 29 => [[128, 0, 0, 0], [1, 1, 1, 1], [129, 1, 1, 1], [0, 0, 0, 0]]
    case 30 => [[128, 1, 129, 1], [0, 0, 0, 1], [1, 0, 0, 0], [1, 1, 1, 0]]
    case 31 => [[128, 0, 129, 1], [1, 0, 0, 1], [1, 0, 0, 1], [1, 1, 0, 0]]
    case 32 => [[128, 1, 0, 1], [0, 1, 0, 1], [0, 1, 0, 1], [0, 1, 0, 129]]
    case 33 => [[128, 0, 0, 0], [1, 1, 1, 1], [0, 0, 0, 0], [1, 1, 1, 129]]
    case 34 => [[128, 1, 0, 1], [1, 0, 129, 0], [0, 1, 0, 1], [1, 0, 1, 0]]
    case 35 => [[128, 0, 1, 1], [0, 0, 1, 1], [129, 1, 0, 0], [1, 1, 0, 0]]
    case 36 => [[128, 0, 129, 1], [1, 1, 0, 0], [0, 0, 1, 1], [1, 1, 0, 0]]
    case 37 => [[128, 1, 0, 1], [0, 1, 0, 1], [129, 0, 1, 0], [1, 0, 1, 0]]
    case 38 => [[128, 1, 1, 0], [1, 0, 0, 1], [0, 1, 1, 0], [1, 0, 0, 129]]
    case 39 => [[128, 1, 0, 1], [1, 0, 1, 0], [1, 0, 1, 0], [0, 1, 0, 129]]
    case 40 => [[128, 1, 129, 1], [0, 0, 1, 1], [1, 1, 0, 0], [1, 1, 1, 0]]
    case 41 => [[128, 0, 0, 1], [0, 0, 1, 1], [129, 1, 0, 0], [1, 0, 0, 0]]
    case 42 => [[128, 0, 129, 1], [0, 0, 1, 0], [0, 1, 0, 0], [1, 1, 0, 0]]
    case 43 => [[128, 0, 129, 1], [1, 0, 1, 1], [1, 1, 0, 1], [1, 1, 0, 0]]
    case 44 => [[128, 1, 129, 0], [1, 0, 0, 1], [1, 0, 0, 1], [0, 1, 1, 0]]
    case 45 => [[128, 0, 1, 1], [1, 1, 0, 0], [1, 1, 0, 0], [0, 0, 1, 129]]
    case 46 => [[128, 1, 1, 0], [0, 1, 1, 0], [1, 0, 0, 1], [1, 0, 0, 129]]
    case 47 => [[128, 0, 0, 0], [0, 1, 129, 0], [0, 1, 1, 0], [0, 0, 0, 0]]
    case 48 => [[128, 1, 0, 0], [1, 1, 129, 0], [0, 1, 0, 0], [0, 0, 0, 0]]
    case 49 => [[128, 0, 129, 0], [0, 1, 1, 1], [0, 0, 1, 0], [0, 0, 0, 0]]
    case 50 => [[128, 0, 0, 0], [0, 0, 129, 0], [0, 1, 1, 1], [0, 0, 1, 0]]
    case 51 => [[128, 0, 0, 0], [0, 1, 0, 0], [129, 1, 1, 0], [0, 1, 0, 0]]
    case 52 => [[128, 1, 1, 0], [1, 1, 0, 0], [1, 0, 0, 1], [0, 0, 1, 129]]
    case 53 => [[128, 0, 1, 1], [0, 1, 1, 0], [1, 1, 0, 0], [1, 0, 0, 129]]
    case 54 => [[128, 1, 129, 0], [0, 0, 1, 1], [1, 0, 0, 1], [1, 1, 0, 0]]
    case 55 => [[128, 0, 129, 1], [1, 0, 0, 1], [1, 1, 0, 0], [0, 1, 1, 0]]
    case 56 => [[128, 1, 1, 0], [1, 1, 0, 0], [1, 1, 0, 0], [1, 0, 0, 129]]
    case 57 => [[128, 1, 1, 0], [0, 0, 1, 1], [0, 0, 1, 1], [1, 0, 0, 129]]
    case 58 => [[128, 1, 1, 1], [1, 1, 1, 0], [1, 0, 0, 0], [0, 0, 0, 129]]
    case 59 => [[128, 0, 0, 1], [1, 0, 0, 0], [1, 1, 1, 0], [0, 1, 1, 129]]
    case 60 => [[128, 0, 0, 0], [1, 1, 1, 1], [0, 0, 1, 1], [0, 0, 1, 129]]
    case 61 => [[128, 0, 129, 1], [0, 0, 1, 1], [1, 1, 1, 1], [0, 0, 0, 0]]
    case 62 => [[128, 0, 129, 0], [0, 0, 1, 0], [1, 1, 1, 0], [1, 1, 1, 0]]
    case _ => [[128, 1, 0, 0], [0, 1, 0, 0], [0, 1, 1, 1], [0, 1, 1, 129]]
  }

  /** Partition table `partition` for three subsets. */
  function ThreeSubsetPartition(partition: nat): (t: seq<seq<int>>)
    requires partition < 64
  {
    match partition
    case 0 => [[128, 0, 1, 129], [0, 0, 1, 1], [0, 2, 2, 1], [2, 2, 2, 130]]
    case 1 => [[128, 0, 0, 129], [0, 0, 1, 1], [130, 2, 1, 1], [2, 2, 2, 1]]
    case 2 => [[128, 0, 0, 0], [2, 0, 0, 1], [130, 2, 1, 1], [2, 2, 1, 129]]
    case 3 => [[128, 2, 2, 130], [0, 0, 2, 2], [0, 0, 1, 1], [0, 1, 1, 129]]
    case 4 => [[128, 0, 0, 0], [0, 0, 0, 0], [129, 1, 2, 2], [1, 1, 2, 130]]
    case 5 => [[128, 0, 1, 129], [0, 0, 1, 1], [0, 0, 2, 2], [0, 0, 2, 130]]
    case 6 => [[128, 0, 2, 130], [0, 0, 2, 2], [1, 1, 1, 1], [1, 1, 1, 129]]
    case 7 => [[128, 0, 1, 1], [0, 0, 1, 1], [130, 2, 1, 1], [2, 2, 1, 129]]
    case 8 => [[128, 0, 0, 0], [0, 0, 0, 0], [129, 1, 1, 1], [2, 2, 2, 130]]
    case 9 => [[128, 0, 0, 0], [1, 1, 1, 1], [129, 1, 1, 1], [2, 2, 2, 130]]
    case 10 => [[128, 0, 0, 0], [1, 1, 129, 1], [2, 2, 2, 2], [2, 2, 2, 130]]
    case 11 => [[128, 0, 1, 2], [0, 0, 129, 2], [0, 0, 1, 2], [0, 0, 1, 130]]
    case 12 => [[128, 1, 1, 2], [0, 1, 129, 2], [0, 1, 1, 2], [0, 1, 1, 130]]
    case 13 => [[128, 1, 2, 2], [0, 129, 2, 2], [0, 1, 2, 2], [0, 1, 2, 130]]
    case 14 => [[128, 0, 1, 129], [0, 1, 1, 2], [1, 1, 2, 2], [1, 2, 2, 130]]
    case 15 => [[128, 0, 1, 129], [2, 0, 0, 1], [130, 2, 0, 0], [2, 2, 2, 0]]
    case 16 => [[128, 0, 0, 129], [0, 0, 1, 1], [0, 1, 1, 2], [1, 1, 2, 130]]
    case 17 => [[128, 1, 1, 129], [0, 0, 1, 1], [130, 0, 0, 1], [2, 2, 0, 0]]
    case 18 => [[128, 0, 0, 0], [1, 1, 2, 2], [129, 1, 2, 2], [1, 1, 2, 130]]
    case 19 => [[128, 0, 2, 130], [0, 0, 2, 2], [0, 0, 2, 2], [1, 1, 1, 129]]
    case 20 => [[128, 1, 1, 129], [0, 1, 1, 1], [0, 2, 2, 2], [0, 2, 2, 130]]
    case 21 => [[128, 0, 0, 129], [0, 0, 0, 1], [130, 2, 2, 1], [2, 2, 2, 1]]
    case 22 => [[128, 0, 0, 0], [0, 0, 129, 1], [0, 1, 2, 2], [0, 1, 2, 130]]
    case 23 => [[128, 0, 0, 0], [1, 1, 0, 0], [130, 2, 129, 0], [2, 2, 1, 0]]
    case 24 => [[128, 1, 2, 130], [0, 129, 2, 2], [0, 0, 1, 1], [0, 0, 0, 0]]
    case 25 => [[128, 0, 1, 2], [0, 0, 1, 2], [129, 1, 2, 2], [2, 2, 2, 130]]
    case 26 => [[128, 1, 1, 0], [1, 2, 130, 1], [129, 2, 2, 1], [0, 1, 1, 0]]
    case 27 => [[128, 0, 0, 0], [0, 1, 129, 0], [1, 2, 130, 1], [1, 2, 2, 1]]
    case 28 => [[128, 0, 2, 2], [1, 1, 0, 2], [129, 1, 0, 2], [0, 0, 2, 130]]
    case 29 => [[128, 1, 1, 0], [0, 129, 1, 0], [2, 0, 0, 2], [2, 2, 2, 130]]
    case 30 => [[128, 0, 1, 1], [0, 1, 2, 2], [0, 1, 130, 2], [0, 0, 1, 129]]
    case 31 => [[128, 0, 0, 0], [2, 0, 0, 0], [130, 2, 1, 1], [2, 2, 2, 129]]
    case 32 => [[128, 0, 0, 0], [0, 0, 0, 2], [129, 1, 2, 2], [1, 2, 2, 130]]
    case 33 => [[128, 2, 2, 130], [0, 0, 2, 2], [0, 0, 1, 2], [0, 0, 1, 129]]
    case 34 => [[128, 0, 1, 129], [0, 0, 1, 2], [0, 0, 2, 2], [0, 2, 2, 130]]
    case 35 => [[128, 1, 2, 0], [0, 129, 2, 0], [0, 1, 130, 0], [0, 1, 2, 0]]
    case 36 => [[128, 0, 0, 0], [1, 1, 129, 1], [2, 2, 130, 2], [0, 0, 0, 0]]
    case 37 => [[128, 1, 2, 0], [1, 2, 0, 1], [130, 0, 129, 2], [0, 1, 2, 0]]
    case 38 => [[128, 1, 2, 0], [2, 0, 1, 2], [129, 130, 0, 1], [0, 1, 2, 0]]
    case 39 => [[128, 0, 1, 1], [2, 2, 0, 0], [1, 1, 130, 2], [0, 0, 1, 129]]
    case 40 => [[128, 0, 1, 1], [1, 1, 130, 2], [2, 2, 0, 0], [0, 0, 1, 129]]
    case 41 => [[128, 1, 0, 129], [0, 1, 0, 1], [2, 2, 2, 2], [2, 2, 2, 130]]
    case 42 => [[128, 0, 0, 0], [0, 0, 0, 0], [130, 1, 2, 1], [2, 1, 2, 129]]
    case 43 => [[128, 0, 2, 2], [1, 129, 2, 2], [0, 0, 2, 2], [1, 1, 2, 130]]
    case 44 => [[128, 0, 2, 130], [0, 0, 1, 1], [0, 0, 2, 2], [0, 0, 1, 129]]
    case 45 => [[128, 2, 2, 0], [1, 2, 130, 1], [0, 2, 2, 0], [1, 2, 2, 129]]
    case 46 => [[128, 1, 0, 1], [2, 2, 130, 2], [2, 2, 2, 2], [0, 1, 0, 129]]
    case 47 => [[128, 0, 0, 0], [2, 1, 2, 1], [130, 1, 2, 1], [2, 1, 2, 129]]
    case 48 => [[128, 1, 0, 129], [0, 1, 0, 1], [0, 1, 0, 1], [2, 2, 2, 130]]
    case 49 => [[128, 2, 2, 130], [0, 1, 1, 1], [0, 2, 2, 2], [0, 1, 1, 129]]
    case 50 => [[128, 0, 0, 2], [1, 129, 1, 2], [0, 0, 0, 2], [1, 1, 1, 130]]
    case 51 => [[128, 0, 0, 0], [2, 129, 1, 2], [2, 1, 1, 2], [2, 1, 1, 130]]
    case 52 => [[128, 2, 2, 2], [0, 129, 1, 1], [0, 1, 1, 1], [0, 2, 2, 130]]
    case 53 => [[128, 0, 0, 2], [1, 1, 1, 2], [129, 1, 1, 2], [0, 0, 0, 130]]
    case 54 => [[128, 1, 1, 0], [0, 129, 1, 0], [0, 1, 1, 0], [2, 2, 2, 130]]
    case 55 => [[128, 0, 0, 0], [0, 0, 0, 0], [2, 1, 129, 2], [2, 1, 1, 130]]
    case 56 => [[128, 1, 1, 0], [0, 129, 1, 0], [2, 2, 2, 2], [2, 2, 2, 130]]
    case 57 => [[128, 0, 2, 2], [0, 0, 1, 1], [0, 0, 129, 1], [0, 0, 2, 130]]
    case 58 => [[128, 0, 2, 2], [1, 1, 2, 2], [129, 1, 2, 2], [0, 0, 2, 130]]
    case 59 => [[128, 0, 0, 0], [0, 0, 0, 0], [0, 0, 0, 0], [2, 129, 1, 130]]
    case 60 => [[128, 0, 0, 130], [0, 0, 0, 1], [0, 0, 0, 2], [0, 0, 0, 129]]
    case 61 => [[128, 2, 2, 2], [1, 2, 2, 2], [0, 2, 2, 2], [129, 2, 2, 130]]
    case 62 => [[128, 1, 0, 129], [2, 2, 2, 2], [2, 2, 2, 2], [2, 2, 2, 130]]
    case _ => [[128, 1, 1, 129], [2, 0, 1, 1], [130, 2, 0, 1], [2, 2, 2, 0]]
  }

  /** `partition_sets[subsets - 2][partition]`. */
  function PartitionSet(subsets: nat, partition: nat): (t: seq<seq<int>>)
    requires 2 <= subsets <= 3 && partition < 64
  {
    if subsets == 2 then TwoSubsetPartition(partition) else ThreeSubsetPartition(partition)
  }

  /** `x & 0x80`: the entry marks its subset's anchor texel. */
  predicate IsAnchor(x: int)
  {
    Field(x, 7, 1) == 1
  }

  /** `x & 0x03`: the entry's subset. */
  function SubsetOf(x: int): (r: nat)
    ensures r < 4
  {
    Pow2Low();
    Field(x, 0, 2)
  }

  // ------------------------------------------------------- well-formedness

  function Flag(x: int, v: int): nat
  {
    if x == v then 1 else 0
  }

  function RowCount(row: seq<int>, v: int): nat
    requires |row| == 4
  {
    Flag(row[0], v) + Flag(row[1], v) + Flag(row[2], v) + Flag(row[3], v)
  }

  /** How many entries of the table are v. */
  function Count(t: seq<seq<int>>, v: int): nat
    requires Shaped(t)
  {
    RowCount(t[0], v) + RowCount(t[1], v) + RowCount(t[2], v) + RowCount(t[3], v)
  }

  /** A subset number below n, plain or flagged. */
  predicate Entry(x: int, n: nat)
  {
    0 <= x < n || 0x80 <= x < 0x80 + n
  }

  predicate RowEntries(row: seq<int>, n: nat)
    requires |row| == 4
  {
    Entry(row[0], n) && Entry(row[1], n) && Entry(row[2], n) && Entry(row[3], n)
  }

  /** Every entry names one of the n subsets, texel (0, 0) is the anchor of
      subset 0, and each subset has exactly one flagged anchor. */
  predicate WellFormed(t: seq<seq<int>>, n: nat)
  {
    Shaped(t) && 2 <= n <= 3 &&
    t[0][0] == 0x80 &&
    RowEntries(t[0], n) && RowEntries(t[1], n) && RowEntries(t[2], n) && RowEntries(t[3], n) &&
    Count(t, 0x80) == 1 && Count(t, 0x81) == 1 && (n == 3 ==> Count(t, 0x82) == 1)
  }

  /** The fields the decoder extracts from a well-formed entry: `x & 0x03`
      is the subset number and `x & 0x80` is set exactly on anchors. */
  lemma EntryFields(x: int, n: nat)
    requires Entry(x, n) && n <= 3
    ensures SubsetOf(x) == x % 0x80 && SubsetOf(x) < n
    ensures IsAnchor(x) <==> x >= 0x80
  {
    Pow2Table();
    if x >= 0x80 {
      DivModUnique(x, 4, 32, x - 0x80);
      DivModUnique(x, 0x80, 1, x - 0x80);
    } else {
      DivModUnique(x, 4, 0, x);
      DivModUnique(x, 0x80, 0, x);
    }
  }

  /** Every entry of a well-formed table is a subset number below n. */
  lemma WellFormedEntries(t: seq<seq<int>>, n: nat)
    requires WellFormed(t, n)
    ensures forall i, j :: 0 <= i < 4 && 0 <= j < 4 ==> Entry(t[i][j], n)
  {
    forall i, j | 0 <= i < 4 && 0 <= j < 4 ensures Entry(t[i][j], n) {
      assert RowEntries(t[i], n) by {
        if i == 0 {} else if i == 1 {} else if i == 2 {} else {}
      }
    }
  }

  /** Number of anchor-flagged entries among the first k in reading order
      (entry m is t[m / 4][m % 4]). */
  function AnchorsIn(t: seq<seq<int>>, k: nat): (r: nat)
    requires Shaped(t) && k <= 16
    ensures r <= k
  {
    if k == 0 then 0 else AnchorsIn(t, k - 1) + Field(t[(k - 1) / 4][(k - 1) % 4], 7, 1)
  }

  /** The 0x80 bit of an entry, counted through the flags of the anchor values. */
  lemma AnchorBit(x: int, n: nat)
    requires Entry(x, n) && 2 <= n <= 3
    ensures Field(x, 7, 1) == Flag(x, 0x80) + Flag(x, 0x81) + (if n == 3 then Flag(x, 0x82) else 0)
  {
    EntryFields(x, n);
    Pow2Table();
  }

  function RowAnchors(row: seq<int>, n: nat): nat
    requires |row| == 4
  {
    RowCount(row, 0x80) + RowCount(row, 0x81) + (if n == 3 then RowCount(row, 0x82) else 0)
  }

  /** The 0x80 bits of one row. */
  function RowBits(row: seq<int>): nat
    requires |row| == 4
  {
    Field(row[0], 7, 1) + Field(row[1], 7, 1) + Field(row[2], 7, 1) + Field(row[3], 7, 1)
  }

  lemma RowAnchorBits(row: seq<int>, n: nat)
    requires |row| == 4 && 2 <= n <= 3 && RowEntries(row, n)
    ensures RowBits(row) == RowAnchors(row, n)
  {
    AnchorBit(row[0], n);
    AnchorBit(row[1], n);
    AnchorBit(row[2], n);
    AnchorBit(row[3], n);
  }

  /** A well-formed table for n subsets flags exactly n texels. */
  lemma AnchorsInTable(t: seq<seq<int>>, n: nat)
    requires WellFormed(t, n)
    ensures AnchorsIn(t, 16) == n
  {
    AnchorsInRows(t);
    RowAnchorBits(t[0], n);
    RowAnchorBits(t[1], n);
    RowAnchorBits(t[2], n);
    RowAnchorBits(t[3], n);
  }

  lemma AnchorsInRows(t: seq<seq<int>>)
    requires Shaped(t)
    ensures AnchorsIn(t, 16) == RowBits(t[0]) + RowBits(t[1]) + RowBits(t[2]) + RowBits(t[3])
  {
    assert AnchorsIn(t, 1) == AnchorsIn(t, 0) + Field(t[0][0], 7, 1);
    assert AnchorsIn(t, 2) == AnchorsIn(t, 1) + Field(t[0][1], 7, 1);
    assert AnchorsIn(t, 3) == AnchorsIn(t, 2) + Field(t[0][2], 7, 1);
    assert AnchorsIn(t, 4) == AnchorsIn(t, 3) + Field(t[0][3], 7, 1);
    assert AnchorsIn(t, 5) == AnchorsIn(t, 4) + Field(t[1][0], 7, 1);
    assert AnchorsIn(t, 6) == AnchorsIn(t, 5) + Field(t[1][1], 7, 1);
    assert AnchorsIn(t, 7) == AnchorsIn(t, 6) + Field(t[1][2], 7, 1);
    assert AnchorsIn(t, 8) == AnchorsIn(t, 7) + Field(t[1][3], 7, 1);
    assert AnchorsIn(t, 9) == AnchorsIn(t, 8) + Field(t[2][0], 7, 1);
    assert AnchorsIn(t, 10) == AnchorsIn(t, 9) + Field(t[2][1], 7, 1);
    assert AnchorsIn(t, 11) == AnchorsIn(t, 10) + Field(t[2][2], 7, 1);
    assert AnchorsIn(t, 12) == AnchorsIn(t, 11) + Field(t[2][3], 7, 1);
    assert AnchorsIn(t, 13) == AnchorsIn(t, 12) + Field(t[3][0], 7, 1);
    assert AnchorsIn(t, 14) == AnchorsIn(t, 13) + Field(t[3][1], 7, 1);
    assert AnchorsIn(t, 15) == AnchorsIn(t, 14) + Field(t[3][2], 7, 1);
    assert AnchorsIn(t, 16) == AnchorsIn(t, 15) + Field(t[3][3], 7, 1);
  }

  lemma TwoSubsetWellFormed0()
    ensures WellFormed(TwoSubsetPartition(0), 2)
  {
  }

  lemma TwoSubsetWellFormed1()
    ensures WellFormed(TwoSubsetPartition(1), 2)
  {
  }

  lemma TwoSubsetWellFormed2()
    ensures WellFormed(TwoSubsetPartition(2), 2)
  {
  }

  lemma TwoSubsetWellFormed3()
    ensures WellFormed(TwoSubsetPartition(3), 2)
  {
  }

  lemma TwoSubsetWellFormed4()
    ensures WellFormed(TwoSubsetPartition(4), 2)
  {
  }

  lemma TwoSubsetWellFormed5()
    ensures WellFormed(TwoSubsetPartition(5), 2)
  {
  }

  lemma TwoSubsetWellFormed6()
    ensures WellFormed(TwoSubsetPartition(6), 2)
  {
  }

  lemma TwoSubsetWellFormed7()
    ensures WellFormed(TwoSubsetPartition(7), 2)
  {
  }

  lemma TwoSubsetWellFormed8()
    ensures WellFormed(TwoSubsetPartition(8), 2)
  {
  }

  lemma TwoSubsetWellFormed9()
    ensures WellFormed(TwoSubsetPartition(9), 2)
  {
  }

  lemma TwoSubsetWellFormed10()
    ensures WellFormed(TwoSubsetPartition(10), 2)
  {
  }

  lemma TwoSubsetWellFormed11()
    ensures WellFormed(TwoSubsetPartition(11), 2)
  {
  }

  lemma TwoSubsetWellFormed12()
    ensures WellFormed(TwoSubsetPartition(12), 2)
  {
  }

  lemma TwoSubsetWellFormed13()
    ensures WellFormed(TwoSubsetPartition(13), 2)
  {
  }

  lemma TwoSubsetWellFormed14()
    ensures WellFormed(TwoSubsetPartition(14), 2)
  {
  }

  lemma TwoSubsetWellFormed15()
    ensures WellFormed(TwoSubsetPartition(15), 2)
  {
  }

  lemma TwoSubsetWellFormed16()
    ensures WellFormed(TwoSubsetPartition(16), 2)
  {
  }

  lemma TwoSubsetWellFormed17()
    ensures WellFormed(TwoSubsetPartition(17), 2)
  {
  }

  lemma TwoSubsetWellFormed18()
    ensures WellFormed(TwoSubsetPartition(18), 2)
  {
  }

  lemma TwoSubsetWellFormed19()
    ensures WellFormed(TwoSubsetPartition(19), 2)
  {
  }

  lemma TwoSubsetWellFormed20()
    ensures WellFormed(TwoSubsetPartition(20), 2)
  {
  }

  lemma TwoSubsetWellFormed21()
    ensures WellFormed(TwoSubsetPartition(21), 2)
  {
  }

  lemma TwoSubsetWellFormed22()
    ensures WellFormed(TwoSubsetPartition(22), 2)
  {
  }

  lemma TwoSubsetWellFormed23()
    ensures WellFormed(TwoSubsetPartition(23), 2)
  {
  }

  lemma TwoSubsetWellFormed24()
    ensures WellFormed(TwoSubsetPartition(24), 2)
  {
  }

  lemma TwoSubsetWellFormed25()
    ensures WellFormed(TwoSubsetPartition(25), 2)
  {
  }

  lemma TwoSubsetWellFormed26()
    ensures WellFormed(TwoSubsetPartition(26), 2)
  {
  }

  lemma TwoSubsetWellFormed27()
    ensures WellFormed(TwoSubsetPartition(27), 2)
  {
  }

  lemma TwoSubsetWellFormed28()
    ensures WellFormed(TwoSubsetPartition(28), 2)
  {
  }

  lemma TwoSubsetWellFormed29()
    ensures WellFormed(TwoSubsetPartition(29), 2)
  {
  }

  lemma TwoSubsetWellFormed30()
    ensures WellFormed(TwoSubsetPartition(30), 2)
  {
  }

  lemma TwoSubsetWellFormed31()
    ensures WellFormed(TwoSubsetPartition(31), 2)
  {
  }

  lemma TwoSubsetWellFormed32()
    ensures WellFormed(TwoSubsetPartition(32), 2)
  {
  }

  lemma TwoSubsetWellFormed33()
    ensures WellFormed(TwoSubsetPartition(33), 2)
  {
  }

  lemma TwoSubsetWellFormed34()
    ensures WellFormed(TwoSubsetPartition(34), 2)
  {
  }

  lemma TwoSubsetWellFormed35()
    ensures WellFormed(TwoSubsetPartition(35), 2)
  {
  }

  lemma TwoSubsetWellFormed36()
    ensures WellFormed(TwoSubsetPartition(36), 2)
  {
  }

  lemma TwoSubsetWellFormed37()
    ensures WellFormed(TwoSubsetPartition(37), 2)
  {
  }

  lemma TwoSubsetWellFormed38()
    ensures WellFormed(TwoSubsetPartition(38), 2)
  {
  }

  lemma TwoSubsetWellFormed39()
    ensures WellFormed(TwoSubsetPartition(39), 2)
  {
  }

  lemma TwoSubsetWellFormed40()
    ensures WellFormed(TwoSubsetPartition(40), 2)
  {
  }

  lemma TwoSubsetWellFormed41()
    ensures WellFormed(TwoSubsetPartition(41), 2)
  {
  }

  lemma TwoSubsetWellFormed42()
    ensures WellFormed(TwoSubsetPartition(42), 2)
  {
  }

  lemma TwoSubsetWellFormed43()
    ensures WellFormed(TwoSubsetPartition(43), 2)
  {
  }

  lemma TwoSubsetWellFormed44()
    ensures WellFormed(TwoSubsetPartition(44), 2)
  {
  }

  lemma TwoSubsetWellFormed45()
    ensures WellFormed(TwoSubsetPartition(45), 2)
  {
  }

  lemma TwoSubsetWellFormed46()
    ensures WellFormed(TwoSubsetPartition(46), 2)
  {
  }

  lemma TwoSubsetWellFormed47()
    ensures WellFormed(TwoSubsetPartition(47), 2)
  {
  }

  lemma TwoSubsetWellFormed48()
    ensures WellFormed(TwoSubsetPartition(48), 2)
  {
  }

  lemma TwoSubsetWellFormed49()
    ensures WellFormed(TwoSubsetPartition(49), 2)
  {
  }

  lemma TwoSubsetWellFormed50()
    ensures WellFormed(TwoSubsetPartition(50), 2)
  {
  }

  lemma TwoSubsetWellFormed51()
    ensures WellFormed(TwoSubsetPartition(51), 2)
  {
  }

  lemma TwoSubsetWellFormed52()
    ensures WellFormed(TwoSubsetPartition(52), 2)
  {
  }

  lemma TwoSubsetWellFormed53()
    ensures WellFormed(TwoSubsetPartition(53), 2)
  {
  }

  lemma TwoSubsetWellFormed54()
    ensures WellFormed(TwoSubsetPartition(54), 2)
  {
  }

  lemma TwoSubsetWellFormed55()
    ensures WellFormed(TwoSubsetPartition(55), 2)
  {
  }

  lemma TwoSubsetWellFormed56()
    ensures WellFormed(TwoSubsetPartition(56), 2)
  {
  }

  lemma TwoSubsetWellFormed57()
    ensures WellFormed(TwoSubsetPartition(57), 2)
  {
  }

  lemma TwoSubsetWellFormed58()
    ensures WellFormed(TwoSubsetPartition(58), 2)
  {
  }

  lemma TwoSubsetWellFormed59()
    ensures WellFormed(TwoSubsetPartition(59), 2)
  {
  }

  lemma TwoSubsetWellFormed60()
    ensures WellFormed(TwoSubsetPartition(60), 2)
  {
  }

  lemma TwoSubsetWellFormed61()
    ensures WellFormed(TwoSubsetPartition(61), 2)
  {
  }

  lemma TwoSubsetWellFormed62()
    ensures WellFormed(TwoSubsetPartition(62), 2)
  {
  }

  lemma TwoSubsetWellFormed63()
    ensures WellFormed(TwoSubsetPartition(63), 2)
  {
  }

  lemma ThreeSubsetWellFormed0()
    ensures WellFormed(ThreeSubsetPartition(0), 3)
  {
  }

  lemma ThreeSubsetWellFormed1()
    ensures WellFormed(ThreeSubsetPartition(1), 3)
  {
  }

  lemma ThreeSubsetWellFormed2()
    ensures WellFormed(ThreeSubsetPartition(2), 3)
  {
  }

  lemma ThreeSubsetWellFormed3()
    ensures WellFormed(ThreeSubsetPartition(3), 3)
  {
  }

  lemma ThreeSubsetWellFormed4()
    ensures WellFormed(ThreeSubsetPartition(4), 3)
  {
  }

  lemma ThreeSubsetWellFormed5()
    ensures WellFormed(ThreeSubsetPartition(5), 3)
  {
  }

  lemma ThreeSubsetWellFormed6()
    ensures WellFormed(ThreeSubsetPartition(6), 3)
  {
  }

  lemma ThreeSubsetWellFormed7()
    ensures WellFormed(ThreeSubsetPartition(7), 3)
  {
  }

  lemma ThreeSubsetWellFormed8()
    ensures WellFormed(ThreeSubsetPartition(8), 3)
  {
  }

  lemma ThreeSubsetWellFormed9()
    ensures WellFormed(ThreeSubsetPartition(9), 3)
  {
  }

  lemma ThreeSubsetWellFormed10()
    ensures WellFormed(ThreeSubsetPartition(10), 3)
  {
  }

  lemma ThreeSubsetWellFormed11()
    ensures WellFormed(ThreeSubsetPartition(11), 3)
  {
  }

  lemma ThreeSubsetWellFormed12()
    ensures WellFormed(ThreeSubsetPartition(12), 3)
  {
  }

  lemma ThreeSubsetWellFormed13()
    ensures WellFormed(ThreeSubsetPartition(13), 3)
  {
  }

  lemma ThreeSubsetWellFormed14()
    ensures WellFormed(ThreeSubsetPartition(14), 3)
  {
  }

  lemma ThreeSubsetWellFormed15()
    ensures WellFormed(ThreeSubsetPartition(15), 3)
  {
  }

  lemma ThreeSubsetWellFormed16()
    ensures WellFormed(ThreeSubsetPartition(16), 3)
  {
  }

  lemma ThreeSubsetWellFormed17()
    ensures WellFormed(ThreeSubsetPartition(17), 3)
  {
  }

  lemma ThreeSubsetWellFormed18()
    ensures WellFormed(ThreeSubsetPartition(18), 3)
  {
  }

  lemma ThreeSubsetWellFormed19()
    ensures WellFormed(ThreeSubsetPartition(19), 3)
  {
  }

  lemma ThreeSubsetWellFormed20()
    ensures WellFormed(ThreeSubsetPartition(20), 3)
  {
  }

  lemma ThreeSubsetWellFormed21()
    ensures WellFormed(ThreeSubsetPartition(21), 3)
  {
  }

  lemma ThreeSubsetWellFormed22()
    ensures WellFormed(ThreeSubsetPartition(22), 3)
  {
  }

  lemma ThreeSubsetWellFormed23()
    ensures WellFormed(ThreeSubsetPartition(23), 3)
  {
  }

  lemma ThreeSubsetWellFormed24()
    ensures WellFormed(ThreeSubsetPartition(24), 3)
  {
  }

  lemma ThreeSubsetWellFormed25()
    ensures WellFormed(ThreeSubsetPartition(25), 3)
  {
  }

  lemma ThreeSubsetWellFormed26()
    ensures WellFormed(ThreeSubsetPartition(26), 3)
  {
  }

  lemma ThreeSubsetWellFormed27()
    ensures WellFormed(ThreeSubsetPartition(27), 3)
  {
  }

  lemma ThreeSubsetWellFormed28()
    ensures WellFormed(ThreeSubsetPartition(28), 3)
  {
  }

  lemma ThreeSubsetWellFormed29()
    ensures WellFormed(ThreeSubsetPartition(29), 3)
  {
  }

  lemma ThreeSubsetWellFormed30()
    ensures WellFormed(ThreeSubsetPartition(30), 3)
  {
  }

  lemma ThreeSubsetWellFormed31()
    ensures WellFormed(ThreeSubsetPartition(31), 3)
  {
  }

  lemma ThreeSubsetWellFormed32()
    ensures WellFormed(ThreeSubsetPartition(32), 3)
  {
  }

  lemma ThreeSubsetWellFormed33()
    ensures WellFormed(ThreeSubsetPartition(33), 3)
  {
  }

  lemma ThreeSubsetWellFormed34()
    ensures WellFormed(ThreeSubsetPartition(34), 3)
  {
  }

  lemma ThreeSubsetWellFormed35()
    ensures WellFormed(ThreeSubsetPartition(35), 3)
  {
  }

  lemma ThreeSubsetWellFormed36()
    ensures WellFormed(ThreeSubsetPartition(36), 3)
  {
  }

  lemma ThreeSubsetWellFormed37()
    ensures WellFormed(ThreeSubsetPartition(37), 3)
  {
  }

  lemma ThreeSubsetWellFormed38()
    ensures WellFormed(ThreeSubsetPartition(38), 3)
  {
  }

  lemma ThreeSubsetWellFormed39()
    ensures WellFormed(ThreeSubsetPartition(39), 3)
  {
  }

  lemma ThreeSubsetWellFormed40()
    ensures WellFormed(ThreeSubsetPartition(40), 3)
  {
  }

  lemma ThreeSubsetWellFormed41()
    ensures WellFormed(ThreeSubsetPartition(41), 3)
  {
  }

  lemma ThreeSubsetWellFormed42()
    ensures WellFormed(ThreeSubsetPartition(42), 3)
  {
  }

  lemma ThreeSubsetWellFormed43()
    ensures WellFormed(ThreeSubsetPartition(43), 3)
  {
  }

  lemma ThreeSubsetWellFormed44()
    ensures WellFormed(ThreeSubsetPartition(44), 3)
  {
  }

  lemma ThreeSubsetWellFormed45()
    ensures WellFormed(ThreeSubsetPartition(45), 3)
  {
  }

  lemma ThreeSubsetWellFormed46()
    ensures WellFormed(ThreeSubsetPartition(46), 3)
  {
  }

  lemma ThreeSubsetWellFormed47()
    ensures WellFormed(ThreeSubsetPartition(47), 3)
  {
  }

  lemma ThreeSubsetWellFormed48()
    ensures WellFormed(ThreeSubsetPartition(48), 3)
  {
  }

  lemma ThreeSubsetWellFormed49()
    ensures WellFormed(ThreeSubsetPartition(49), 3)
  {
  }

  lemma ThreeSubsetWellFormed50()
    ensures WellFormed(ThreeSubsetPartition(50), 3)
  {
  }

  lemma ThreeSubsetWellFormed51()
    ensures WellFormed(ThreeSubsetPartition(51), 3)
  {
  }

  lemma ThreeSubsetWellFormed52()
    ensures WellFormed(ThreeSubsetPartition(52), 3)
  {
  }

  lemma ThreeSubsetWellFormed53()
    ensures WellFormed(ThreeSubsetPartition(53), 3)
  {
  }

  lemma ThreeSubsetWellFormed54()
    ensures WellFormed(ThreeSubsetPartition(54), 3)
  {
  }

  lemma ThreeSubsetWellFormed55()
    ensures WellFormed(ThreeSubsetPartition(55), 3)
  {
  }

  lemma ThreeSubsetWellFormed56()
    ensures WellFormed(ThreeSubsetPartition(56), 3)
  {
  }

  lemma ThreeSubsetWellFormed57()
    ensures WellFormed(ThreeSubsetPartition(57), 3)
  {
  }

  lemma ThreeSubsetWellFormed58()
    ensures WellFormed(ThreeSubsetPartition(58), 3)
  {
  }

  lemma ThreeSubsetWellFormed59()
    ensures WellFormed(ThreeSubsetPartition(59), 3)
  {
  }

  lemma ThreeSubsetWellFormed60()
    ensures WellFormed(ThreeSubsetPartition(60), 3)
  {
  }

  lemma ThreeSubsetWellFormed61()
    ensures WellFormed(ThreeSubsetPartition(61), 3)
  {
  }

  lemma ThreeSubsetWellFormed62()
    ensures WellFormed(ThreeSubsetPartition(62), 3)
  {
  }

  lemma ThreeSubsetWellFormed63()
    ensures WellFormed(ThreeSubsetPartition(63), 3)
  {
  }

  /** All 128 partition tables are well formed. */
  lemma PartitionSetsWellFormed(subsets: nat, partition: nat)
    requires 2 <= subsets <= 3 && partition < 64
    ensures WellFormed(PartitionSet(subsets, partition), subsets)
  {
    if subsets == 2 {
      TwoSubsetsWellFormed(partition);
    } else {
      ThreeSubsetsWellFormed(partition);
    }
  }

  lemma TwoSubsetsWellFormed(partition: nat)
    requires partition < 64
    ensures WellFormed(TwoSubsetPartition(partition), 2)
  {
    if partition < 8 {
      TwoSubsetsWellFormed0(partition);
    } else if partition < 16 {
      TwoSubsetsWellFormed1(partition);
    } else if partition < 24 {
      TwoSubsetsWellFormed2(partition);
    } else if partition < 32 {
      TwoSubsetsWellFormed3(partition);
    } else if partition < 40 {
      TwoSubsetsWellFormed4(partition);
    } else if partition < 48 {
      TwoSubsetsWellFormed5(partition);
    } else if partition < 56 {
      TwoSubsetsWellFormed6(partition);
    } else {
      TwoSubsetsWellFormed7(partition);
    }
  }

  lemma TwoSubsetsWellFormed0(partition: nat)
    requires 0 <= partition < 8
    ensures WellFormed(TwoSubsetPartition(partition), 2)
  {
    match partition
    case 0 => TwoSubsetWellFormed0();
    case 1 => TwoSubsetWellFormed1();
    case 2 => TwoSubsetWellFormed2();
    case 3 => TwoSubsetWellFormed3();
    case 4 => TwoSubsetWellFormed4();
    case 5 => TwoSubsetWellFormed5();
    case 6 => TwoSubsetWellFormed6();
    case _ => TwoSubsetWellFormed7();
  }

  lemma TwoSubsetsWellFormed1(partition: nat)
    requires 8 <= partition < 16
    ensures WellFormed(TwoSubsetPartition(partition), 2)
  {
    match partition
    case 8 => TwoSubsetWellFormed8();
    case 9 => TwoSubsetWellFormed9();
    case 10 => TwoSubsetWellFormed10();
    case 11 => TwoSubsetWellFormed11();
    case 12 => TwoSubsetWellFormed12();
    case 13 => TwoSubsetWellFormed13();
    case 14 => TwoSubsetWellFormed14();
    case _ => TwoSubsetWellFormed15();
  }

  lemma TwoSubsetsWellFormed2(partition: nat)
    requires 16 <= partition < 24
    ensures WellFormed(TwoSubsetPartition(partition), 2)
  {
    match partition
    case 16 => TwoSubsetWellFormed16();
    case 17 => TwoSubsetWellFormed17();
    case 18 => TwoSubsetWellFormed18();
    case 19 => TwoSubsetWellFormed19();
    case 20 => TwoSubsetWellFormed20();
    case 21 => TwoSubsetWellFormed21();
    case 22 => TwoSubsetWellFormed22();
    case _ => TwoSubsetWellFormed23();
  }

  lemma TwoSubsetsWellFormed3(partition: nat)
    requires 24 <= partition < 32
    ensures WellFormed(TwoSubsetPartition(partition), 2)
  {
    match partition
    case 24 => TwoSubsetWellFormed24();
    case 25 => TwoSubsetWellFormed25();
    case 26 => TwoSubsetWellFormed26();
    case 27 => TwoSubsetWellFormed27();
    case 28 => TwoSubsetWellFormed28();
    case 29 => TwoSubsetWellFormed29();
    case 30 => TwoSubsetWellFormed30();
    case _ => TwoSubsetWellFormed31();
  }

  lemma TwoSubsetsWellFormed4(partition: nat)
    requires 32 <= partition < 40
    ensures WellFormed(TwoSubsetPartition(partition), 2)
  {
    match partition
    case 32 => TwoSubsetWellFormed32();
    case 33 => TwoSubsetWellFormed33();
    case 34 => TwoSubsetWellFormed34();
    case 35 => TwoSubsetWellFormed35();
    case 36 => TwoSubsetWellFormed36();
    case 37 => TwoSubsetWellFormed37();
    case 38 => TwoSubsetWellFormed38();
    case _ => TwoSubsetWellFormed39();
  }

  lemma TwoSubsetsWellFormed5(partition: nat)
    requires 40 <= partition < 48
    ensures WellFormed(TwoSubsetPartition(partition), 2)
  {
    match partition
    case 40 => TwoSubsetWellFormed40();
    case 41 => TwoSubsetWellFormed41();
    case 42 => TwoSubsetWellFormed42();
    case 43 => TwoSubsetWellFormed43();
    case 44 => TwoSubsetWellFormed44();
    case 45 => TwoSubsetWellFormed45();
    case 46 => TwoSubsetWellFormed46();
    case _ => TwoSubsetWellFormed47();
  }

  lemma TwoSubsetsWellFormed6(partition: nat)
    requires 48 <= partition < 56
    ensures WellFormed(TwoSubsetPartition(partition), 2)
  {
    match partition
    case 48 => TwoSubsetWellFormed48();
    case 49 => TwoSubsetWellFormed49();
    case 50 => TwoSubsetWellFormed50();
    case 51 => TwoSubsetWellFormed51();
    case 52 => TwoSubsetWellFormed52();
    case 53 => TwoSubsetWellFormed53();
    case 54 => TwoSubsetWellFormed54();
    case _ => TwoSubsetWellFormed55();
  }

  lemma TwoSubsetsWellFormed7(partition: nat)
    requires 56 <= partition < 64
    ensures WellFormed(TwoSubsetPartition(partition), 2)
  {
    match partition
    case 56 => TwoSubsetWellFormed56();
    case 57 => TwoSubsetWellFormed57();
    case 58 => TwoSubsetWellFormed58();
    case 59 => TwoSubsetWellFormed59();
    case 60 => TwoSubsetWellFormed60();
    case 61 => TwoSubsetWellFormed61();
    case 62 => TwoSubsetWellFormed62();
    case 63 => TwoSubsetWellFormed63();
    case _ => assert false;
  }

  lemma ThreeSubsetsWellFormed(partition: nat)
    requires partition < 64
    ensures WellFormed(ThreeSubsetPartition(partition), 3)
  {
    if partition < 8 {
      ThreeSubsetsWellFormed0(partition);
    } else if partition < 16 {
      ThreeSubsetsWellFormed1(partition);
    } else if partition < 24 {
      ThreeSubsetsWellFormed2(partition);
    } else if partition < 32 {
      ThreeSubsetsWellFormed3(partition);
    } else if partition < 40 {
      ThreeSubsetsWellFormed4(partition);
    } else if partition < 48 {
      ThreeSubsetsWellFormed5(partition);
    } else if partition < 56 {
      ThreeSubsetsWellFormed6(partition);
    } else {
      ThreeSubsetsWellFormed7(partition);
    }
  }

  lemma ThreeSubsetsWellFormed0(partition: nat)
    requires 0 <= partition < 8
    ensures WellFormed(ThreeSubsetPartition(partition), 3)
  {
    match partition
    case 0 => ThreeSubsetWellFormed0();
    case 1 => ThreeSubsetWellFormed1();
    case 2 => ThreeSubsetWellFormed2();
    case 3 => ThreeSubsetWellFormed3();
    case 4 => ThreeSubsetWellFormed4();
    case 5 => ThreeSubsetWellFormed5();
    case 6 => ThreeSubsetWellFormed6();
    case _ => ThreeSubsetWellFormed7();
  }

  lemma ThreeSubsetsWellFormed1(partition: nat)
    requires 8 <= partition < 16
    ensures WellFormed(ThreeSubsetPartition(partition), 3)
  {
    match partition
    case 8 => ThreeSubsetWellFormed8();
    case 9 => ThreeSubsetWellFormed9();
    case 10 => ThreeSubsetWellFormed10();
    case 11 => ThreeSubsetWellFormed11();
    case 12 => ThreeSubsetWellFormed12();
    case 13 => ThreeSubsetWellFormed13();
    case 14 => ThreeSubsetWellFormed14();
    case _ => ThreeSubsetWellFormed15();
  }

  lemma ThreeSubsetsWellFormed2(partition: nat)
    requires 16 <= partition < 24
    ensures WellFormed(ThreeSubsetPartition(partition), 3)
  {
    match partition
    case 16 => ThreeSubsetWellFormed16();
    case 17 => ThreeSubsetWellFormed17();
    case 18 => ThreeSubsetWellFormed18();
    case 19 => ThreeSubsetWellFormed19();
    case 20 => ThreeSubsetWellFormed20();
    case 21 => ThreeSubsetWellFormed21();
    case 22 => ThreeSubsetWellFormed22();
    case _ => ThreeSubsetWellFormed23();
  }

  lemma ThreeSubsetsWellFormed3(partition: nat)
    requires 24 <= partition < 32
    ensures WellFormed(ThreeSubsetPartition(partition), 3)
  {
    match partition
    case 24 => ThreeSubsetWellFormed24();
    case 25 => ThreeSubsetWellFormed25();
    case 26 => ThreeSubsetWellFormed26();
    case 27 => ThreeSubsetWellFormed27();
    case 28 => ThreeSubsetWellFormed28();
    case 29 => ThreeSubsetWellFormed29();
    case 30 => ThreeSubsetWellFormed30();
    case _ => ThreeSubsetWellFormed31();
  }

  lemma ThreeSubsetsWellFormed4(partition: nat)
    requires 32 <= partition < 40
    ensures WellFormed(ThreeSubsetPartition(partition), 3)
  {
    match partition
    case 32 => ThreeSubsetWellFormed32();
    case 33 => ThreeSubsetWellFormed33();
    case 34 => ThreeSubsetWellFormed34();
    case 35 => ThreeSubsetWellFormed35();
    case 36 => ThreeSubsetWellFormed36();
    case 37 => ThreeSubsetWellFormed37();
    case 38 => ThreeSubsetWellFormed38();
    case _ => ThreeSubsetWellFormed39();
  }

  lemma ThreeSubsetsWellFormed5(partition: nat)
    requires 40 <= partition < 48
    ensures WellFormed(ThreeSubsetPartition(partition), 3)
  {
    match partition
    case 40 => ThreeSubsetWellFormed40();
    case 41 => ThreeSubsetWellFormed41();
    case 42 => ThreeSubsetWellFormed42();
    case 43 => ThreeSubsetWellFormed43();
    case 44 => ThreeSubsetWellFormed44();
    case 45 => ThreeSubsetWellFormed45();
    case 46 => ThreeSubsetWellFormed46();
    case _ => ThreeSubsetWellFormed47();
  }

  lemma ThreeSubsetsWellFormed6(partition: nat)
    requires 48 <= partition < 56
    ensures WellFormed(ThreeSubsetPartition(partition), 3)
  {
    match partition
    case 48 => ThreeSubsetWellFormed48();
    case 49 => ThreeSubsetWellFormed49();
    case 50 => ThreeSubsetWellFormed50();
    case 51 => ThreeSubsetWellFormed51();
    case 52 => ThreeSubsetWellFormed52();
    case 53 => ThreeSubsetWellFormed53();
    case 54 => ThreeSubsetWellFormed54();
    case _ => ThreeSubsetWellFormed55();
  }

  lemma ThreeSubsetsWellFormed7(partition: nat)
    requires 56 <= partition < 64
    ensures WellFormed(ThreeSubsetPartition(partition), 3)
  {
    match partition
    case 56 => ThreeSubsetWellFormed56();
    case 57 => ThreeSubsetWellFormed57();
    case 58 => ThreeSubsetWellFormed58();
    case 59 => ThreeSubsetWellFormed59();
    case 60 => ThreeSubsetWellFormed60();
    case 61 => ThreeSubsetWellFormed61();
    case 62 => ThreeSubsetWellFormed62();
    case 63 => ThreeSubsetWellFormed63();
    case _ => assert false;
  }
}
