/** Sony SCREAM sound banks (`.bnk`): a 0x18-byte header, an SBlk section
    holding four tables (sounds, grains, waves, names) at offsets its header
    gives, and the audio data. Every read is little-endian and goes through a
    DataView over the whole file, so each entry is read at an absolute
    position and fails only when it runs past the end of the file. */
module Bnk {
  import opened Wrappers
  import opened Bytes
  import opened Range

  const HEADER_SIZE: int := 0x18
  const GRAIN_SIZE: int := 0x08
  const WAVE_SIZE: int := 0x18
  const SOUND_SIZE: int := 0x0c

  const GRAIN_TYPE_WAVE: int := 0x01
  const GRAIN_TYPE_SILENCE: int := 0x15
  const GRAIN_TYPE_JUMP: int := 0x16
  const GRAIN_TYPE_RANDOMIZE: int := 0x1a
  const GRAIN_TYPE_GROUP: int := 0x22

  /** The most grains `grainsForSound` follows. */
  const MAX_CHAIN: nat := 64

  /** The little-endian 32-bit and 16-bit reads of a default `BufferRange`. */
  function U32(buffer: seq<Byte>, i: int): (r: Result<int, RangeError>)
    ensures r.Success? <==> 0 <= i && i + 4 <= |buffer|
    ensures r.Success? ==> 0 <= r.value < TWO_32
  {
    Uint32At(buffer, i, true)
  }

  function U16(buffer: seq<Byte>, i: int): (r: Result<int, RangeError>)
    ensures r.Success? <==> 0 <= i && i + 2 <= |buffer|
    ensures r.Success? ==> 0 <= r.value < 0x1_0000
  {
    Uint16At(buffer, i, true)
  }

  // ---------------------------------------------------------------- header

  datatype Header = Header(version: int, parts: int, sblkOffset: int, sblkSize: int,
                           dataOffset: int, dataSize: int)

  /** `BnkHeader.load`: six 32-bit words at the start of the file. */
  function LoadHeader(buffer: seq<Byte>): (r: Result<Header, RangeError>)
    ensures r.Success? <==> |buffer| >= HEADER_SIZE
    ensures r.Success? ==> 0 <= r.value.sblkOffset < TWO_32 && 0 <= r.value.dataOffset < TWO_32
    ensures r.Success? ==> r.value.sblkOffset == Le32At(buffer, 8) && r.value.dataOffset == Le32At(buffer, 0x10) && r.value.dataSize == Le32At(buffer, 0x14)
  {
    var version :- U32(buffer, 0x00);
    var parts :- U32(buffer, 0x04);
    var sblkOffset :- U32(buffer, 0x08);
    var sblkSize :- U32(buffer, 0x0c);
    var dataOffset :- U32(buffer, 0x10);
    var dataSize :- U32(buffer, 0x14);
    Success(Header(version, parts, sblkOffset, sblkSize, dataOffset, dataSize))
  }

  // ------------------------------------------------------------------ SBlk

  /** The SBlk header; `begin` is where its range starts in the file, and
      the table offsets are relative to it. */
  datatype SBlk = SBlk(begin: int, version: int,
                       nSounds: int, nGrains: int, nStreams: int,
                       table1Offset: int, table2Offset: int, table3Offset: int, table4Offset: int,
                       spuBaseAddr: int, ramSize: int)
  {
    /** Where `table1Range` .. `table3Range` start in the file. */
    function Table1(): int { begin + table1Offset }
    function Table2(): int { begin + table2Offset }
    function Table3(): int { begin + table3Offset }
  }

  /** The layout families the loader knows. */
  predicate IsV3(version: int) { version in {3, 4, 5, 8, 9} }
  predicate IsVd(version: int) { version == 0x0d || version == 0x0e }

  /** How many bytes from the SBlk start a successful load reads. */
  function SBlkExtent(version: int): (r: nat)
    ensures r >= 8
  {
    if version == 1 then 0x22
    else if IsV3(version) then 0x3c
    else if IsVd(version) then 0x3e
    else 8
  }

  /** `BnkSBlk.load`: the version at +4 selects where the counts and table
      offsets are; version 1 has no table 3 of its own (it is table 2) and
      no table 4, and an unknown version keeps every count and offset 0. */
  function LoadSBlk(buffer: seq<Byte>, begin: int): (r: Result<SBlk, RangeError>)
    ensures r.Success? <==> 0 <= begin + 4 && begin + 8 <= |buffer| &&
                            begin + SBlkExtent(U32(buffer, begin + 4).value) <= |buffer|
    ensures r.Success? ==> r.value.begin == begin && r.value.version == U32(buffer, begin + 4).value
    ensures r.Success? ==> 0 <= r.value.nSounds < 0x1_0000 && 0 <= r.value.nGrains < 0x1_0000
    ensures r.Success? && r.value.version == 1 ==>
              r.value.table3Offset == r.value.table2Offset && r.value.table4Offset == 0 &&
              r.value.spuBaseAddr == 0 && r.value.ramSize == 0
    ensures r.Success? && r.value.version != 1 && !IsV3(r.value.version) && !IsVd(r.value.version) ==>
              r.value == SBlk(begin, r.value.version, 0, 0, 0, 0, 0, 0, 0, 0, 0)
  {
    var version :- U32(buffer, begin + 0x04);
    if version == 1 then
      var nSounds :- U16(buffer, begin + 0x16);
      var nGrains :- U16(buffer, begin + 0x18);
      var nStreams :- U16(buffer, begin + 0x1a);
      var table1 :- U16(buffer, begin + 0x1c);
      var table2 :- U16(buffer, begin + 0x20);
      Success(SBlk(begin, version, nSounds, nGrains, nStreams, table1, table2, table2, 0, 0, 0))
    else if IsV3(version) then
      var nSounds :- U16(buffer, begin + 0x16);
      var nGrains :- U16(buffer, begin + 0x18);
      var nStreams :- U16(buffer, begin + 0x1a);
      var table1 :- U16(buffer, begin + 0x1c);
      var table2 :- U16(buffer, begin + 0x20);
      var spuBaseAddr :- U32(buffer, begin + 0x24);
      var ramSize :- U32(buffer, begin + 0x28);
      var table3 :- U32(buffer, begin + 0x34);
      var table4 :- U32(buffer, begin + 0x38);
      Success(SBlk(begin, version, nSounds, nGrains, nStreams, table1, table2, table3, table4, spuBaseAddr, ramSize))
    else if IsVd(version) then
      var table1 :- U32(buffer, begin + 0x18);
      var table2 :- U32(buffer, begin + 0x1c);
      var table3 :- U32(buffer, begin + 0x2c);
      var table4 :- U32(buffer, begin + 0x30);
      var nSounds :- U16(buffer, begin + 0x38);
      var nGrains :- U16(buffer, begin + 0x3a);
      var nStreams :- U16(buffer, begin + 0x3c);
      Success(SBlk(begin, version, nSounds, nGrains, nStreams, table1, table2, table3, table4, 0, 0))
    else
      Success(SBlk(begin, version, 0, 0, 0, 0, 0, 0, 0, 0, 0))
  }

  // --------------------------------------------------- table entries

  /** A table-2 entry; `begin` is where it starts in the file. */
  datatype Grain = Grain(begin: int, waveOffset: int, grainType: int, extra: int)
  {
    predicate IsWave() { grainType == GRAIN_TYPE_WAVE }
    /** Only RANDOMIZE and GROUP grains continue a sound's grain chain. */
    predicate Chains() { grainType == GRAIN_TYPE_RANDOMIZE || grainType == GRAIN_TYPE_GROUP }
  }

  /** `BnkGrain.load`: the wave offset is the 16-bit word at +0, the type
      the byte at +3, `extra` the word at +4. */
  function LoadGrain(buffer: seq<Byte>, begin: int): (r: Result<Grain, RangeError>)
    ensures r.Success? <==> 0 <= begin && begin + GRAIN_SIZE <= |buffer|
    ensures r.Success? ==> r.value.begin == begin && r.value.grainType == buffer[begin + 3] &&
                           r.value.waveOffset == Word16(buffer[begin], buffer[begin + 1], true)
  {
    var waveOffset :- U16(buffer, begin);
    var grainType :- Uint8At(buffer, begin + 0x03);
    var extra :- U32(buffer, begin + 0x04);
    Success(Grain(begin, waveOffset, grainType, extra))
  }

  /** A table-3 entry; `begin` is where it starts in the file. */
  datatype Wave = Wave(begin: int, pitchId: int, loopMode: int, volume: int, pan: int,
                       spuBufferSize: int, spuAddr: int, dataSize: int)
  {
    predicate IsLoop() { loopMode != 0 }

    /** Where the wave's audio starts in the data section. */
    function DataOffset(): int { spuAddr }

    /** The PS-ADPCM sample count, 28 per 16-byte block, as the source's
        floating-point division computes it (exactly: a 32-bit size over 16,
        times 28, fits a double's mantissa). */
    function SampleCount(): real { (dataSize as real / 16.0) * 28.0 }
  }

  /** `BnkWave.load`: 0x18 bytes, of which +4..+8 are not read. */
  function LoadWave(buffer: seq<Byte>, begin: int): (r: Result<Wave, RangeError>)
    ensures r.Success? <==> 0 <= begin && begin + WAVE_SIZE <= |buffer|
    ensures r.Success? ==> r.value.begin == begin && 0 <= r.value.dataSize < TWO_32
    ensures r.Success? ==> (r.value.IsLoop() <==> buffer[begin + 9] != 0)
    ensures r.Success? ==> r.value.volume == buffer[begin + 0x0a] && r.value.pan == buffer[begin + 0x0b]
  {
    var pitchId :- U32(buffer, begin);
    var loopMode :- Uint8At(buffer, begin + 0x09);
    var volume :- Uint8At(buffer, begin + 0x0a);
    var pan :- Uint8At(buffer, begin + 0x0b);
    var spuBufferSize :- U32(buffer, begin + 0x0c);
    var spuAddr :- U32(buffer, begin + 0x10);
    var dataSize :- U32(buffer, begin + 0x14);
    Success(Wave(begin, pitchId, loopMode, volume, pan, spuBufferSize, spuAddr, dataSize))
  }

  /** 28 samples per whole 16-byte block; a size that is not a multiple of 4
      bytes gives a fractional count. */
  lemma SampleCountBlocks(w: Wave)
    ensures w.SampleCount() == (7 * w.dataSize) as real / 4.0
    ensures w.dataSize % 16 == 0 ==> w.SampleCount() == (w.dataSize / 16 * 28) as real
    ensures w.dataSize % 4 != 0 ==> w.SampleCount() != w.SampleCount().Floor as real
  {
    var d := w.dataSize;
    if d % 16 == 0 {
      var q := d / 16;
      assert d == 16 * q;
      assert (d as real) == 16.0 * (q as real);
      assert (q * 28) as real == (q as real) * 28.0;
    }
    if d % 4 != 0 {
      var f := w.SampleCount().Floor;
      SevenQuartersNotWhole(d, f);
      assert w.SampleCount() * 4.0 == (7 * d) as real;
      assert (f as real) * 4.0 == (4 * f) as real;
    }
  }

  /** 7/4 of a number that 4 does not divide is not whole. */
  lemma SevenQuartersNotWhole(d: int, f: int)
    requires d % 4 != 0
    ensures 7 * d != 4 * f
  {
    var a := d / 4;
    var b := d % 4;
    assert d == 4 * a + b;
    assert 7 * d == 4 * (7 * a + b) + 3 * b;
  }

  /** A table-1 entry; `begin` is where it starts in the file. */
  datatype Sound = Sound(begin: int, id: int, flags: int, grainTableOffset: int)

  /** `BnkSound.load`: the last field read is the 16-bit word at +8, so the
      final two bytes of the 0x0c-byte entry need not exist. */
  function LoadSound(buffer: seq<Byte>, begin: int): (r: Result<Sound, RangeError>)
    ensures r.Success? <==> 0 <= begin && begin + 0x0a <= |buffer|
    ensures r.Success? ==> r.value.begin == begin && 0 <= r.value.grainTableOffset < 0x1_0000
  {
    var id :- U32(buffer, begin);
    var flags :- U32(buffer, begin + 0x04);
    var grainTableOffset :- U16(buffer, begin + 0x08);
    Success(Sound(begin, id, flags, grainTableOffset))
  }

  // ------------------------------------------------------------ sounds

  /** Sounds i .. count-1 of table 1 (at `table`, 0x0c bytes apart). */
  function Sounds(buffer: seq<Byte>, table: int, i: nat, count: int): Result<seq<Sound>, RangeError>
    decreases count - i
  {
    if i >= count then Success([])
    else
      var sound :- LoadSound(buffer, table + SOUND_SIZE * i);
      var rest :- Sounds(buffer, table, i + 1, count);
      Success([sound] + rest)
  }

  /** Every sound of the table, in order, one per entry. */
  lemma {:induction false} SoundsTable(buffer: seq<Byte>, table: int, i: nat, count: int)
    requires Sounds(buffer, table, i, count).Success?
    ensures i <= count ==> |Sounds(buffer, table, i, count).value| == count - i
    ensures forall k :: 0 <= k < |Sounds(buffer, table, i, count).value| ==>
              LoadSound(buffer, table + SOUND_SIZE * (i + k)) == Success(Sounds(buffer, table, i, count).value[k])
    decreases count - i
  {
    if i < count {
      SoundsTable(buffer, table, i + 1, count);
      var rest := Sounds(buffer, table, i + 1, count).value;
      var all := Sounds(buffer, table, i, count).value;
      assert all == [LoadSound(buffer, table + SOUND_SIZE * i).value] + rest;
      forall k | 0 <= k < |all|
        ensures LoadSound(buffer, table + SOUND_SIZE * (i + k)) == Success(all[k])
      {
        if k > 0 {
          assert all[k] == rest[k - 1];
          assert i + k == (i + 1) + (k - 1);
        }
      }
    }
  }

  /** The sound loop of `Bnk.load`. */
  method LoadSounds(buffer: seq<Byte>, table: int, count: int) returns (r: Result<seq<Sound>, RangeError>)
    ensures r == Sounds(buffer, table, 0, count)
  {
    var sounds: seq<Sound> := [];
    var i: nat := 0;
    PrependedEmpty(Sounds(buffer, table, 0, count));
    while i < count
      invariant Sounds(buffer, table, 0, count) == Prepended(sounds, Sounds(buffer, table, i, count))
      decreases count - i
    {
      var sound :- LoadSound(buffer, table + SOUND_SIZE * i);
      PrependedOne(sounds, sound, Sounds(buffer, table, i + 1, count));
      sounds := sounds + [sound];
      i := i + 1;
    }
    assert sounds + [] == sounds;
    return Success(sounds);
  }

  // ------------------------------------------------------------- waves

  /** A wave with the table-3 offset it was loaded from: the source's
      `{ off, wave }` pairs. */
  datatype Entry = Entry(off: int, wave: Wave)

  function OffsetSet(entries: seq<Entry>): set<int>
  {
    set k | 0 <= k < |entries| :: entries[k].off
  }

  ghost predicate DistinctOffsets(entries: seq<Entry>)
  {
    forall i, j :: 0 <= i < j < |entries| ==> entries[i].off != entries[j].off
  }

  ghost predicate IncreasingOffsets(entries: seq<Entry>)
  {
    forall i, j :: 0 <= i < j < |entries| ==> entries[i].off < entries[j].off
  }

  /** The entry's wave is the one at table 3 + its offset. */
  ghost predicate FromTable3(buffer: seq<Byte>, table3: int, e: Entry)
  {
    LoadWave(buffer, table3 + e.off) == Success(e.wave)
  }

  /** Grain i of table 2 is a wave grain pointing at table-3 offset off. */
  ghost predicate WaveGrainAt(buffer: seq<Byte>, table2: int, i: int, off: int)
  {
    LoadGrain(buffer, table2 + GRAIN_SIZE * i).Success? &&
    LoadGrain(buffer, table2 + GRAIN_SIZE * i).value.IsWave() &&
    LoadGrain(buffer, table2 + GRAIN_SIZE * i).value.waveOffset == off
  }

  /** The grain scan of `Bnk.load` over grains 0 .. n-1: a wave grain whose
      offset has not been seen yet loads the wave at table 3 + offset. */
  function Scanned(buffer: seq<Byte>, table2: int, table3: int, n: nat): Result<seq<Entry>, RangeError>
  {
    if n == 0 then Success([])
    else
      var prev :- Scanned(buffer, table2, table3, n - 1);
      var grain :- LoadGrain(buffer, table2 + GRAIN_SIZE * (n - 1));
      if grain.IsWave() && grain.waveOffset !in OffsetSet(prev) then
        var wave :- LoadWave(buffer, table3 + grain.waveOffset);
        Success(prev + [Entry(grain.waveOffset, wave)])
      else
        Success(prev)
  }

  /** The scan loads at most one wave per offset, each from table 3 at
      that offset. */
  lemma {:induction false} ScannedWaves(buffer: seq<Byte>, table2: int, table3: int, n: nat)
    requires Scanned(buffer, table2, table3, n).Success?
    ensures DistinctOffsets(Scanned(buffer, table2, table3, n).value)
    ensures forall k :: 0 <= k < |Scanned(buffer, table2, table3, n).value| ==>
              FromTable3(buffer, table3, Scanned(buffer, table2, table3, n).value[k])
  {
    if n > 0 {
      ScannedWaves(buffer, table2, table3, n - 1);
      var prev := Scanned(buffer, table2, table3, n - 1).value;
      var grain := LoadGrain(buffer, table2 + GRAIN_SIZE * (n - 1)).value;
      var all := Scanned(buffer, table2, table3, n).value;
      if grain.IsWave() && grain.waveOffset !in OffsetSet(prev) {
        assert all == prev + [Entry(grain.waveOffset, all[|prev|].wave)];
        forall i, j | 0 <= i < j < |all| ensures all[i].off != all[j].off {
          assert all[i] == prev[i];
          if j == |prev| {
            assert prev[i].off in OffsetSet(prev);
          } else {
            assert all[j] == prev[j];
          }
        }
        forall k | 0 <= k < |all| ensures FromTable3(buffer, table3, all[k]) {
          if k < |prev| { assert all[k] == prev[k]; }
        }
      } else {
        assert all == prev;
      }
    }
  }

  /** The scan's offsets are exactly those of the wave grains among the
      first n grains. */
  lemma {:induction false} ScannedOffsets(buffer: seq<Byte>, table2: int, table3: int, n: nat)
    requires Scanned(buffer, table2, table3, n).Success?
    ensures forall off :: off in OffsetSet(Scanned(buffer, table2, table3, n).value) <==>
              exists i :: 0 <= i < n && WaveGrainAt(buffer, table2, i, off)
  {
    if n > 0 {
      ScannedOffsets(buffer, table2, table3, n - 1);
      var prev := Scanned(buffer, table2, table3, n - 1).value;
      var grain := LoadGrain(buffer, table2 + GRAIN_SIZE * (n - 1)).value;
      var all := Scanned(buffer, table2, table3, n).value;
      if grain.IsWave() && grain.waveOffset !in OffsetSet(prev) {
        OffsetSetAppend(prev, Entry(grain.waveOffset, all[|prev|].wave));
        assert all == prev + [Entry(grain.waveOffset, all[|prev|].wave)];
      } else {
        assert all == prev;
      }
      forall off ensures off in OffsetSet(all) <==> exists i :: 0 <= i < n && WaveGrainAt(buffer, table2, i, off) {
        if off in OffsetSet(all) && off !in OffsetSet(prev) {
          assert WaveGrainAt(buffer, table2, n - 1, off);
        }
        if exists i :: 0 <= i < n && WaveGrainAt(buffer, table2, i, off) {
          var i :| 0 <= i < n && WaveGrainAt(buffer, table2, i, off);
          if i == n - 1 && off !in OffsetSet(prev) {
            assert off == grain.waveOffset;
          }
        }
      }
    }
  }

  lemma {:induction false} ScannedStaysFailed(buffer: seq<Byte>, table2: int, table3: int, i: nat, n: nat)
    requires i <= n && Scanned(buffer, table2, table3, i).Failure?
    ensures Scanned(buffer, table2, table3, n).Failure?
    decreases n - i
  {
    if i < n {
      ScannedStaysFailed(buffer, table2, table3, i, n - 1);
    }
  }

  lemma OffsetSetAppend(entries: seq<Entry>, e: Entry)
    ensures OffsetSet(entries + [e]) == OffsetSet(entries) + {e.off}
  {
    var all := entries + [e];
    forall off | off in OffsetSet(all) ensures off in OffsetSet(entries) + {e.off} {
      var k :| 0 <= k < |all| && all[k].off == off;
      if k < |entries| { assert entries[k] == all[k]; }
    }
    forall off | off in OffsetSet(entries) ensures off in OffsetSet(all) {
      var k :| 0 <= k < |entries| && entries[k].off == off;
      assert all[k] == entries[k];
    }
    assert all[|entries|] == e;
  }

  /** What the grain loop of `Bnk.load` keeps: the parallel `waveOffsets`
      and `waves` arrays hold the scanned entries, and the offset-to-index
      map sends each offset to its position. */
  ghost predicate ScanState(entries: seq<Entry>, offsets: seq<int>, waves: seq<Wave>, index: map<int, int>)
  {
    |offsets| == |entries| && |waves| == |entries| &&
    (forall k :: 0 <= k < |entries| ==> entries[k] == Entry(offsets[k], waves[k])) &&
    IndexesOffsets(index, entries)
  }

  /** A map that indexes the entries has exactly their offsets as keys. */
  lemma IndexedKeys(index: map<int, int>, entries: seq<Entry>, off: int)
    requires IndexesOffsets(index, entries)
    ensures off in index <==> off in OffsetSet(entries)
  {
    if off in OffsetSet(entries) {
      var k :| 0 <= k < |entries| && entries[k].off == off;
    }
  }

  lemma ScanStateAppend(entries: seq<Entry>, offsets: seq<int>, waves: seq<Wave>, index: map<int, int>, e: Entry)
    requires ScanState(entries, offsets, waves, index) && e.off !in index
    ensures ScanState(entries + [e], offsets + [e.off], waves + [e.wave], index[e.off := |waves|])
  {
    var all := entries + [e];
    var next := index[e.off := |waves|];
    forall off | off in next ensures 0 <= next[off] < |all| && all[next[off]].off == off {
      if off != e.off {
        assert all[index[off]] == entries[index[off]];
      }
    }
    forall k | 0 <= k < |all| ensures all[k].off in next && next[all[k].off] == k {
      if k < |entries| {
        assert all[k] == entries[k];
        assert entries[k].off in index;
      }
    }
  }

  /** The grain loop of `Bnk.load`: it fills `waveOffsets` and `waves`,
      consulting the offset-to-index map to skip an offset already loaded. */
  method ScanWaves(buffer: seq<Byte>, table2: int, table3: int, n: nat)
      returns (r: Result<(seq<int>, seq<Wave>), RangeError>)
    ensures r.Success? <==> Scanned(buffer, table2, table3, n).Success?
    ensures r.Success? ==>
              |r.value.0| == |r.value.1| == |Scanned(buffer, table2, table3, n).value| &&
              forall k :: 0 <= k < |r.value.0| ==>
                Scanned(buffer, table2, table3, n).value[k] == Entry(r.value.0[k], r.value.1[k])
  {
    var offsets: seq<int> := [];
    var waves: seq<Wave> := [];
    var index: map<int, int> := map[];
    var i: nat := 0;
    while i < n
      invariant i <= n && Scanned(buffer, table2, table3, i).Success?
      invariant ScanState(Scanned(buffer, table2, table3, i).value, offsets, waves, index)
    {
      var ok;
      ok, offsets, waves, index := ScanGrain(buffer, table2, table3, i, offsets, waves, index);
      if !ok {
        ScannedStaysFailed(buffer, table2, table3, i + 1, n);
        return Failure(RangeError);
      }
      i := i + 1;
    }
    return Success((offsets, waves));
  }

  /** One iteration of the scan: grain i, and its wave when it is new. */
  method ScanGrain(buffer: seq<Byte>, table2: int, table3: int, i: nat,
                   offsets: seq<int>, waves: seq<Wave>, index: map<int, int>)
      returns (ok: bool, offsets': seq<int>, waves': seq<Wave>, index': map<int, int>)
    requires Scanned(buffer, table2, table3, i).Success?
    requires ScanState(Scanned(buffer, table2, table3, i).value, offsets, waves, index)
    ensures ok <==> Scanned(buffer, table2, table3, i + 1).Success?
    ensures ok ==> ScanState(Scanned(buffer, table2, table3, i + 1).value, offsets', waves', index')
  {
    ghost var prev := Scanned(buffer, table2, table3, i).value;
    offsets', waves', index' := offsets, waves, index;
    var g := LoadGrain(buffer, table2 + GRAIN_SIZE * i);
    if g.Failure? {
      return false, offsets', waves', index';
    }
    var grain := g.value;
    IndexedKeys(index, prev, grain.waveOffset);
    if grain.grainType == GRAIN_TYPE_WAVE && grain.waveOffset !in index {
      var w := LoadWave(buffer, table3 + grain.waveOffset);
      if w.Failure? {
        return false, offsets', waves', index';
      }
      assert Scanned(buffer, table2, table3, i + 1) == Success(prev + [Entry(grain.waveOffset, w.value)]);
      ScanStateAppend(prev, offsets, waves, index, Entry(grain.waveOffset, w.value));
      index' := index[grain.waveOffset := |waves|];
      offsets' := offsets + [grain.waveOffset];
      waves' := waves + [w.value];
    } else {
      assert Scanned(buffer, table2, table3, i + 1) == Success(prev);
    }
    ok := true;
  }

  // ---------------------------------------------------------- sorting

  /** Insertion of e after every entry whose offset is not greater, which
      keeps the sort stable like `Array.prototype.sort`. */
  function Insert(e: Entry, sorted: seq<Entry>): seq<Entry>
  {
    if |sorted| == 0 || e.off < sorted[0].off then [e] + sorted
    else [sorted[0]] + Insert(e, sorted[1..])
  }

  /** `pairs.sort((a, b) => a.off - b.off)`. */
  function SortByOffset(entries: seq<Entry>): seq<Entry>
  {
    if |entries| == 0 then []
    else Insert(entries[|entries| - 1], SortByOffset(entries[..|entries| - 1]))
  }

  /** Every offset of entries is greater than b. */
  ghost predicate Above(b: int, entries: seq<Entry>)
  {
    forall k :: 0 <= k < |entries| ==> b < entries[k].off
  }

  lemma ConsIncreasing(x: Entry, entries: seq<Entry>)
    requires IncreasingOffsets(entries) && Above(x.off, entries)
    ensures IncreasingOffsets([x] + entries)
  {
    var all := [x] + entries;
    forall i, j | 0 <= i < j < |all| ensures all[i].off < all[j].off {
      assert all[j] == entries[j - 1];
      if i > 0 { assert all[i] == entries[i - 1]; }
    }
  }

  lemma {:induction false} InsertIncreasing(e: Entry, sorted: seq<Entry>)
    requires IncreasingOffsets(sorted)
    requires forall k :: 0 <= k < |sorted| ==> sorted[k].off != e.off
    ensures IncreasingOffsets(Insert(e, sorted))
    decreases |sorted|
  {
    if |sorted| == 0 || e.off < sorted[0].off {
      forall k | 0 <= k < |sorted| ensures e.off < sorted[k].off {
        if k > 0 { assert sorted[0].off < sorted[k].off; }
      }
      ConsIncreasing(e, sorted);
    } else {
      var head := sorted[0];
      var tail := sorted[1..];
      assert sorted == [head] + tail;
      forall i, j | 0 <= i < j < |tail| ensures tail[i].off < tail[j].off {
        assert tail[i] == sorted[i + 1] && tail[j] == sorted[j + 1];
      }
      forall k | 0 <= k < |tail| ensures tail[k].off != e.off {
        assert tail[k] == sorted[k + 1];
      }
      InsertIncreasing(e, tail);
      assert head.off < e.off by { assert sorted[0].off != e.off; }
      forall k | 0 <= k < |tail| ensures head.off < tail[k].off {
        assert tail[k] == sorted[k + 1];
      }
      InsertAbove(head.off, e, tail);
      ConsIncreasing(head, Insert(e, tail));
    }
  }

  lemma {:induction false} InsertPermutes(e: Entry, sorted: seq<Entry>)
    ensures multiset(Insert(e, sorted)) == multiset(sorted) + multiset{e}
    decreases |sorted|
  {
    if |sorted| > 0 && e.off >= sorted[0].off {
      assert sorted == [sorted[0]] + sorted[1..];
      InsertPermutes(e, sorted[1..]);
    }
  }

  /** Sorting neither loses nor adds an entry. */
  lemma {:induction false} SortByOffsetPermutes(entries: seq<Entry>)
    ensures multiset(SortByOffset(entries)) == multiset(entries)
    decreases |entries|
  {
    if |entries| > 0 {
      var init := entries[..|entries| - 1];
      assert entries == init + [entries[|entries| - 1]];
      SortByOffsetPermutes(init);
      InsertPermutes(entries[|entries| - 1], SortByOffset(init));
    }
  }

  lemma {:induction false} InsertAbove(b: int, e: Entry, entries: seq<Entry>)
    requires Above(b, entries) && b < e.off
    ensures Above(b, Insert(e, entries))
    decreases |entries|
  {
    if |entries| > 0 && e.off >= entries[0].off {
      var tail := entries[1..];
      forall k | 0 <= k < |tail| ensures b < tail[k].off {
        assert tail[k] == entries[k + 1];
      }
      InsertAbove(b, e, tail);
      var all := [entries[0]] + Insert(e, tail);
      forall k | 0 <= k < |all| ensures b < all[k].off {
        if k > 0 { assert all[k] == Insert(e, tail)[k - 1]; }
      }
    }
  }

  /** Entries that are a permutation of each other have the same offsets. */
  lemma OffsetSetOfPermutation(a: seq<Entry>, b: seq<Entry>)
    requires multiset(a) == multiset(b)
    ensures OffsetSet(a) == OffsetSet(b)
  {
    forall off | off in OffsetSet(a) ensures off in OffsetSet(b) {
      var k :| 0 <= k < |a| && a[k].off == off;
      assert a[k] in multiset(b);
      var j :| 0 <= j < |b| && b[j] == a[k];
    }
    forall off | off in OffsetSet(b) ensures off in OffsetSet(a) {
      var k :| 0 <= k < |b| && b[k].off == off;
      assert b[k] in multiset(a);
      var j :| 0 <= j < |a| && a[j] == b[k];
    }
  }

  /** Sorting entries with distinct offsets orders them by offset and
      neither loses nor adds an entry. */
  lemma SortByOffsetSorts(entries: seq<Entry>)
    requires DistinctOffsets(entries)
    ensures IncreasingOffsets(SortByOffset(entries))
    ensures OffsetSet(SortByOffset(entries)) == OffsetSet(entries)
  {
    SortByOffsetIncreasing(entries);
    SortByOffsetPermutes(entries);
    OffsetSetOfPermutation(SortByOffset(entries), entries);
  }

  lemma {:induction false} SortByOffsetIncreasing(entries: seq<Entry>)
    requires DistinctOffsets(entries)
    ensures IncreasingOffsets(SortByOffset(entries))
    decreases |entries|
  {
    if |entries| > 0 {
      var init := entries[..|entries| - 1];
      var last := entries[|entries| - 1];
      forall i, j | 0 <= i < j < |init| ensures init[i].off != init[j].off {
        assert init[i] == entries[i] && init[j] == entries[j];
      }
      SortByOffsetIncreasing(init);
      LastOffsetIsNew(entries);
      InsertIncreasing(last, SortByOffset(init));
    }
  }

  ghost predicate OffsetMissing(off: int, entries: seq<Entry>)
  {
    forall k :: 0 <= k < |entries| ==> entries[k].off != off
  }

  /** The last entry's offset is not among the sorted earlier ones. */
  lemma LastOffsetIsNew(entries: seq<Entry>)
    requires |entries| > 0 && DistinctOffsets(entries)
    ensures OffsetMissing(entries[|entries| - 1].off, SortByOffset(entries[..|entries| - 1]))
  {
    var init := entries[..|entries| - 1];
    var sortedInit := SortByOffset(init);
    SortByOffsetPermutes(init);
    forall k | 0 <= k < |sortedInit| ensures sortedInit[k].off != entries[|entries| - 1].off {
      assert sortedInit[k] in multiset(init);
      var j :| 0 <= j < |init| && init[j] == sortedInit[k];
      assert init[j] == entries[j];
    }
  }

  /** `pairs.map(p => p.wave)`. */
  function WavesOf(entries: seq<Entry>): (r: seq<Wave>)
    ensures |r| == |entries|
  {
    seq(|entries|, k requires 0 <= k < |entries| => entries[k].wave)
  }

  /** The map `pairs.forEach((p, i) => map.set(p.off, i))` leaves. */
  ghost predicate IndexesOffsets(index: map<int, int>, entries: seq<Entry>)
  {
    (forall off :: off in index ==> 0 <= index[off] < |entries| && entries[index[off]].off == off) &&
    (forall k :: 0 <= k < |entries| ==> entries[k].off in index && index[entries[k].off] == k)
  }

  /** The `forEach` that rebuilds the offset-to-index map after the sort. */
  method IndexOffsets(entries: seq<Entry>) returns (index: map<int, int>)
    requires IncreasingOffsets(entries)
    ensures IndexesOffsets(index, entries)
  {
    index := map[];
    for i := 0 to |entries|
      invariant forall off :: off in index ==> 0 <= index[off] < i && entries[index[off]].off == off
      invariant forall k :: 0 <= k < i ==> entries[k].off in index && index[entries[k].off] == k
    {
      index := index[entries[i].off := i];
    }
  }

  // ------------------------------------------------------------- load

  /** What `Bnk.load` computes: the header, the SBlk, the sounds and the
      waves with their table-3 offsets in offset order. */
  datatype Bank = Bank(header: Header, sblk: SBlk, sounds: seq<Sound>, entries: seq<Entry>)

  function Loaded(buffer: seq<Byte>): Result<Bank, RangeError>
  {
    var header :- LoadHeader(buffer);
    var sblk :- LoadSBlk(buffer, header.sblkOffset);
    var sounds :- Sounds(buffer, sblk.Table1(), 0, sblk.nSounds);
    var scanned :- Scanned(buffer, sblk.Table2(), sblk.Table3(), sblk.nGrains);
    Success(Bank(header, sblk, sounds, SortByOffset(scanned)))
  }

  /** The entries of a loaded bank are its scan, sorted. */
  lemma LoadedEntries(buffer: seq<Byte>)
    requires Loaded(buffer).Success?
    ensures Scanned(buffer, Loaded(buffer).value.sblk.Table2(), Loaded(buffer).value.sblk.Table3(),
                    Loaded(buffer).value.sblk.nGrains).Success?
    ensures Loaded(buffer).value.entries ==
            SortByOffset(Scanned(buffer, Loaded(buffer).value.sblk.Table2(), Loaded(buffer).value.sblk.Table3(),
                                 Loaded(buffer).value.sblk.nGrains).value)
  {
  }

  lemma LoadedIncreasing(buffer: seq<Byte>)
    requires Loaded(buffer).Success?
    ensures IncreasingOffsets(Loaded(buffer).value.entries)
  {
    var sblk := Loaded(buffer).value.sblk;
    LoadedEntries(buffer);
    ScannedWaves(buffer, sblk.Table2(), sblk.Table3(), sblk.nGrains);
    SortByOffsetSorts(Scanned(buffer, sblk.Table2(), sblk.Table3(), sblk.nGrains).value);
  }

  /** Sorting keeps every entry's wave the one loaded at its offset. */
  lemma SortedFromTable3(buffer: seq<Byte>, table3: int, entries: seq<Entry>)
    requires forall k :: 0 <= k < |entries| ==> FromTable3(buffer, table3, entries[k])
    ensures forall k :: 0 <= k < |SortByOffset(entries)| ==>
              FromTable3(buffer, table3, SortByOffset(entries)[k])
  {
    var sorted := SortByOffset(entries);
    SortByOffsetPermutes(entries);
    forall k | 0 <= k < |sorted| ensures FromTable3(buffer, table3, sorted[k]) {
      assert sorted[k] in multiset(entries);
      var j :| 0 <= j < |entries| && entries[j] == sorted[k];
    }
  }

  lemma LoadedFromTable3(buffer: seq<Byte>)
    requires Loaded(buffer).Success?
    ensures forall k :: 0 <= k < |Loaded(buffer).value.entries| ==>
              FromTable3(buffer, Loaded(buffer).value.sblk.Table3(), Loaded(buffer).value.entries[k])
  {
    var sblk := Loaded(buffer).value.sblk;
    LoadedEntries(buffer);
    ScannedWaves(buffer, sblk.Table2(), sblk.Table3(), sblk.nGrains);
    SortedFromTable3(buffer, sblk.Table3(), Scanned(buffer, sblk.Table2(), sblk.Table3(), sblk.nGrains).value);
  }

  lemma LoadedOffsets(buffer: seq<Byte>)
    requires Loaded(buffer).Success?
    ensures forall off :: off in OffsetSet(Loaded(buffer).value.entries) <==>
              exists i :: 0 <= i < Loaded(buffer).value.sblk.nGrains &&
                          WaveGrainAt(buffer, Loaded(buffer).value.sblk.Table2(), i, off)
  {
    var sblk := Loaded(buffer).value.sblk;
    LoadedEntries(buffer);
    ScannedWaves(buffer, sblk.Table2(), sblk.Table3(), sblk.nGrains);
    ScannedOffsets(buffer, sblk.Table2(), sblk.Table3(), sblk.nGrains);
    SortByOffsetSorts(Scanned(buffer, sblk.Table2(), sblk.Table3(), sblk.nGrains).value);
  }

  /** The waves of a loaded bank: one per distinct offset among the wave
      grains of table 2, each loaded from table 3 at that offset, in
      increasing offset order. */
  lemma LoadedWaves(buffer: seq<Byte>)
    requires Loaded(buffer).Success?
    ensures IncreasingOffsets(Loaded(buffer).value.entries)
    ensures forall k :: 0 <= k < |Loaded(buffer).value.entries| ==>
              FromTable3(buffer, Loaded(buffer).value.sblk.Table3(), Loaded(buffer).value.entries[k])
    ensures forall off :: off in OffsetSet(Loaded(buffer).value.entries) <==>
              exists i :: 0 <= i < Loaded(buffer).value.sblk.nGrains &&
                          WaveGrainAt(buffer, Loaded(buffer).value.sblk.Table2(), i, off)
  {
    LoadedIncreasing(buffer);
    LoadedFromTable3(buffer);
    LoadedOffsets(buffer);
  }

  /** The waves are in table-3 order and the index sends a table-3 offset
      to the position of the wave loaded from it, for every wave. */
  ghost predicate WavesIndexed(waves: seq<Wave>, index: map<int, int>, table3: int)
  {
    (forall i, j :: 0 <= i < j < |waves| ==> waves[i].begin < waves[j].begin) &&
    (forall off :: off in index ==> 0 <= index[off] < |waves| && waves[index[off]].begin == table3 + off) &&
    (forall k :: 0 <= k < |waves| ==> k in index.Values)
  }

  /** Entries in offset order, each loaded from table 3 at its offset,
      with the map the `forEach` builds, keep that invariant. */
  lemma EntriesIndexed(buffer: seq<Byte>, table3: int, entries: seq<Entry>, index: map<int, int>)
    requires forall k :: 0 <= k < |entries| ==> FromTable3(buffer, table3, entries[k])
    requires IncreasingOffsets(entries) && IndexesOffsets(index, entries)
    ensures WavesIndexed(WavesOf(entries), index, table3)
  {
    var waves := WavesOf(entries);
    forall k | 0 <= k < |entries| ensures waves[k].begin == table3 + entries[k].off {
      assert FromTable3(buffer, table3, entries[k]);
    }
    forall off | off in index ensures 0 <= index[off] < |waves| && waves[index[off]].begin == table3 + off {
    }
    forall k | 0 <= k < |waves| ensures k in index.Values {
      assert index[entries[k].off] in index.Values;
    }
  }

  /** The waves of a loaded bank with the map the `forEach` builds keep
      that invariant. */
  lemma LoadedIndexed(buffer: seq<Byte>, index: map<int, int>)
    requires Loaded(buffer).Success? && IndexesOffsets(index, Loaded(buffer).value.entries)
    ensures WavesIndexed(WavesOf(Loaded(buffer).value.entries), index, Loaded(buffer).value.sblk.Table3())
  {
    LoadedFromTable3(buffer);
    LoadedIncreasing(buffer);
    EntriesIndexed(buffer, Loaded(buffer).value.sblk.Table3(), Loaded(buffer).value.entries, index);
  }

  class Bnk {
    const buffer: seq<Byte>
    var header: Header
    var sblk: SBlk
    var sounds: seq<Sound>
    var waves: seq<Wave>
    var waveOffsetToIdx: map<int, int>

    ghost predicate Valid()
      reads this
    {
      WavesIndexed(waves, waveOffsetToIdx, sblk.Table3())
    }

    constructor (buffer: seq<Byte>, header: Header, sblk: SBlk)
      ensures this.buffer == buffer && this.header == header && this.sblk == sblk
      ensures sounds == [] && waves == [] && waveOffsetToIdx == map[]
    {
      this.buffer := buffer;
      this.header := header;
      this.sblk := sblk;
      sounds := [];
      waves := [];
      waveOffsetToIdx := map[];
    }

    /** `Bnk.load`. */
    static method Load(buffer: seq<Byte>) returns (r: Result<Bnk, RangeError>)
      ensures r.Success? <==> Loaded(buffer).Success?
      ensures r.Success? ==> fresh(r.value) && r.value.buffer == buffer && r.value.Valid()
      ensures r.Success? ==> r.value.header == Loaded(buffer).value.header &&
                             r.value.sblk == Loaded(buffer).value.sblk &&
                             r.value.sounds == Loaded(buffer).value.sounds &&
                             r.value.waves == WavesOf(Loaded(buffer).value.entries) &&
                             IndexesOffsets(r.value.waveOffsetToIdx, Loaded(buffer).value.entries)
    {
      var header :- LoadHeader(buffer);
      var sblk :- LoadSBlk(buffer, header.sblkOffset);
      var ret := new Bnk(buffer, header, sblk);
      var loadedSounds := LoadSounds(buffer, sblk.Table1(), sblk.nSounds);
      if loadedSounds.Failure? {
        return Failure(RangeError);
      }
      ret.sounds := loadedSounds.value;
      var scanned := ScanWaves(buffer, sblk.Table2(), sblk.Table3(), sblk.nGrains);
      if scanned.Failure? {
        return Failure(RangeError);
      }
      var offsets := scanned.value.0;
      var waves := scanned.value.1;
      var pairs := seq(|offsets|, k requires 0 <= k < |offsets| => Entry(offsets[k], waves[k]));
      ghost var entries := Scanned(buffer, sblk.Table2(), sblk.Table3(), sblk.nGrains).value;
      assert pairs == entries;
      var sorted := SortByOffset(pairs);
      assert Loaded(buffer) == Success(Bank(header, sblk, ret.sounds, sorted));
      LoadedIncreasing(buffer);
      ret.waves := WavesOf(sorted);
      var index := IndexOffsets(sorted);
      ret.waveOffsetToIdx := index;
      LoadedIndexed(buffer, index);
      assert WavesIndexed(WavesOf(sorted), index, sblk.Table3());
      assert ret.Valid();
      r := Success(ret);
    }

    /** `grainAt(byteOffset)`: the grain at a byte offset into table 2. */
    function GrainAt(byteOffset: int): (r: Result<Grain, RangeError>)
      reads this
      ensures r.Success? ==> r.value.begin == sblk.Table2() + byteOffset
    {
      LoadGrain(buffer, sblk.Table2() + byteOffset)
    }

    /** `waveIndexForGrain`: -1 unless the grain is a wave grain whose
        offset was loaded, otherwise the index of that wave. */
    function WaveIndexForGrain(grain: Grain): (r: int)
      requires Valid()
      reads this
      ensures r == -1 <==> !grain.IsWave() || grain.waveOffset !in waveOffsetToIdx
      ensures r != -1 ==> 0 <= r < |waves| && waves[r].begin == sblk.Table3() + grain.waveOffset
    {
      if !grain.IsWave() then -1
      else if grain.waveOffset in waveOffsetToIdx then waveOffsetToIdx[grain.waveOffset]
      else -1
    }

    /** `waveForGrain`: the wave that grain points at, if it was loaded
        (`waves[-1]` is `undefined`). */
    function WaveForGrain(grain: Grain): (r: Option<Wave>)
      requires Valid()
      reads this
      ensures r.Some? <==> grain.IsWave() && grain.waveOffset in waveOffsetToIdx
      ensures r.Some? ==> r.value.begin == sblk.Table3() + grain.waveOffset
    {
      if !grain.IsWave() then None
      else
        var i := if grain.waveOffset in waveOffsetToIdx then waveOffsetToIdx[grain.waveOffset] else -1;
        if 0 <= i < |waves| then Some(waves[i]) else None
    }

    /** `grainsForSound`: the chain of grains from the sound's offset into
        table 2, 8 bytes apart, ending at the first grain that is not
        RANDOMIZE or GROUP or after 64 grains. */
    method GrainsForSound(sound: Sound) returns (r: Result<seq<Grain>, RangeError>)
      ensures r == GrainChain(buffer, sblk.Table2(), sound.grainTableOffset, MAX_CHAIN)
    {
      var grains: seq<Grain> := [];
      var offset := sound.grainTableOffset;
      ghost var table2 := sblk.Table2();
      ghost var chain := GrainChain(buffer, table2, sound.grainTableOffset, MAX_CHAIN);
      PrependedEmpty(chain);
      for guard := 0 to MAX_CHAIN
        invariant chain == Prepended(grains, GrainChain(buffer, table2, offset, MAX_CHAIN - guard))
      {
        var grain :- GrainAt(offset);
        GrainChainStep(buffer, table2, offset, MAX_CHAIN - guard);
        PrependedOne(grains, grain, GrainChain(buffer, table2, offset + GRAIN_SIZE, MAX_CHAIN - guard - 1));
        grains := grains + [grain];
        if grain.grainType != GRAIN_TYPE_RANDOMIZE && grain.grainType != GRAIN_TYPE_GROUP {
          assert grains + [] == grains;
          return Success(grains);
        }
        offset := offset + GRAIN_SIZE;
      }
      assert grains + [] == grains;
      return Success(grains);
    }

    /** `audioRange(wave)`: the wave's bytes inside the data section. */
    method AudioRange(wave: Wave) returns (r: BufferRange)
      ensures fresh(r) && r.buffer == buffer && r.le
      ensures r.begin == header.dataOffset + wave.DataOffset() && r.Size() == wave.dataSize
    {
      var dataRange := new BufferRange(buffer, Some(header.dataOffset), Some(header.dataOffset + header.dataSize), true);
      var offset := wave.DataOffset();
      r := dataRange.Slice(offset, Some(offset + wave.dataSize));
    }
  }

  /** At most `guard` grains from table 2 + offset on, 8 bytes apart, up to
      and including the first one that does not chain. */
  function GrainChain(buffer: seq<Byte>, table2: int, offset: int, guard: nat): Result<seq<Grain>, RangeError>
    decreases guard
  {
    if guard == 0 then Success([])
    else
      var grain :- LoadGrain(buffer, table2 + offset);
      if !grain.Chains() then Success([grain])
      else
        var rest :- GrainChain(buffer, table2, offset + GRAIN_SIZE, guard - 1);
        Success([grain] + rest)
  }

  /** One link of a grain chain. */
  lemma GrainChainStep(buffer: seq<Byte>, table2: int, offset: int, guard: nat)
    requires guard > 0 && LoadGrain(buffer, table2 + offset).Success?
    ensures !LoadGrain(buffer, table2 + offset).value.Chains() ==>
              GrainChain(buffer, table2, offset, guard) == Success([LoadGrain(buffer, table2 + offset).value])
    ensures LoadGrain(buffer, table2 + offset).value.Chains() ==>
              GrainChain(buffer, table2, offset, guard) ==
              Prepended([LoadGrain(buffer, table2 + offset).value], GrainChain(buffer, table2, offset + GRAIN_SIZE, guard - 1))
  {
  }

  /** A grain chain holds 1 .. guard grains, 8 bytes apart, each read from
      its place in table 2; every grain but the last chains, and so does the
      last when the guard cut the chain. */
  lemma {:induction false} GrainChainShape(buffer: seq<Byte>, table2: int, offset: int, guard: nat)
    requires guard >= 1 && GrainChain(buffer, table2, offset, guard).Success?
    decreases guard
    ensures 1 <= |GrainChain(buffer, table2, offset, guard).value| <= guard
    ensures forall k :: 0 <= k < |GrainChain(buffer, table2, offset, guard).value| ==>
              LoadGrain(buffer, table2 + offset + GRAIN_SIZE * k) ==
              Success(GrainChain(buffer, table2, offset, guard).value[k])
    ensures forall k :: 0 <= k < |GrainChain(buffer, table2, offset, guard).value| - 1 ==>
              GrainChain(buffer, table2, offset, guard).value[k].Chains()
    ensures |GrainChain(buffer, table2, offset, guard).value| < guard ==>
              !GrainChain(buffer, table2, offset, guard).value[|GrainChain(buffer, table2, offset, guard).value| - 1].Chains()
  {
    var grain := LoadGrain(buffer, table2 + offset).value;
    if grain.Chains() {
      var all := GrainChain(buffer, table2, offset, guard).value;
      if guard == 1 {
        assert all == [grain];
      } else {
        GrainChainShape(buffer, table2, offset + GRAIN_SIZE, guard - 1);
        var rest := GrainChain(buffer, table2, offset + GRAIN_SIZE, guard - 1).value;
        assert all == [grain] + rest;
        forall k | 0 <= k < |all|
          ensures LoadGrain(buffer, table2 + offset + GRAIN_SIZE * k) == Success(all[k])
        {
          if k > 0 {
            assert all[k] == rest[k - 1];
            assert table2 + offset + GRAIN_SIZE * k == table2 + (offset + GRAIN_SIZE) + GRAIN_SIZE * (k - 1);
          }
        }
        forall k | 0 <= k < |all| - 1 ensures all[k].Chains() {
          if k > 0 { assert all[k] == rest[k - 1]; }
        }
      }
    }
  }
}
