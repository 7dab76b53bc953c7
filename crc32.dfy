/** The CRC-32 variant of `crc32(s, polynomial, initialValue, finalXORValue)`:
    a reflected 256-entry table built from the (unreflected) polynomial, a
    byte-at-a-time update, and a final XOR. JavaScript numbers are integers
    here; `^` and `>>>` act on their 32-bit two's-complement images. */
module Crc32 {
  import opened Wrappers
  import opened Bytes

  const DEFAULT_POLYNOMIAL: int := 0x04C1_1DB7
  const DEFAULT_INITIAL_VALUE: int := 0
  const DEFAULT_FINAL_XOR: int := 0xFFFF_FFFF

  datatype RangeError = RangeError

  // ---------------------------------------------------------------- reflect

  /** The low n bits of x in reverse order. */
  function Reversed(x: nat, n: nat): (r: nat)
    ensures r < Pow2(n)
  {
    if n == 0 then 0 else (x % 2) * Pow2(n - 1) + Reversed(x / 2, n - 1)
  }

  /** Bit k of `Reversed(x, n)` is bit n - 1 - k of x. */
  lemma {:induction false} ReversedBit(x: nat, n: nat, k: nat)
    requires k < n
    ensures Field(Reversed(x, n), k, 1) == Field(x, n - 1 - k, 1)
  {
    var rest := Reversed(x / 2, n - 1);
    assert Reversed(x, n) == (x % 2) * Pow2(n - 1) + rest;
    if k == n - 1 {
      FieldAbove(x % 2, n - 1, rest);
      assert Pow2(0) == 1 && Pow2(1) == 2;
    } else {
      FieldBelow(x % 2, n - 1, rest, k);
      ReversedBit(x / 2, n - 1, k);
      FieldOfHalf(x, n - 2 - k, 1);
    }
  }

  /** `reflect(x, n)`: shifts the low bit of x into b, n times. */
  method Reflect(x: nat, n: nat) returns (b: nat)
    ensures b == Reversed(x, n)
  {
    b := 0;
    var rest := x;
    var left: nat := n;
    while left != 0
      invariant left <= n
      decreases left
      invariant b * Pow2(left) + Reversed(rest, left) == Reversed(x, n)
    {
      ReflectStep(b, rest, left);
      b := b * 2 + rest % 2;
      rest := rest / 2;
      left := left - 1;
    }
  }

  lemma ReflectStep(b: nat, rest: nat, left: nat)
    requires left > 0
    ensures (b * 2 + rest % 2) * Pow2(left - 1) + Reversed(rest / 2, left - 1) == b * Pow2(left) + Reversed(rest, left)
  {
    var p := Pow2(left - 1);
    assert Pow2(left) == 2 * p;
    assert (b * 2 + rest % 2) * p == b * (2 * p) + (rest % 2) * p;
  }

  // ------------------------------------------------------------------ table

  /** One polynomial-division step: shift left, and XOR the polynomial in when
      the bit shifted out (bit 31) was set. */
  function Round(t: nat, polynomial: int): (r: nat)
    ensures r < TWO_32
  {
    Xor32(t * 2, (if t >= 0x8000_0000 then 1 else 0) * polynomial)
  }

  function Rounds(t: nat, polynomial: int, k: nat): (r: nat)
    ensures k > 0 ==> r < TWO_32
  {
    if k == 0 then t else Round(Rounds(t, polynomial, k - 1), polynomial)
  }

  /** Table entry i: the reflected byte in the top 8 bits, eight division
      steps, and the 32-bit result reflected back. */
  function TableEntry(i: nat, polynomial: int): (r: nat)
    ensures r < TWO_32
  {
    Pow2Word();
    Reversed(Rounds(Reversed(i, 8) * 0x100_0000, polynomial, 8), 32)
  }

  function Table(polynomial: int): (table: seq<nat>)
    ensures |table| == 256
    ensures forall i :: 0 <= i < 256 ==> table[i] == TableEntry(i, polynomial)
  {
    seq(256, i requires 0 <= i < 256 => TableEntry(i, polynomial))
  }

  /** The eight division steps of one entry (the inner loop). */
  method DivisionSteps(start: nat, polynomial: int) returns (entry: nat)
    ensures entry == Rounds(start, polynomial, 8)
  {
    entry := start;
    var j := 0;
    while j < 8
      invariant 0 <= j <= 8
      invariant entry == Rounds(start, polynomial, j)
    {
      entry := Round(entry, polynomial);
      j := j + 1;
    }
  }

  /** One iteration of the outer table loop. */
  method ComputeEntry(i: nat, polynomial: int) returns (entry: nat)
    ensures entry == TableEntry(i, polynomial)
  {
    entry := Reflect(i, 8);
    entry := DivisionSteps(entry * 0x100_0000, polynomial);
    entry := Reflect(entry, 32);
  }

  /** The 256-entry table, filled in order by two nested loops. */
  method BuildTable(polynomial: int) returns (table: seq<nat>)
    ensures |table| == 256
    ensures forall k :: 0 <= k < 256 ==> table[k] == TableEntry(k, polynomial)
  {
    table := [];
    var i := 0;
    while i < 256
      invariant 0 <= i <= 256 && |table| == i
      invariant forall k :: 0 <= k < i ==> table[k] == TableEntry(k, polynomial)
    {
      var entry := ComputeEntry(i, polynomial);
      table := table + [entry];
      i := i + 1;
    }
  }

  // ----------------------------------------------------------------- update

  /** The table slot for the next byte: `crc % 256 ^ c`. JavaScript's `%`
      keeps the sign of crc, so a negative initial value that is not a
      multiple of 256 gives a negative slot, whose entry is `undefined`. */
  function Slot(crc: int, c: Byte): (r: Option<nat>)
    ensures r.Some? ==> r.value < 256
    ensures r.Some? <==> crc >= 0 || crc % 256 == 0
  {
    Pow2Byte();
    if crc >= 0 || crc % 256 == 0 then Some(XorBits(crc % 256, c, 8)) else None
  }

  /** `crc = ((crc >>> 8) ^ table[j]) >>> 0`; an `undefined` entry XORs as 0. */
  function Step(crc: int, c: Byte, table: seq<nat>): (r: nat)
    requires |table| == 256
    ensures r < TWO_32
  {
    var entry := match Slot(crc, c) case Some(j) => table[j] case None => 0;
    Xor32(ToUint32(crc) / 256, entry)
  }

  /** The register after feeding the bytes of s in order. */
  function Fold(crc: int, s: seq<Byte>, table: seq<nat>): (r: int)
    requires |table| == 256
    ensures s != [] ==> 0 <= r < TWO_32
    ensures s == [] ==> r == crc
    decreases |s|
  {
    if s == [] then crc else Fold(Step(crc, s[0], table), s[1..], table)
  }

  /** Feeding s1 ++ s2 is feeding s1, then s2 from the register s1 left. */
  lemma {:induction false} FoldAppend(crc: int, s1: seq<Byte>, s2: seq<Byte>, table: seq<nat>)
    requires |table| == 256
    ensures Fold(crc, s1 + s2, table) == Fold(Fold(crc, s1, table), s2, table)
    decreases |s1|
  {
    if s1 == [] {
      assert s1 + s2 == s2;
    } else {
      assert (s1 + s2)[1..] == s1[1..] + s2;
      FoldAppend(Step(crc, s1[0], table), s1[1..], s2, table);
    }
  }

  /** The character codes of s as bytes, or the error `crc32` throws when
      one of them is above 255. */
  function Codes(s: string): (r: Result<seq<Byte>, RangeError>)
    ensures r.Failure? <==> exists i :: 0 <= i < |s| && s[i] as int > 255
    ensures r.Success? ==> |r.value| == |s| && forall i :: 0 <= i < |s| ==> r.value[i] == s[i] as int
  {
    if s == [] then Success([])
    else if s[0] as int > 255 then Failure(RangeError)
    else
      var rest :- Codes(s[1..]);
      assert forall i :: 1 <= i < |s| ==> s[i] == s[1..][i - 1];
      Success([s[0] as int as Byte] + rest)
  }

  /** What `crc32(s, polynomial, initialValue, finalXORValue)` returns. */
  function Checksum(s: string, polynomial: int, initialValue: int, finalXor: int): (r: Result<nat, RangeError>)
    ensures r.Failure? <==> exists i :: 0 <= i < |s| && s[i] as int > 255
    ensures r.Success? ==> r.value < TWO_32
  {
    var bytes :- Codes(s);
    Success(Xor32(Fold(initialValue, bytes, Table(polynomial)), finalXor))
  }

  /** `crc32`: builds the table, then updates the register character by
      character, throwing on the first code above 255. */
  method Crc32(s: string, polynomial: int, initialValue: int, finalXor: int) returns (r: Result<nat, RangeError>)
    ensures r == Checksum(s, polynomial, initialValue, finalXor)
  {
    var crc := initialValue;
    var table := BuildTable(polynomial);
    TableFromEntries(table, polynomial);
    var i := 0;
    ghost var bytes: seq<Byte> := [];
    while i < |s|
      invariant 0 <= i <= |s| && |bytes| == i
      invariant forall k :: 0 <= k < i ==> bytes[k] == s[k] as int
      invariant crc == Fold(initialValue, bytes, table)
    {
      if s[i] as int > 255 {
        ChecksumFails(s, polynomial, initialValue, finalXor, i);
        return Failure(RangeError);
      }
      var c := s[i] as int;
      FoldSnoc(initialValue, bytes, c, table);
      crc := Step(crc, c, table);
      bytes := bytes + [c];
      i := i + 1;
    }
    CodesOf(s, bytes);
    r := Success(Xor32(crc, finalXor));
  }

  lemma FoldSnoc(crc: int, s: seq<Byte>, c: Byte, table: seq<nat>)
    requires |table| == 256
    ensures Fold(crc, s + [c], table) == Step(Fold(crc, s, table), c, table)
  {
    FoldAppend(crc, s, [c], table);
  }

  lemma CodesOf(s: string, bytes: seq<Byte>)
    requires |bytes| == |s| && forall k :: 0 <= k < |s| ==> bytes[k] == s[k] as int
    ensures Codes(s) == Success(bytes)
    decreases |s|
  {
    if s != [] {
      CodesOf(s[1..], bytes[1..]);
      assert bytes == [bytes[0]] + bytes[1..];
    }
  }

  lemma ChecksumFails(s: string, polynomial: int, initialValue: int, finalXor: int, i: nat)
    requires i < |s| && s[i] as int > 255
    ensures Checksum(s, polynomial, initialValue, finalXor) == Failure(RangeError)
  {
    assert Codes(s).Failure?;
    assert Codes(s).error == RangeError;
  }

  lemma TableFromEntries(table: seq<nat>, polynomial: int)
    requires |table| == 256
    requires forall k :: 0 <= k < 256 ==> table[k] == TableEntry(k, polynomial)
    ensures table == Table(polynomial)
  {
    assert forall k :: 0 <= k < 256 ==> table[k] == Table(polynomial)[k];
  }

  /** The empty string leaves the initial value, XORed once. */
  lemma EmptyChecksumIsFinalXor(polynomial: int, initialValue: int, finalXor: int)
    ensures Checksum("", polynomial, initialValue, finalXor) == Success(Xor32(initialValue, finalXor))
  {
    assert Codes("") == Success([]);
  }

  /** With the default parameters the empty string hashes to 0xFFFFFFFF. */
  lemma EmptyChecksum()
    ensures Checksum("", DEFAULT_POLYNOMIAL, DEFAULT_INITIAL_VALUE, DEFAULT_FINAL_XOR) == Success(0xFFFF_FFFF)
  {
    EmptyChecksumIsFinalXor(DEFAULT_POLYNOMIAL, DEFAULT_INITIAL_VALUE, DEFAULT_FINAL_XOR);
    XorZero(0xFFFF_FFFF, 32);
    Pow2Table();
  }

  /** The checksum of s1 ++ s2 continues from the register s1 leaves: the
      final XOR is applied once, to the register after both. */
  lemma {:induction false} ChecksumAppend(s1: string, s2: string, polynomial: int, initialValue: int, finalXor: int)
    requires Codes(s1).Success? && Codes(s2).Success?
    ensures var table := Table(polynomial);
            Checksum(s1 + s2, polynomial, initialValue, finalXor) ==
            Success(Xor32(Fold(Fold(initialValue, Codes(s1).value, table), Codes(s2).value, table), finalXor))
  {
    var table := Table(polynomial);
    var b1, b2 := Codes(s1).value, Codes(s2).value;
    CodesAppend(s1, s2);
    FoldAppend(initialValue, b1, b2, table);
  }

  /** The codes of s1 ++ s2 are the codes of s1, then those of s2. */
  lemma CodesAppend(s1: string, s2: string)
    requires Codes(s1).Success? && Codes(s2).Success?
    ensures Codes(s1 + s2) == Success(Codes(s1).value + Codes(s2).value)
  {
    var b1, b2 := Codes(s1).value, Codes(s2).value;
    var s := s1 + s2;
    forall k | 0 <= k < |s|
      ensures (b1 + b2)[k] == s[k] as int
    {
      if k < |s1| {
        assert s[k] == s1[k];
      } else {
        assert s[k] == s2[k - |s1|];
      }
    }
    CodesOf(s, b1 + b2);
  }
}
