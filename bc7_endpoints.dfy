/** The endpoints of a BC7 block: the raw colour and alpha fields, the
    P-bits appended below them, and the expansion of each component to 8
    bits by shifting it to the top and replicating its high bits below.
    The decoder keeps the endpoints in a 6 x 4 table (endpoint, component);
    rows past the mode's endpoint count stay 0. */
module Bc7Endpoints {
  import opened Bytes
  import opened Bc7Bits
  import opened Bc7Layout

  // ------------------------------------------------------------ bitwise or

  /** JavaScript `a | b` on the non-negative operands the decoder uses. */
  function Or(a: nat, b: nat): (r: nat)
    decreases a + b
  {
    if a == 0 && b == 0 then 0
    else 2 * Or(a / 2, b / 2) + (if a % 2 == 1 || b % 2 == 1 then 1 else 0)
  }

  lemma {:induction false} OrZero(a: nat)
    ensures Or(a, 0) == a
  {
    if a > 0 {
      OrZero(a / 2);
    }
  }

  /** Or-ing bits below a multiple of 2^n is adding them. */
  lemma {:induction false} OrDisjoint(h: nat, low: nat, n: nat)
    requires low < Pow2(n)
    ensures Or(h * Pow2(n), low) == h * Pow2(n) + low
  {
    if n == 0 {
      OrZero(h);
    } else {
      var a := h * Pow2(n);
      assert a == 2 * (h * Pow2(n - 1));
      if a != 0 || low != 0 {
        OrDisjoint(h, low / 2, n - 1);
        assert a / 2 == h * Pow2(n - 1) && a % 2 == 0;
      }
    }
  }

  /** Or-ing two n-bit values gives an n-bit value. */
  lemma {:induction false} OrBound(a: nat, b: nat, n: nat)
    requires a < Pow2(n) && b < Pow2(n)
    ensures Or(a, b) < Pow2(n)
  {
    if n > 0 && (a != 0 || b != 0) {
      OrBound(a / 2, b / 2, n - 1);
    }
  }

  // ------------------------------------------------------------- expansion

  /** `x = v << (8 - p); x | (x >>> p)`: v moved to the top of a byte, its
      high bits replicated into the bits the shift opened. */
  function Expand(v: nat, p: nat): nat
    requires p <= 8
  {
    var x := v * Pow2(8 - p);
    Or(x, x / Pow2(p))
  }

  /** A p-bit value expands to a byte. */
  lemma ExpandBelow256(v: nat, p: nat)
    requires p <= 8 && v < Pow2(p)
    ensures Expand(v, p) < 256
  {
    Pow2Add(8 - p, p);
    ScaledBelow(v, Pow2(8 - p), Pow2(p), Pow2(8));
    OrBound(v * Pow2(8 - p), v * Pow2(8 - p) / Pow2(p), 8);
    Pow2Byte();
  }

  lemma ScaledBelow(v: nat, a: nat, q: nat, n: nat)
    requires a > 0 && q > 0 && v < q && a * q == n
    ensures 0 <= v * a < n && 0 <= (v * a) / q < n
  {
    MulMonotone(a, v + 1, q);
    assert a * (v + 1) == v * a + a;
    DivAtMost(v * a, q);
  }

  lemma DivAtMost(x: nat, q: nat)
    requires q > 0
    ensures x / q <= x
  {
    var d := x / q;
    assert x == d * q + x % q;
    if d > 0 {
      MulAtLeast(q, d);
    }
  }

  /** For p >= 4 the expansion is v on top of the byte and the high 2p - 8
      bits of v below it; the top p bits give v back. */
  lemma ExpandReplicates(v: nat, p: nat)
    requires 4 <= p <= 8 && v < Pow2(p)
    ensures Expand(v, p) == v * Pow2(8 - p) + v / Pow2(2 * p - 8)
    ensures Expand(v, p) / Pow2(8 - p) == v
  {
    var a, b := Pow2(8 - p), Pow2(2 * p - 8);
    var x := v * a;
    Pow2Add(8 - p, 2 * p - 8);
    assert Pow2(p) == a * b;
    DivDiv(x, a, b);
    DivModUnique(x, a, v, 0);
    assert x / Pow2(p) == v / b;
    DivBelow(v, a, b);
    OrDisjoint(v, v / b, 8 - p);
    DivModUnique(x + v / b, a, v, v / b);
  }

  lemma DivBelow(v: nat, a: nat, b: nat)
    requires a > 0 && b > 0 && v < a * b
    ensures v / b < a
  {
    var q := v / b;
    assert v == q * b + v % b;
    if q >= a {
      MulMonotone(b, a, q);
    }
  }

  // ---------------------------------------------------------- the phases

  /** Component c (0..2 colour, 3 alpha) of endpoint j as read from the
      block; 0 where the mode stores nothing. */
  function Raw(buffer: seq<Byte>, mode: nat, j: nat, c: nat): nat
    requires mode < 8
  {
    if j >= EndpointCount(mode) then 0
    else if c < 3 then Uint(buffer, ColorPos(mode, c * EndpointCount(mode) + j), ColorBits(mode))
    else if c == 3 && AlphaBits(mode) > 0 then Uint(buffer, AlphaPos(mode, j), AlphaBits(mode))
    else 0
  }

  /** The P-bit of endpoint j: mode 1 shares one between endpoints 0 and 1
      and one between 2 and 3; the other P-bit modes have one each. */
  function PBitOf(buffer: seq<Byte>, mode: nat, j: nat): (r: nat)
    requires mode < 8
    ensures r < 2
  {
    Pow2Low();
    Uint(buffer, PBitStart(mode) + (if mode == 1 then j / 2 else j), 1)
  }

  /** The components after the P-bit step: shifted up by one in the P-bit
      modes and or-ed with the endpoint's P-bit (colour only in mode 1). */
  function WithPBit(buffer: seq<Byte>, mode: nat, j: nat, c: nat): nat
    requires mode < 8
  {
    var raw := Raw(buffer, mode, j, c);
    if !HasPBits(mode) || j >= EndpointCount(mode) then raw
    else if mode == 1 then (if c < 3 then Or(2 * raw, PBitOf(buffer, mode, j)) else 2 * raw)
    else if PBitFlag(mode) == 1 then Or(2 * raw, PBitOf(buffer, mode, j))
    else 2 * raw
  }

  /** Bits of precision of component c, P-bit included: the decoder adds
      `(sModeHasPBits >>> mode) & 1`, which is 1 exactly in the P-bit modes
      (`PBitFlagOf`). */
  function Precision(mode: nat, c: nat): (p: nat)
    requires mode < 8
    ensures p <= 8
  {
    (if c < 3 then ColorBits(mode) else AlphaBits(mode)) + (if HasPBits(mode) then 1 else 0)
  }

  /** The modes whose endpoints are shifted for a P-bit are exactly those
      flagged in `sModeHasPBits`. */
  lemma PBitFlagOf(mode: nat)
    requires mode < 8
    ensures PBitFlag(mode) == 1 <==> HasPBits(mode)
  {
    Pow2Table();
    if mode == 0 {
    } else if mode == 1 {
    } else if mode == 2 {
    } else if mode == 3 {
    } else if mode == 4 {
    } else if mode == 5 {
    } else if mode == 6 {
    } else {
    }
  }

  function Expanded(buffer: seq<Byte>, mode: nat, j: nat, c: nat): nat
    requires mode < 8
  {
    if j < EndpointCount(mode) then Expand(WithPBit(buffer, mode, j, c), Precision(mode, c))
    else WithPBit(buffer, mode, j, c)
  }

  /** The decoded endpoint component: the expansion, except that the alpha
      of a mode without alpha bits is 0xFF. */
  function Endpoint(buffer: seq<Byte>, mode: nat, j: nat, c: nat): (r: nat)
    requires mode < 8
    ensures r < 256
  {
    if j < EndpointCount(mode) && c == 3 && AlphaBits(mode) == 0 then 255
    else
      if j < EndpointCount(mode) then
        WithPBitBelow(buffer, mode, j, c);
        ExpandBelow256(WithPBit(buffer, mode, j, c), Precision(mode, c));
        Expanded(buffer, mode, j, c)
      else
        Expanded(buffer, mode, j, c)
  }

  /** After the P-bit step a component fits its precision. */
  lemma WithPBitBelow(buffer: seq<Byte>, mode: nat, j: nat, c: nat)
    requires mode < 8 && j < EndpointCount(mode)
    ensures WithPBit(buffer, mode, j, c) < Pow2(Precision(mode, c))
  {
    var bits := if c < 3 then ColorBits(mode) else AlphaBits(mode);
    var raw := Raw(buffer, mode, j, c);
    PBitFlagOf(mode);
    assert raw < Pow2(bits);
    if HasPBits(mode) {
      ShiftedBelow(raw, bits, PBitOf(buffer, mode, j));
    }
  }

  /** A bits-wide value shifted up by one, with or without a P-bit or-ed
      in, fits bits + 1 bits. */
  lemma ShiftedBelow(raw: nat, bits: nat, p: nat)
    requires raw < Pow2(bits) && p < 2
    ensures 2 * raw < Pow2(bits + 1) && Or(2 * raw, p) < Pow2(bits + 1)
  {
    assert Pow2(1) == 2;
    OrDisjoint(raw, p, 1);
  }

  /** The component's stored bits, its P-bit (if the mode has them)
      appended below. */
  function Stored(buffer: seq<Byte>, mode: nat, j: nat, c: nat): nat
    requires mode < 8
  {
    if HasPBits(mode) then 2 * Raw(buffer, mode, j, c) + PBitOf(buffer, mode, j)
    else Raw(buffer, mode, j, c)
  }

  /** Every stored component is unquantised by bit replication: the byte
      holds the stored bits on top and their high bits repeated below. */
  lemma EndpointReplicatesStored(buffer: seq<Byte>, mode: nat, j: nat, c: nat)
    requires mode < 8 && j < EndpointCount(mode) && c < 4 && (c < 3 || AlphaBits(mode) > 0)
    ensures 5 <= Precision(mode, c) <= 8
    ensures Stored(buffer, mode, j, c) < Pow2(Precision(mode, c))
    ensures Endpoint(buffer, mode, j, c) ==
              Stored(buffer, mode, j, c) * Pow2(8 - Precision(mode, c)) +
              Stored(buffer, mode, j, c) / Pow2(2 * Precision(mode, c) - 8)
    ensures Endpoint(buffer, mode, j, c) / Pow2(8 - Precision(mode, c)) == Stored(buffer, mode, j, c)
  {
    StoredIsWithPBit(buffer, mode, j, c);
    assert Endpoint(buffer, mode, j, c) == Expand(Stored(buffer, mode, j, c), Precision(mode, c));
    ExpandReplicates(Stored(buffer, mode, j, c), Precision(mode, c));
  }

  lemma StoredIsWithPBit(buffer: seq<Byte>, mode: nat, j: nat, c: nat)
    requires mode < 8 && j < EndpointCount(mode) && c < 4 && (c < 3 || AlphaBits(mode) > 0)
    ensures 5 <= Precision(mode, c) <= 8
    ensures WithPBit(buffer, mode, j, c) == Stored(buffer, mode, j, c) < Pow2(Precision(mode, c))
  {
    PBitFlagOf(mode);
    PrecisionRange(mode, c);
    WithPBitBelow(buffer, mode, j, c);
    if HasPBits(mode) {
      OrLowBit(Raw(buffer, mode, j, c), PBitOf(buffer, mode, j));
    }
  }

  /** Or-ing a bit into an even number is adding it. */
  lemma OrLowBit(raw: nat, p: nat)
    requires p < 2
    ensures Or(2 * raw, p) == 2 * raw + p
  {
    assert Pow2(1) == 2;
    OrDisjoint(raw, p, 1);
  }

  /** Stored components carry 5 to 8 bits of precision. */
  lemma PrecisionRange(mode: nat, c: nat)
    requires mode < 8 && (c < 3 || AlphaBits(mode) > 0)
    ensures 5 <= Precision(mode, c) <= 8
  {
  }


  /** A stored alpha decodes to opaque 0xFF exactly when the mode has no
      alpha bits or all of its stored bits are set. */
  lemma OpaqueAlpha(buffer: seq<Byte>, mode: nat, j: nat)
    requires mode < 8 && j < EndpointCount(mode)
    ensures Endpoint(buffer, mode, j, 3) == 255 <==>
              AlphaBits(mode) == 0 || Stored(buffer, mode, j, 3) == Pow2(Precision(mode, 3)) - 1
  {
    if AlphaBits(mode) > 0 {
      var s, p := Stored(buffer, mode, j, 3), Precision(mode, 3);
      EndpointReplicatesStored(buffer, mode, j, 3);
      AlphaPrecision(mode);
      AllOnesBits(s, p);
    }
  }

  /** Alpha endpoints carry 6 to 8 bits of precision, P-bit included. */
  lemma AlphaPrecision(mode: nat)
    requires mode < 8 && AlphaBits(mode) > 0
    ensures 6 <= Precision(mode, 3) <= 8
  {
    PBitFlagOf(mode);
  }

  /** Replicating p >= 6 bits gives 255 only from all ones. */
  lemma AllOnesBits(s: nat, p: nat)
    requires 6 <= p <= 8 && s < Pow2(p)
    ensures s * Pow2(8 - p) + s / Pow2(2 * p - 8) == 255 <==> s == Pow2(p) - 1
  {
    var a, b, q := Pow2(8 - p), Pow2(2 * p - 8), Pow2(p);
    Pow2Add(8 - p, p);
    Pow2Add(8 - p, 2 * p - 8);
    Pow2Monotone(8 - p, 2 * p - 8);
    Pow2Byte();
    AllOnes(s, a, b, q);
  }

  /** A byte s * a + s / b with a * b = q is 255 (a * q - 1 in general) only
      when s is all ones. */
  lemma AllOnes(s: nat, a: nat, b: nat, q: nat)
    requires a > 0 && b > 0 && q == a * b && s < q && a * q == 256 && a <= b
    ensures s * a + s / b == a * q - 1 <==> s == q - 1
  {
    if s == q - 1 {
      DivModUnique(s, b, a - 1, b - 1);
      assert s * a == a * q - a;
    } else {
      assert s <= q - 2;
      MulMonotone(a, s, q - 2);
      assert s / b <= a - 1 by { DivBelow(s, a, b); }
      assert s * a <= a * q - 2 * a;
    }
  }

  // ---------------------------------------------------------- the methods

  /** A 6 x 4 endpoint table. */
  predicate Table(e: seq<seq<nat>>)
  {
    |e| == 6 && forall j :: 0 <= j < 6 ==> |e[j]| == 4
  }

  /** The table with entry (j, c) set to v. */
  function Updated(e: seq<seq<nat>>, j: nat, c: nat, v: nat): (r: seq<seq<nat>>)
    requires Table(e) && j < 6 && c < 4
    ensures Table(r)
    ensures forall jj, cc :: 0 <= jj < 6 && 0 <= cc < 4 ==> r[jj][cc] == if jj == j && cc == c then v else e[jj][cc]
  {
    var row: seq<nat> := e[j][c := v];
    e[j := row]
  }

  lemma ColorPosNext(mode: nat, n: nat)
    requires mode < 8
    ensures ColorPos(mode, n + 1) == ColorPos(mode, n) + ColorBits(mode)
  {
  }

  lemma AlphaPosNext(mode: nat, j: nat)
    requires mode < 8
    ensures AlphaPos(mode, j + 1) == AlphaPos(mode, j) + AlphaBits(mode)
  {
  }

  /** "Extract endpoints": the colour fields component by component, then
      the alpha fields when the mode has them. */
  method ReadEndpoints(bit: BitReader, mode: nat, numEndpoints: nat) returns (e: seq<seq<nat>>)
    requires mode < 8 && numEndpoints == EndpointCount(mode) && bit.offset == EndpointStart(mode)
    modifies bit
    ensures bit.offset == PBitStart(mode)
    ensures Table(e)
    ensures forall j, c :: 0 <= j < 6 && 0 <= c < 4 ==> e[j][c] == Raw(bit.buffer, mode, j, c)
  {
    e := [[0, 0, 0, 0], [0, 0, 0, 0], [0, 0, 0, 0], [0, 0, 0, 0], [0, 0, 0, 0], [0, 0, 0, 0]];
    for i := 0 to 3
      invariant Table(e)
      invariant bit.offset == ColorPos(mode, i * numEndpoints)
      invariant forall j, c :: 0 <= j < 6 && 0 <= c < 4 ==>
                  e[j][c] == (if c < i then Raw(bit.buffer, mode, j, c) else 0)
    {
      e := ReadComponent(bit, mode, numEndpoints, i, e);
    }
    if AlphaBits(mode) > 0 {
      for j := 0 to numEndpoints
        invariant Table(e)
        invariant bit.offset == AlphaPos(mode, j)
        invariant forall jj, c :: 0 <= jj < 6 && 0 <= c < 4 ==>
                    e[jj][c] == (if c < 3 || jj < j then Raw(bit.buffer, mode, jj, c) else 0)
      {
        AlphaPosNext(mode, j);
        var v := bit.GetUint(AlphaBits(mode));
        e := Updated(e, j, 3, v);
      }
    }
  }

  /** Colour component i of every endpoint. */
  method ReadComponent(bit: BitReader, mode: nat, numEndpoints: nat, i: nat, e: seq<seq<nat>>) returns (e': seq<seq<nat>>)
    requires mode < 8 && numEndpoints == EndpointCount(mode) && i < 3
    requires bit.offset == ColorPos(mode, i * numEndpoints)
    requires Table(e) && forall j, c :: 0 <= j < 6 && 0 <= c < 4 ==>
               e[j][c] == (if c < i then Raw(bit.buffer, mode, j, c) else 0)
    modifies bit
    ensures bit.offset == ColorPos(mode, (i + 1) * numEndpoints)
    ensures Table(e') && forall j, c :: 0 <= j < 6 && 0 <= c < 4 ==>
              e'[j][c] == (if c <= i then Raw(bit.buffer, mode, j, c) else 0)
  {
    e' := e;
    for j := 0 to numEndpoints
      invariant Table(e')
      invariant bit.offset == ColorPos(mode, i * numEndpoints + j)
      invariant forall jj, c :: 0 <= jj < 6 && 0 <= c < 4 ==>
                  e'[jj][c] == (if c < i || (c == i && jj < j) then Raw(bit.buffer, mode, jj, c) else 0)
    {
      e' := ReadColourField(bit, mode, numEndpoints, i, j, e');
    }
    assert (i + 1) * numEndpoints == i * numEndpoints + numEndpoints;
  }

  /** Colour component i of endpoint j. */
  method ReadColourField(bit: BitReader, mode: nat, numEndpoints: nat, i: nat, j: nat, e: seq<seq<nat>>)
    returns (e': seq<seq<nat>>)
    requires mode < 8 && numEndpoints == EndpointCount(mode) && i < 3 && j < numEndpoints
    requires bit.offset == ColorPos(mode, i * numEndpoints + j)
    requires Table(e) && forall jj, c :: 0 <= jj < 6 && 0 <= c < 4 ==>
               e[jj][c] == (if c < i || (c == i && jj < j) then Raw(bit.buffer, mode, jj, c) else 0)
    modifies bit
    ensures bit.offset == ColorPos(mode, i * numEndpoints + j + 1)
    ensures Table(e') && forall jj, c :: 0 <= jj < 6 && 0 <= c < 4 ==>
              e'[jj][c] == (if c < i || (c == i && jj <= j) then Raw(bit.buffer, mode, jj, c) else 0)
  {
    ColorPosNext(mode, i * numEndpoints + j);
    var v := bit.GetUint(ColorBits(mode));
    e' := Updated(e, j, i, v);
  }

  /** "Fully decode endpoints", first step: in the P-bit modes every
      component is shifted left and or-ed with its endpoint's P-bit. */
  method ApplyPBits(bit: BitReader, mode: nat, numEndpoints: nat, e: seq<seq<nat>>) returns (e': seq<seq<nat>>)
    requires mode < 8 && numEndpoints == EndpointCount(mode) && bit.offset == PBitStart(mode)
    requires Table(e) && forall j, c :: 0 <= j < 6 && 0 <= c < 4 ==> e[j][c] == Raw(bit.buffer, mode, j, c)
    modifies bit
    ensures bit.offset == IndexStart(mode)
    ensures Table(e')
    ensures forall j, c :: 0 <= j < 6 && 0 <= c < 4 ==> e'[j][c] == WithPBit(bit.buffer, mode, j, c)
  {
    e' := e;
    if mode == 0 || mode == 1 || mode == 3 || mode == 6 || mode == 7 {
      e' := ShiftEndpoints(bit.buffer, mode, numEndpoints, e);
      if mode == 1 {
        e' := SharedPBits(bit, e');
      } else if PBitFlag(mode) == 1 {
        e' := OrPBits(bit, mode, numEndpoints, e');
      }
    }
  }

  /** Mode 1: two P-bits, the first for the colour of endpoints 0 and 1,
      the second for endpoints 2 and 3. */
  method SharedPBits(bit: BitReader, e: seq<seq<nat>>) returns (e': seq<seq<nat>>)
    requires bit.offset == PBitStart(1)
    requires Table(e) && forall j, c :: 0 <= j < 6 && 0 <= c < 4 ==> e[j][c] == 2 * Raw(bit.buffer, 1, j, c)
    modifies bit
    ensures bit.offset == PBitStart(1) + 2
    ensures Table(e')
    ensures forall j, c :: 0 <= j < 6 && 0 <= c < 4 ==> e'[j][c] == WithPBit(bit.buffer, 1, j, c)
  {
    var i := bit.GetUint(1);
    var j := bit.GetUint(1);
    assert i == PBitOf(bit.buffer, 1, 0) == PBitOf(bit.buffer, 1, 1);
    assert j == PBitOf(bit.buffer, 1, 2) == PBitOf(bit.buffer, 1, 3);
    e' := e;
    for k := 0 to 3
      invariant Table(e')
      invariant forall jj, c :: 0 <= jj < 6 && 0 <= c < 4 ==>
                  e'[jj][c] == (if c < k && jj < 4 then WithPBit(bit.buffer, 1, jj, c)
                                else 2 * Raw(bit.buffer, 1, jj, c))
    {
      e' := Updated(e', 0, k, Or(e'[0][k], i));
      e' := Updated(e', 1, k, Or(e'[1][k], i));
      e' := Updated(e', 2, k, Or(e'[2][k], j));
      e' := Updated(e', 3, k, Or(e'[3][k], j));
    }
  }

  /** The component-wise left shift `endpoints[i][j] <<= 1`. */
  method ShiftEndpoints(ghost buffer: seq<Byte>, mode: nat, numEndpoints: nat, e: seq<seq<nat>>) returns (e': seq<seq<nat>>)
    requires mode < 8 && numEndpoints == EndpointCount(mode)
    requires Table(e) && forall j, c :: 0 <= j < 6 && 0 <= c < 4 ==> e[j][c] == Raw(buffer, mode, j, c)
    ensures Table(e')
    ensures forall j, c :: 0 <= j < 6 && 0 <= c < 4 ==> e'[j][c] == 2 * Raw(buffer, mode, j, c)
  {
    e' := e;
    for i := 0 to numEndpoints
      invariant Table(e')
      invariant forall jj, c :: 0 <= jj < 6 && 0 <= c < 4 ==>
                  e'[jj][c] == (if jj < i then 2 * Raw(buffer, mode, jj, c) else Raw(buffer, mode, jj, c))
    {
      for j := 0 to 4
        invariant Table(e')
        invariant forall jj, c :: 0 <= jj < 6 && 0 <= c < 4 ==>
                    e'[jj][c] == (if jj < i || (jj == i && c < j) then 2 * Raw(buffer, mode, jj, c)
                                  else Raw(buffer, mode, jj, c))
      {
        e' := Updated(e', i, j, e'[i][j] * 2);
      }
    }
  }

  /** One P-bit per endpoint, or-ed into all four of its components. */
  method OrPBits(bit: BitReader, mode: nat, numEndpoints: nat, e: seq<seq<nat>>) returns (e': seq<seq<nat>>)
    requires mode < 8 && mode != 1 && HasPBits(mode) && PBitFlag(mode) == 1
    requires numEndpoints == EndpointCount(mode) && bit.offset == PBitStart(mode)
    requires Table(e) && forall j, c :: 0 <= j < 6 && 0 <= c < 4 ==> e[j][c] == 2 * Raw(bit.buffer, mode, j, c)
    modifies bit
    ensures bit.offset == PBitStart(mode) + numEndpoints
    ensures Table(e')
    ensures forall j, c :: 0 <= j < 6 && 0 <= c < 4 ==> e'[j][c] == WithPBit(bit.buffer, mode, j, c)
  {
    e' := e;
    for i := 0 to numEndpoints
      invariant Table(e')
      invariant bit.offset == PBitStart(mode) + i
      invariant forall jj, c :: 0 <= jj < 6 && 0 <= c < 4 ==>
                  e'[jj][c] == (if jj < i then WithPBit(bit.buffer, mode, jj, c) else 2 * Raw(bit.buffer, mode, jj, c))
    {
      e' := OrPBit(bit, mode, numEndpoints, i, e');
    }
  }

  /** The P-bit of endpoint i, or-ed into its four components. */
  method OrPBit(bit: BitReader, mode: nat, numEndpoints: nat, i: nat, e: seq<seq<nat>>) returns (e': seq<seq<nat>>)
    requires mode < 8 && mode != 1 && HasPBits(mode) && PBitFlag(mode) == 1
    requires numEndpoints == EndpointCount(mode) && i < numEndpoints && bit.offset == PBitStart(mode) + i
    requires Table(e) && forall jj, c :: 0 <= jj < 6 && 0 <= c < 4 ==>
               e[jj][c] == (if jj < i then WithPBit(bit.buffer, mode, jj, c) else 2 * Raw(bit.buffer, mode, jj, c))
    modifies bit
    ensures bit.offset == PBitStart(mode) + i + 1
    ensures Table(e') && forall jj, c :: 0 <= jj < 6 && 0 <= c < 4 ==>
              e'[jj][c] == (if jj <= i then WithPBit(bit.buffer, mode, jj, c) else 2 * Raw(bit.buffer, mode, jj, c))
  {
    var j := bit.GetUint(1);
    assert j == PBitOf(bit.buffer, mode, i);
    e' := e;
    for k := 0 to 4
      invariant Table(e')
      invariant forall jj, c :: 0 <= jj < 6 && 0 <= c < 4 ==>
                  e'[jj][c] == (if jj < i || (jj == i && c < k) then WithPBit(bit.buffer, mode, jj, c)
                                else 2 * Raw(bit.buffer, mode, jj, c))
    {
      e' := Updated(e', i, k, Or(e'[i][k], j));
    }
  }

  /** "Fully decode endpoints", second step: each component is expanded to
      8 bits; then the alpha of a mode without alpha bits is set to 0xFF. */
  method ExpandEndpoints(ghost buffer: seq<Byte>, mode: nat, numEndpoints: nat, e: seq<seq<nat>>) returns (e': seq<seq<nat>>)
    requires mode < 8 && numEndpoints == EndpointCount(mode)
    requires Table(e) && forall j, c :: 0 <= j < 6 && 0 <= c < 4 ==> e[j][c] == WithPBit(buffer, mode, j, c)
    ensures Table(e')
    ensures forall j, c :: 0 <= j < 6 && 0 <= c < 4 ==> e'[j][c] == Endpoint(buffer, mode, j, c)
  {
    e' := e;
    for i := 0 to numEndpoints
      invariant Table(e')
      invariant forall jj, c :: 0 <= jj < 6 && 0 <= c < 4 ==>
                  e'[jj][c] == (if jj < i then Expanded(buffer, mode, jj, c) else WithPBit(buffer, mode, jj, c))
    {
      var j := ColorBits(mode) + PBitFlag(mode);
      PBitFlagOf(mode);
      assert j == Precision(mode, 0);
      for k := 0 to 3
        invariant Table(e')
        invariant forall jj, c :: 0 <= jj < 6 && 0 <= c < 4 ==>
                    e'[jj][c] == (if jj < i || (jj == i && c < k) then Expanded(buffer, mode, jj, c)
                                  else WithPBit(buffer, mode, jj, c))
      {
        var v := ExpandComponent(e'[i][k], j);
        e' := Updated(e', i, k, v);
      }
      j := AlphaBits(mode) + PBitFlag(mode);
      assert j == Precision(mode, 3);
      var v := ExpandComponent(e'[i][3], j);
      e' := Updated(e', i, 3, v);
    }
    if AlphaBits(mode) == 0 {
      for j := 0 to numEndpoints
        invariant Table(e')
        invariant forall jj, c :: 0 <= jj < 6 && 0 <= c < 4 ==>
                    e'[jj][c] == (if c == 3 && jj < j then 255 else Expanded(buffer, mode, jj, c))
      {
        e' := Updated(e', j, 3, 255);
      }
    }
  }

  /** `x = x << (8 - j); x = x | (x >>> j)` on one component. */
  method ExpandComponent(x: nat, j: nat) returns (r: nat)
    requires j <= 8
    ensures r == Expand(x, j)
  {
    r := x * Pow2(8 - j);
    r := Or(r, r / Pow2(j));
  }
}
