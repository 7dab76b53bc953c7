/** PSP GU vertex-format words (`vtxdef`): bit fields select the size of the
    texture, colour, normal and position components of a vertex, and the
    stride computation lays them out one after another with natural
    alignment. */
module PspGu {
  import opened Bytes

  const TEXTURE_BIT: nat := 0
  const COLOR_BIT: nat := 2
  const NORMAL_BIT: nat := 5
  const VERTEX_BIT: nat := 7
  const WEIGHTS_BIT: nat := 14
  const VERTICES_BIT: nat := 18

  /** One vertex component: its raw field (`type`), the byte size of one
      element, where it starts, the padding inserted before it, and how many
      elements it has. */
  datatype AttributeInfo = AttributeInfo(kind: nat, size: nat, offset: nat, padding: nat, count: nat) {
    function End(): nat {
      offset + size * count
    }
  }

  datatype StrideInfo = StrideInfo(texture: AttributeInfo, color: AttributeInfo, normal: AttributeInfo, vertex: AttributeInfo)

  /** Size of one texture, normal or position element for a 2-bit field:
      1 and 2 are 8- and 16-bit, 3 is a 32-bit float, 0 is absent. */
  function ElementSize(bits: nat): (r: nat)
    ensures bits == 0 ==> r == 0
    ensures bits == 3 ==> r == 4
    ensures bits != 0 && bits != 3 ==> r == bits
  {
    if bits == 0 then 0 else if bits == 3 then 4 else bits
  }

  /** Size of the colour for its 3-bit field: 7 is 8888 (4 bytes), 0 is
      absent, every other value is a 16-bit format. */
  function ColorSize(bits: nat): (r: nat)
    ensures bits == 0 ==> r == 0
    ensures bits == 7 ==> r == 4
    ensures bits != 0 && bits != 7 ==> r == 2
  {
    if bits == 0 then 0 else if bits == 7 then 4 else 2
  }

  /** Bytes needed after `end` to reach a multiple of `size`; no padding for
      sizes of 0 and 1. */
  function Padding(end: nat, size: nat): (r: nat)
    ensures size > 1 ==> r < size && (end + r) % size == 0
    ensures size <= 1 ==> r == 0
  {
    if size > 1 then
      if end % size == 0 then 0
      else
        DivModUnique(end + (size - end % size), size, end / size + 1, 0);
        size - end % size
    else 0
  }

  /** Lays a component out after `end`. */
  function Place(kind: nat, size: nat, end: nat, count: nat): (a: AttributeInfo)
    ensures a.offset == end + a.padding && a.kind == kind && a.size == size && a.count == count
    ensures size > 1 ==> a.offset % size == 0 && a.padding < size
    ensures size <= 1 ==> a.padding == 0
  {
    var padding := Padding(end, size);
    AttributeInfo(kind, size, end + padding, padding, count)
  }

  /** `strideInfo(vtxdef)`. */
  function StrideInfoOf(vtxdef: int): (r: StrideInfo)
    // the component kinds are the raw fields
    ensures r.texture.kind == Field(vtxdef, TEXTURE_BIT, 2) && r.color.kind == Field(vtxdef, COLOR_BIT, 3)
    ensures r.normal.kind == Field(vtxdef, NORMAL_BIT, 2) && r.vertex.kind == Field(vtxdef, VERTEX_BIT, 2)
    // sizes
    ensures r.texture.size == ElementSize(r.texture.kind) && r.normal.size == ElementSize(r.normal.kind)
    ensures r.vertex.size == ElementSize(r.vertex.kind) && r.color.size == ColorSize(r.color.kind)
    // element counts
    ensures r.texture.count == 2 && r.color.count == 1 && r.normal.count == 3
    ensures Field(vtxdef, VERTICES_BIT, 3) != 0 ==> r.vertex.count == Field(vtxdef, VERTICES_BIT, 3)
    ensures Field(vtxdef, VERTICES_BIT, 3) == 0 ==> r.vertex.count == (if r.vertex.size == 0 then 0 else 3)
    // layout: texture first, each next component right after the previous one plus padding
    ensures r.texture.offset == 0 && r.texture.padding == 0
    ensures r.color.offset == r.texture.End() + r.color.padding
    ensures r.normal.offset == r.color.End() + r.normal.padding
    ensures r.vertex.offset == r.normal.End() + r.vertex.padding
    // alignment of every component to its element size
    ensures Aligned(r.color) && Aligned(r.normal) && Aligned(r.vertex)
  {
    Pow2Low();
    var textureBits := Field(vtxdef, TEXTURE_BIT, 2);
    var texture := AttributeInfo(textureBits, ElementSize(textureBits), 0, 0, 2);
    var colorBits := Field(vtxdef, COLOR_BIT, 3);
    var color := Place(colorBits, ColorSize(colorBits), texture.End(), 1);
    var normalBits := Field(vtxdef, NORMAL_BIT, 2);
    var normal := Place(normalBits, ElementSize(normalBits), color.End(), 3);
    var vertexBits := Field(vtxdef, VERTEX_BIT, 2);
    var vertexSize := ElementSize(vertexBits);
    var vertexCount := Field(vtxdef, VERTICES_BIT, 3);
    var vertex := Place(vertexBits, vertexSize, normal.End(),
                        if vertexCount != 0 then vertexCount else if vertexSize == 0 then 0 else 3);
    StrideInfo(texture, color, normal, vertex)
  }

  /** A component is aligned when its offset is a multiple of its size and
      the padding before it is smaller than that size. */
  predicate Aligned(a: AttributeInfo) {
    a.size > 1 ==> a.offset % a.size == 0 && a.padding < a.size
  }

  /** The components never overlap and come in the order texture, colour,
      normal, position. */
  lemma {:induction false} ComponentsInOrder(vtxdef: int)
    ensures var r := StrideInfoOf(vtxdef);
            r.texture.End() <= r.color.offset && r.color.End() <= r.normal.offset &&
            r.normal.End() <= r.vertex.offset
    ensures var r := StrideInfoOf(vtxdef);
            r.texture.offset <= r.color.offset <= r.normal.offset <= r.vertex.offset
  {
    var r := StrideInfoOf(vtxdef);
    assert r.texture.offset <= r.texture.End();
    assert r.color.offset <= r.color.End();
    assert r.normal.offset <= r.normal.End();
  }

  /** `strideSize(vtxdef, align)`: the end of the position component, rounded
      up to a multiple of `align` when align > 1. */
  function StrideSize(vtxdef: int, align: int): (size: nat)
    ensures size >= StrideInfoOf(vtxdef).vertex.End()
    ensures align > 1 ==> size % align == 0 && size - StrideInfoOf(vtxdef).vertex.End() < align
    ensures align <= 1 ==> size == StrideInfoOf(vtxdef).vertex.End()
  {
    AlignUp(StrideInfoOf(vtxdef).vertex.End(), align)
  }

  /** `if (align > 1) size += size % align == 0 ? 0 : align - (size % align)`. */
  function AlignUp(size: nat, align: int): (r: nat)
    ensures r >= size
    ensures align > 1 ==> r % align == 0 && r - size < align
    ensures align <= 1 ==> r == size
  {
    if align > 1 then size + Padding(size, align) else size
  }

  /** `WEIGHTS(n)` / `VERTICES(n)`: n - 1 in a 3-bit field. */
  function Weights(n: int): (r: nat)
  {
    ((n - 1) % 8) * Pow2(WEIGHTS_BIT)
  }

  function Vertices(n: int): (r: nat)
  {
    ((n - 1) % 8) * Pow2(VERTICES_BIT)
  }

  /** `VERTICES(n)` sets only bits 18-20, and `strideInfo` reads back n - 1
      from them: so VERTICES(1) leaves the count to its default. */
  lemma VerticesField(n: int)
    ensures Field(Vertices(n), VERTICES_BIT, 3) == (n - 1) % 8
    ensures Vertices(n) % Pow2(VERTICES_BIT) == 0 && Vertices(n) < Pow2(21)
  {
    Pow2Table();
    assert Pow2(21) == 8 * Pow2(18) by { Pow2Add(3, 18); }
  }

  lemma WeightsField(n: int)
    ensures Field(Weights(n), WEIGHTS_BIT, 3) == (n - 1) % 8
    ensures Weights(n) % Pow2(WEIGHTS_BIT) == 0 && Weights(n) < Pow2(17)
  {
    Pow2Table();
    assert Pow2(17) == 8 * Pow2(14) by { Pow2Add(3, 14); }
  }

  /** `ABGR(a, b, g, r)`: `(a << 24) | (b << 16) | (g << 8) | r`, a signed
      32-bit number. The four bytes occupy disjoint bits, so the `|` is the
      sum of the shifted bytes. */
  function Abgr(a: Byte, b: Byte, g: Byte, r: Byte): (c: int)
    ensures -0x8000_0000 <= c < 0x8000_0000
    ensures Field(c, 0, 8) == r && Field(c, 8, 8) == g && Field(c, 16, 8) == b && Field(c, 24, 8) == a
  {
    var v := a * 0x100_0000 + b * 0x1_0000 + g * 0x100 + r;
    ChannelsOf(a, b, g, r);
    ToInt32(v)
  }

  lemma ChannelsOf(a: Byte, b: Byte, g: Byte, r: Byte)
    ensures var c := ToInt32(a * 0x100_0000 + b * 0x1_0000 + g * 0x100 + r);
            Field(c, 0, 8) == r && Field(c, 8, 8) == g && Field(c, 16, 8) == b && Field(c, 24, 8) == a
  {
    Pow2Table();
    var v := a * 0x100_0000 + b * 0x1_0000 + g * 0x100 + r;
    var c := ToInt32(v);
    var top := if a < 0x80 then a else a - 0x100;
    assert c == top * 0x100_0000 + b * 0x1_0000 + g * 0x100 + r;
    DivModUnique(c, 0x100_0000, top, b * 0x1_0000 + g * 0x100 + r);
    DivModUnique(top, 0x100, if a < 0x80 then 0 else -1, a);
    DivModUnique(c, 0x1_0000, top * 0x100 + b, g * 0x100 + r);
    DivModUnique(top * 0x100 + b, 0x100, top, b);
    DivModUnique(c, 0x100, top * 0x1_0000 + b * 0x100 + g, r);
    DivModUnique(top * 0x1_0000 + b * 0x100 + g, 0x100, top * 0x100 + b, g);
    DivModUnique(c, 1, c, 0);
    DivModUnique(c, 0x100, c / 0x100, r);
  }

  /** `ARGB(a, r, g, b)` only reorders its parameters: red still lands in
      the low byte. */
  function Argb(a: Byte, r: Byte, g: Byte, b: Byte): (c: int)
    ensures -0x8000_0000 <= c < 0x8000_0000
    ensures Field(c, 0, 8) == r && Field(c, 8, 8) == g && Field(c, 16, 8) == b && Field(c, 24, 8) == a
  {
    Abgr(a, b, g, r)
  }

  /** `RGBA(r, g, b, a)`: red in bits 0-7, green 8-15, blue 16-23, alpha 24-31. */
  function Rgba(r: Byte, g: Byte, b: Byte, a: Byte): (c: int)
    ensures -0x8000_0000 <= c < 0x8000_0000
    ensures Field(c, 0, 8) == r && Field(c, 8, 8) == g && Field(c, 16, 8) == b && Field(c, 24, 8) == a
  {
    Argb(a, r, g, b)
  }
}
