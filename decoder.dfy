/** The decoders of pmx_model.c as the C code runs them: a cursor into the
    input that each read moves forward, `for` loops that fill caller-supplied
    arrays one record at a time, and the driver that allocates every section
    before filling it.

    The input is the byte sequence `buf`; the C `src` pointer is the index
    `pos` into it.  Every method is proved to compute exactly the matching
    function of module Grammar on the unread part `buf[pos..]` (predicate
    `Agrees`): the same value, the cursor moved to where that function's
    remainder begins, or the same error. */
module Decoder {
  import opened Wire
  import opened Layout
  import opened Grammar

  // ---------------------------------------------------------------------
  // get_field, get_field2, get_text (pmx_model.c:5-62)

  /** The `switch (size)` of `get_field`: one field of width `size` copied
      and the cursor moved past it; a width matching no case copies nothing. */
  method CopySlot(buf: seq<byte>, src: nat, size: nat) returns (field: seq<byte>, next: nat)
    requires src + Width(size) <= |buf|
    ensures next == src + Width(size) && field == buf[src..next]
  {
    field, next := [], src;
    if size == 1 {
      field, next := buf[src..src + 1], src + 1;
    } else if size == 2 {
      field, next := buf[src..src + 2], src + 2;
    } else if size == 4 {
      field, next := buf[src..src + 4], src + 4;
    }
  }

  /** `get_field`: `count` fields of `size` bytes copied verbatim, one switch
      case per field; a size outside {1, 2, 4} matches no case and copies
      nothing.  The length check before the loop is the bounds check the C
      code lacks. */
  method GetField(buf: seq<byte>, pos: nat, size: nat, count: nat) returns (r: Result<Decoded<seq<byte>>, Error>)
    requires pos <= |buf|
    ensures Agrees(buf, r, CopyAt(buf[pos..], size, count))
  {
    var w := Width(size);
    if |buf| - pos < Stride(count, w) {
      return Failure(Eof);
    }
    var src := pos;
    var out: seq<byte> := [];
    var i := 0;
    while i < count
      invariant i <= count && pos <= src
      invariant src + Stride(count - i, w) == pos + Stride(count, w) <= |buf|
      invariant out == buf[pos..src]
    {
      StrideShift(count - i - 1, w);
      var field, next := CopySlot(buf, src, size);
      assert buf[pos..src] + buf[src..next] == buf[pos..next];
      out, src, i := out + field, next, i + 1;
    }
    assert buf[pos..][..src - pos] == out;
    assert buf[pos..][src - pos..] == buf[src..];
    return Success(Decoded(out, src));
  }

  /** The slot one field of width `size` at `src` widens into: the
      little-endian value of its bytes.  When the width matches no case C
      writes nothing and the slot keeps what the destination held, which the
      model takes as 0. */
  function SlotAt(buf: seq<byte>, src: nat, size: nat): (v: uint32)
    requires IsWidth(size) ==> src + size <= |buf|
    ensures !IsWidth(size) ==> v == 0
  {
    if IsWidth(size) then Pow256Widths(); Le(buf[src..src + size]) else 0
  }

  /** The `switch (src_size)` of `get_field2`: a little-endian load of the
      field's width into a 32-bit slot and the cursor moved past it; a width
      matching no case writes nothing (the slot is taken as 0) and leaves the
      cursor where it was. */
  method LoadSlot(buf: seq<byte>, src: nat, size: nat) returns (v: uint32, next: nat)
    requires src + Width(size) <= |buf|
    ensures v == SlotAt(buf, src, size) && next == src + Width(size)
  {
    v, next := 0, src;
    if size == 1 {
      v := buf[src] as nat;
      assert buf[src..src + 1][1..] == [];
      next := src + 1;
    } else if size == 2 {
      LeOfTwo(buf[src..src + 2]);
      v := buf[src] as nat + 0x100 * buf[src + 1] as nat;
      next := src + 2;
    } else if size == 4 {
      LeOfFour(buf[src..src + 4]);
      v := buf[src] as nat + 0x100 * buf[src + 1] as nat + 0x1_0000 * buf[src + 2] as nat
         + 0x100_0000 * buf[src + 3] as nat;
      next := src + 4;
    }
  }

  /** The first slot of a widening read at cursor `src`, and the rest. */
  lemma WidenAtCursor(buf: seq<byte>, src: nat, size: nat, c: nat)
    requires src <= |buf| && c > 0 && WidenAt(buf[src..], size, c).Success?
    ensures src + Width(size) <= |buf|
    ensures WidenAt(buf[src + Width(size)..], size, c - 1).Success?
    ensures WidenAt(buf[src..], size, c)
         == Glue([SlotAt(buf, src, size)], WidenAt(buf[src + Width(size)..], size, c - 1))
  {
    WidenAtStep(buf[src..], size, c);
    assert buf[src..][Width(size)..] == buf[src + Width(size)..];
    if IsWidth(size) {
      assert buf[src..][..size] == buf[src..src + size];
    }
  }

  /** One iteration of `get_field2`'s loop keeps its invariant; `left` is
      the number of fields still to read. */
  lemma WidenStep(buf: seq<byte>, pos: nat, size: nat, count: nat, slots: seq<uint32>, src: nat, left: nat,
                   v: uint32, next: nat)
    requires pos <= |buf| && src <= |buf| && left > 0
    requires WidenAt(buf[src..], size, left).Success?
    requires WidenAt(buf[pos..], size, count) == Glue(slots, WidenAt(buf[src..], size, left))
    requires src + Width(size) <= |buf| && v == SlotAt(buf, src, size) && next == src + Width(size)
    ensures WidenAt(buf[next..], size, left - 1).Success?
    ensures WidenAt(buf[pos..], size, count) == Glue(slots + [v], WidenAt(buf[next..], size, left - 1))
  {
    WidenAtCursor(buf, src, size, left);
    GlueGlue(slots, [v], WidenAt(buf[next..], size, left - 1));
  }

  /** One pass of `get_field2`'s loop: the next field loaded into its slot,
      with the grammar's run split after it. */
  method NextSlot(buf: seq<byte>, pos: nat, size: nat, count: nat, slots: seq<uint32>, src: nat, ghost left: nat)
    returns (v: uint32, after: nat)
    requires pos <= |buf| && src <= |buf| && left > 0
    requires WidenAt(buf[src..], size, left).Success?
    requires WidenAt(buf[pos..], size, count) == Glue(slots, WidenAt(buf[src..], size, left))
    ensures after <= |buf| && WidenAt(buf[after..], size, left - 1).Success?
    ensures WidenAt(buf[pos..], size, count) == Glue(slots + [v], WidenAt(buf[after..], size, left - 1))
  {
    WidenAtCursor(buf, src, size, left);
    v, after := LoadSlot(buf, src, size);
    WidenStep(buf, pos, size, count, slots, src, left, v, after);
  }

  /** `get_field2`: `count` fields of width `size`, value k copied into the low
      bytes of 32-bit slot k.  The upper bytes, and every byte when the size
      is outside {1, 2, 4}, are left as the destination had them; the model
      takes them as 0, which is what the `calloc`ed section records hold and
      what the `malloc`ed offset and element lists are not guaranteed to. */
  method GetField2(buf: seq<byte>, pos: nat, size: nat, count: nat) returns (r: Result<Decoded<seq<uint32>>, Error>)
    requires pos <= |buf|
    ensures Agrees(buf, r, WidenAt(buf[pos..], size, count))
  {
    if |buf| - pos < Stride(count, Width(size)) {
      return Failure(Eof);
    }
    var slots, next := WidenSlots(buf, pos, size, count);
    return Success(Decoded(slots, next));
  }

  /** The copy loop of `get_field2`, once the whole run is known to fit. */
  method WidenSlots(buf: seq<byte>, pos: nat, size: nat, count: nat) returns (slots: seq<uint32>, next: nat)
    requires pos <= |buf| && WidenAt(buf[pos..], size, count).Success?
    ensures next <= |buf| && WidenAt(buf[pos..], size, count) == Success(Parsed(slots, buf[next..]))
  {
    var src: nat := pos;
    slots := [];
    var i := 0;
    ghost var left := count;
    GlueNothing(WidenAt(buf[pos..], size, count));
    while i < count
      invariant i <= count && left == count - i && src <= |buf|
      invariant WidenAt(buf[pos..], size, count) == Glue(slots, WidenAt(buf[src..], size, left))
      invariant WidenAt(buf[src..], size, left).Success?
    {
      var v: uint32, after: nat := NextSlot(buf, pos, size, count, slots, src, left);
      slots, src, i, left := slots + [v], after, i + 1, left - 1;
    }
    assert slots + [] == slots;
    next := src;
  }

  // ---------------------------------------------------------------------
  // Single fields: one `get_field` or `get_field2` call each.

  method ReadU8(buf: seq<byte>, pos: nat) returns (r: Result<Decoded<uint8>, Error>)
    requires pos <= |buf|
    ensures Agrees(buf, r, U8At(buf[pos..]))
  {
    var c :- GetField(buf, pos, 1, 1);
    Pow256Widths();
    return Success(Decoded(Le(c.value), c.next));
  }

  method ReadU16(buf: seq<byte>, pos: nat) returns (r: Result<Decoded<uint16>, Error>)
    requires pos <= |buf|
    ensures Agrees(buf, r, U16At(buf[pos..]))
  {
    var c :- GetField(buf, pos, 2, 1);
    Pow256Widths();
    return Success(Decoded(Le(c.value), c.next));
  }

  method ReadU32(buf: seq<byte>, pos: nat) returns (r: Result<Decoded<uint32>, Error>)
    requires pos <= |buf|
    ensures Agrees(buf, r, U32At(buf[pos..]))
  {
    var c :- GetField(buf, pos, 4, 1);
    Pow256Widths();
    return Success(Decoded(Le(c.value), c.next));
  }

  method ReadF32(buf: seq<byte>, pos: nat) returns (r: Result<Decoded<F32>, Error>)
    requires pos <= |buf|
    ensures Agrees(buf, r, F32At(buf[pos..]))
  {
    var c :- GetField(buf, pos, 4, 1);
    return Success(Decoded(WordOf(c.value, 0), c.next));
  }

  method ReadVec2(buf: seq<byte>, pos: nat) returns (r: Result<Decoded<Vec2>, Error>)
    requires pos <= |buf|
    ensures Agrees(buf, r, Vec2At(buf[pos..]))
  {
    var c :- GetField(buf, pos, 4, 2);
    return Success(Decoded(Vec2(WordOf(c.value, 0), WordOf(c.value, 1)), c.next));
  }

  method ReadVec3(buf: seq<byte>, pos: nat) returns (r: Result<Decoded<Vec3>, Error>)
    requires pos <= |buf|
    ensures Agrees(buf, r, Vec3At(buf[pos..]))
  {
    var c :- GetField(buf, pos, 4, 3);
    return Success(Decoded(Vec3Of(c.value, 0), c.next));
  }

  method ReadVec4(buf: seq<byte>, pos: nat) returns (r: Result<Decoded<Vec4>, Error>)
    requires pos <= |buf|
    ensures Agrees(buf, r, Vec4At(buf[pos..]))
  {
    var c :- GetField(buf, pos, 4, 4);
    return Success(Decoded(Vec4(WordOf(c.value, 0), WordOf(c.value, 1), WordOf(c.value, 2), WordOf(c.value, 3)), c.next));
  }

  /** `get_field2(src, &x, size, sizeof(uint32_t), 1)`: one index. */
  method ReadIndex(buf: seq<byte>, pos: nat, size: nat) returns (r: Result<Decoded<uint32>, Error>)
    requires pos <= |buf|
    ensures Agrees(buf, r, IndexAt(buf[pos..], size))
  {
    var c :- GetField2(buf, pos, size, 1);
    return Success(Decoded(c.value[0], c.next));
  }

  method ReadLimits(buf: seq<byte>, pos: nat) returns (r: Result<Decoded<Limits>, Error>)
    requires pos <= |buf|
    ensures Agrees(buf, r, LimitsAt(buf[pos..]))
  {
    var lo :- ReadVec3(buf, pos);
    var hi :- ReadVec3(buf, lo.next);
    return Success(Decoded(Limits(lo.value, hi.value), hi.next));
  }

  /** `get_text` (pmx_model.c:53-62): the length, the first min(len, 64)
      bytes copied, the cursor moved past all `len` bytes. */
  method GetText(buf: seq<byte>, pos: nat) returns (r: Result<Decoded<Text>, Error>)
    requires pos <= |buf|
    ensures Agrees(buf, r, TextAt(buf[pos..]))
  {
    var len :- ReadU32(buf, pos);
    if |buf| - len.next < len.value {
      return Failure(Eof);
    }
    var text := buf[len.next..len.next + Min(len.value, MAX_TEXT_LEN)];
    assert buf[len.next..][..Min(len.value, MAX_TEXT_LEN)] == text;
    assert buf[len.next..][len.value..] == buf[len.next + len.value..];
    return Success(Decoded(Text(len.value, text), len.next + len.value));
  }

  // ---------------------------------------------------------------------
  // Info (pmx_model.c:64-71)

  method ReadInfo(buf: seq<byte>, pos: nat) returns (r: Result<Decoded<Info>, Error>)
    requires pos <= |buf|
    ensures Agrees(buf, r, InfoAt(buf[pos..]))
  {
    var nj :- GetText(buf, pos);
    var ne :- GetText(buf, nj.next);
    var cj :- GetText(buf, ne.next);
    var ce :- GetText(buf, cj.next);
    return Success(Decoded(Info(nj.value, ne.value, cj.value, ce.value), ce.next));
  }

  // ---------------------------------------------------------------------
  // Vertices (pmx_model.c:73-106)

  /** The `switch (dst[i].weight_type)` of the vertex loop: the payload of
      each weight type, and failure for any other tag. */
  method ReadWeight(buf: seq<byte>, pos: nat, h: Header, tag: uint8) returns (r: Result<Decoded<Weight>, Error>)
    requires pos <= |buf|
    ensures Agrees(buf, r, WeightAt(h, tag, buf[pos..]))
  {
    match WeightTypeOf(tag)
    case Some(BDEF1) =>
      var i :- GetField2(buf, pos, h.boneIdxSize, 1);
      return Success(Decoded(Bdef1(i.value[0]), i.next));
    case Some(BDEF2) =>
      var i :- GetField2(buf, pos, h.boneIdxSize, 2);
      var w :- ReadU32(buf, i.next);
      return Success(Decoded(Bdef2(i.value[0], i.value[1], w.value), w.next));
    case Some(BDEF4) =>
      var i :- GetField2(buf, pos, h.boneIdxSize, 4);
      var w :- ReadVec4(buf, i.next);
      return Success(Decoded(Bdef4(i.value, w.value), w.next));
    case Some(SDEF) =>
      var i :- GetField2(buf, pos, h.boneIdxSize, 2);
      var w :- ReadU32(buf, i.next);
      var c :- GetField(buf, w.next, 4, 9);
      return Success(Decoded(Sdef(i.value[0], i.value[1], w.value, Vec3Of(c.value, 0), Vec3Of(c.value, 3), Vec3Of(c.value, 6)), c.next));
    case None =>
      return Failure(BadTag(WeightTypeTag, tag));
  }

  /** One iteration of `pmx_parse_vert`'s loop.  The cursor moves by exactly
      the vertex's size. */
  method ReadVertex(buf: seq<byte>, pos: nat, h: Header, ghost d: Rule<Vertex>) returns (r: Result<Decoded<Vertex>, Error>)
    requires pos <= |buf|
    requires forall t {:trigger VertexAt(h, t)} :: d(t) == VertexAt(h, t)
    ensures Agrees(buf, r, d(buf[pos..]))
  {
    assert d(buf[pos..]) == VertexAt(h, buf[pos..]);
    var p :- ReadVec3(buf, pos);
    var normal :- ReadVec3(buf, p.next);
    var uv :- ReadVec2(buf, normal.next);
    var tag :- ReadU8(buf, uv.next);
    var w :- ReadWeight(buf, tag.next, h, tag.value);
    var edge :- ReadU32(buf, w.next);
    return Success(Decoded(Vertex(p.value, normal.value, uv.value, w.value, edge.value), edge.next));
  }

  /** `pmx_parse_vert`: fills `dst` in order; the first failure ends it. */
  method ParseVertices(buf: seq<byte>, pos: nat, h: Header, dst: array<Vertex>, ghost d: Rule<Vertex>) returns (r: Result<nat, Error>)
    requires pos <= |buf|
    requires forall t {:trigger VertexAt(h, t)} :: d(t) == VertexAt(h, t)
    modifies dst
    ensures ListAgrees(buf, r, dst[..], Many(d, buf[pos..], dst.Length))
  {
    var src: nat, i := pos, 0;
    ghost var done: seq<Vertex> := [];
    GlueNothing(Many(d, buf[pos..], dst.Length));
    while i < dst.Length
      invariant i <= dst.Length && src <= |buf|
      invariant dst[..i] == done
      invariant Many(d, buf[pos..], dst.Length) == Glue(done, Many(d, buf[src..], dst.Length - i))
    {
      var x := ReadVertex(buf, src, h, d);
      ManyStep(d, buf, pos, dst.Length, done, src, i, x);
      if x.Failure? {
        return Failure(x.error);
      }
      dst[i] := x.value.value;
      done := done + [x.value.value];
      src, i := x.value.next, i + 1;
    }
    ManyDone(d, buf, pos, dst.Length, done, src);
    return Success(src);
  }


  // ---------------------------------------------------------------------
  // Faces (pmx_model.c:108-113)

  /** One triangle: three vertex indices widened from `vert_idx_size`. */
  method ReadFace(buf: seq<byte>, pos: nat, h: Header, ghost d: Rule<Face>) returns (r: Result<Decoded<Face>, Error>)
    requires pos <= |buf|
    requires forall t {:trigger FaceAt(h, t)} :: d(t) == FaceAt(h, t)
    ensures Agrees(buf, r, d(buf[pos..]))
  {
    assert d(buf[pos..]) == FaceAt(h, buf[pos..]);
    var i :- GetField2(buf, pos, h.vertIdxSize, 3);
    return Success(Decoded(Face(i.value[0], i.value[1], i.value[2]), i.next));
  }

  /** `pmx_parse_face`: fills `dst` with consecutive triangles. */
  method ParseFaces(buf: seq<byte>, pos: nat, h: Header, dst: array<Face>, ghost d: Rule<Face>) returns (r: Result<nat, Error>)
    requires pos <= |buf|
    requires forall t {:trigger FaceAt(h, t)} :: d(t) == FaceAt(h, t)
    modifies dst
    ensures ListAgrees(buf, r, dst[..], Many(d, buf[pos..], dst.Length))
  {
    var src: nat, i := pos, 0;
    ghost var done: seq<Face> := [];
    GlueNothing(Many(d, buf[pos..], dst.Length));
    while i < dst.Length
      invariant i <= dst.Length && src <= |buf|
      invariant dst[..i] == done
      invariant Many(d, buf[pos..], dst.Length) == Glue(done, Many(d, buf[src..], dst.Length - i))
    {
      var x := ReadFace(buf, src, h, d);
      ManyStep(d, buf, pos, dst.Length, done, src, i, x);
      if x.Failure? {
        return Failure(x.error);
      }
      dst[i] := x.value.value;
      done := done + [x.value.value];
      src, i := x.value.next, i + 1;
    }
    ManyDone(d, buf, pos, dst.Length, done, src);
    return Success(src);
  }

  // ---------------------------------------------------------------------
  // Textures (pmx_model.c:115-120)

  method ReadTexture(buf: seq<byte>, pos: nat, ghost d: Rule<Texture>) returns (r: Result<Decoded<Texture>, Error>)
    requires pos <= |buf|
    requires forall t {:trigger TextureAt(t)} :: d(t) == TextureAt(t)
    ensures Agrees(buf, r, d(buf[pos..]))
  {
    assert d(buf[pos..]) == TextureAt(buf[pos..]);
    var name :- GetText(buf, pos);
    return Success(Decoded(Texture(name.value), name.next));
  }

  /** `pmx_parse_tex`: fills `dst` with consecutive texture paths. */
  method ParseTextures(buf: seq<byte>, pos: nat, dst: array<Texture>, ghost d: Rule<Texture>) returns (r: Result<nat, Error>)
    requires pos <= |buf|
    requires forall t {:trigger TextureAt(t)} :: d(t) == TextureAt(t)
    modifies dst
    ensures ListAgrees(buf, r, dst[..], Many(d, buf[pos..], dst.Length))
  {
    var src: nat, i := pos, 0;
    ghost var done: seq<Texture> := [];
    GlueNothing(Many(d, buf[pos..], dst.Length));
    while i < dst.Length
      invariant i <= dst.Length && src <= |buf|
      invariant dst[..i] == done
      invariant Many(d, buf[pos..], dst.Length) == Glue(done, Many(d, buf[src..], dst.Length - i))
    {
      var x := ReadTexture(buf, src, d);
      ManyStep(d, buf, pos, dst.Length, done, src, i, x);
      if x.Failure? {
        return Failure(x.error);
      }
      dst[i] := x.value.value;
      done := done + [x.value.value];
      src, i := x.value.next, i + 1;
    }
    ManyDone(d, buf, pos, dst.Length, done, src);
    return Success(src);
  }

  // ---------------------------------------------------------------------
  // Materials (pmx_model.c:122-145)

  /** The colour fields of one material, diffuse through edge size. */
  method ReadSurface(buf: seq<byte>, pos: nat) returns (r: Result<Decoded<Surface>, Error>)
    requires pos <= |buf|
    ensures Agrees(buf, r, SurfaceAt(buf[pos..]))
  {
    var diffuse :- ReadVec4(buf, pos);
    var specular :- ReadVec3(buf, diffuse.next);
    var power :- ReadF32(buf, specular.next);
    var ambient :- ReadVec3(buf, power.next);
    var drawMode :- ReadU8(buf, ambient.next);
    var edge :- ReadVec4(buf, drawMode.next);
    var edgeSize :- ReadF32(buf, edge.next);
    return Success(Decoded(Surface(diffuse.value, specular.value, power.value, ambient.value,
                                   drawMode.value, edge.value, edgeSize.value), edgeSize.next));
  }

  /** The texture references of one material; the toon index is read at the
      texture width only when the toon mode is TOON_TEX. */
  method ReadMaps(buf: seq<byte>, pos: nat, h: Header) returns (r: Result<Decoded<Maps>, Error>)
    requires pos <= |buf|
    ensures Agrees(buf, r, MapsAt(h, buf[pos..]))
  {
    var tex :- ReadIndex(buf, pos, h.texIdxSize);
    var env :- ReadIndex(buf, tex.next, h.texIdxSize);
    var envMode :- ReadU8(buf, env.next);
    var toonMode :- ReadU8(buf, envMode.next);
    var toon :- ReadIndex(buf, toonMode.next, if toonMode.value == TOON_TEX then h.texIdxSize else 1);
    return Success(Decoded(Maps(tex.value, env.value, envMode.value, toonMode.value, toon.value), toon.next));
  }

  method ReadMaterial(buf: seq<byte>, pos: nat, h: Header, ghost d: Rule<Material>) returns (r: Result<Decoded<Material>, Error>)
    requires pos <= |buf|
    requires forall t {:trigger MaterialAt(h, t)} :: d(t) == MaterialAt(h, t)
    ensures Agrees(buf, r, d(buf[pos..]))
  {
    assert d(buf[pos..]) == MaterialAt(h, buf[pos..]);
    var nj :- GetText(buf, pos);
    var ne :- GetText(buf, nj.next);
    var sf :- ReadSurface(buf, ne.next);
    var mp :- ReadMaps(buf, sf.next, h);
    var memo :- GetText(buf, mp.next);
    var faces :- ReadU32(buf, memo.next);
    var f := sf.value;
    var m := mp.value;
    return Success(Decoded(Material(nj.value, ne.value, f.diffuse, f.specular, f.power, f.ambient,
                                    f.drawMode, f.edge, f.edgeSize, m.texIdx, m.envIdx, m.envMode,
                                    m.toonMode, m.toonIdx, memo.value, faces.value), faces.next));
  }

  /** `pmx_parse_mat`: fills `dst` with consecutive materials. */
  method ParseMaterials(buf: seq<byte>, pos: nat, h: Header, dst: array<Material>, ghost d: Rule<Material>) returns (r: Result<nat, Error>)
    requires pos <= |buf|
    requires forall t {:trigger MaterialAt(h, t)} :: d(t) == MaterialAt(h, t)
    modifies dst
    ensures ListAgrees(buf, r, dst[..], Many(d, buf[pos..], dst.Length))
  {
    var src: nat, i := pos, 0;
    ghost var done: seq<Material> := [];
    GlueNothing(Many(d, buf[pos..], dst.Length));
    while i < dst.Length
      invariant i <= dst.Length && src <= |buf|
      invariant dst[..i] == done
      invariant Many(d, buf[pos..], dst.Length) == Glue(done, Many(d, buf[src..], dst.Length - i))
    {
      var x := ReadMaterial(buf, src, h, d);
      ManyStep(d, buf, pos, dst.Length, done, src, i, x);
      if x.Failure? {
        return Failure(x.error);
      }
      dst[i] := x.value.value;
      done := done + [x.value.value];
      src, i := x.value.next, i + 1;
    }
    ManyDone(d, buf, pos, dst.Length, done, src);
    return Success(src);
  }

  // ---------------------------------------------------------------------
  // IK links (pmx_model.c:147-159)

  /** One IK link: the bone index, the limit flag and, iff it is non-zero,
      the lower and upper limits. */
  method ReadIkLink(buf: seq<byte>, pos: nat, h: Header, ghost d: Rule<IkLink>) returns (r: Result<Decoded<IkLink>, Error>)
    requires pos <= |buf|
    requires forall t {:trigger IkLinkAt(h, t)} :: d(t) == IkLinkAt(h, t)
    ensures Agrees(buf, r, d(buf[pos..]))
  {
    assert d(buf[pos..]) == IkLinkAt(h, buf[pos..]);
    var idx :- ReadIndex(buf, pos, h.boneIdxSize);
    var has :- ReadU8(buf, idx.next);
    if has.value != 0 {
      var lim :- ReadLimits(buf, has.next);
      return Success(Decoded(IkLink(idx.value, has.value, Some(lim.value)), lim.next));
    }
    return Success(Decoded(IkLink(idx.value, has.value, None), has.next));
  }

  /** `pmx_parse_ik`: fills `dst` with consecutive IK links. */
  method ParseIkLinks(buf: seq<byte>, pos: nat, h: Header, dst: array<IkLink>, ghost d: Rule<IkLink>) returns (r: Result<nat, Error>)
    requires pos <= |buf|
    requires forall t {:trigger IkLinkAt(h, t)} :: d(t) == IkLinkAt(h, t)
    modifies dst
    ensures ListAgrees(buf, r, dst[..], Many(d, buf[pos..], dst.Length))
  {
    var src: nat, i := pos, 0;
    ghost var done: seq<IkLink> := [];
    GlueNothing(Many(d, buf[pos..], dst.Length));
    while i < dst.Length
      invariant i <= dst.Length && src <= |buf|
      invariant dst[..i] == done
      invariant Many(d, buf[pos..], dst.Length) == Glue(done, Many(d, buf[src..], dst.Length - i))
    {
      var x := ReadIkLink(buf, src, h, d);
      ManyStep(d, buf, pos, dst.Length, done, src, i, x);
      if x.Failure? {
        return Failure(x.error);
      }
      dst[i] := x.value.value;
      done := done + [x.value.value];
      src, i := x.value.next, i + 1;
    }
    ManyDone(d, buf, pos, dst.Length, done, src);
    return Success(src);
  }

  // ---------------------------------------------------------------------
  // Bones (pmx_model.c:161-208)

  /** The bone tip: a target index when CONNECTED is set, else an offset. */
  method ReadTip(buf: seq<byte>, pos: nat, h: Header, flags: uint16) returns (r: Result<Decoded<Tip>, Error>)
    requires pos <= |buf|
    ensures Agrees(buf, r, TipAt(h, flags, buf[pos..]))
  {
    if HasFlag(flags, BONE_FLAG_CONNECTED) {
      var t :- ReadIndex(buf, pos, h.boneIdxSize);
      return Success(Decoded(TipTarget(t.value), t.next));
    }
    var o :- ReadVec3(buf, pos);
    return Success(Decoded(TipOffset(o.value), o.next));
  }

  /** The inherited rotation or movement, read when either LINK flag is set. */
  method ReadLink(buf: seq<byte>, pos: nat, h: Header, flags: uint16) returns (r: Result<Decoded<Option<BoneLink>>, Error>)
    requires pos <= |buf|
    ensures Agrees(buf, r, LinkAt(h, flags, buf[pos..]))
  {
    if HasFlag(flags, BONE_FLAG_LINK_ROTATION) || HasFlag(flags, BONE_FLAG_LINK_MOVE) {
      var idx :- ReadIndex(buf, pos, h.boneIdxSize);
      var rate :- ReadU32(buf, idx.next);
      return Success(Decoded(Some(BoneLink(idx.value, rate.value)), rate.next));
    }
    return Success(Decoded(None, pos));
  }

  method ReadFixedAxis(buf: seq<byte>, pos: nat, flags: uint16) returns (r: Result<Decoded<Option<Vec3>>, Error>)
    requires pos <= |buf|
    ensures Agrees(buf, r, FixedAxisAt(flags, buf[pos..]))
  {
    if HasFlag(flags, BONE_FLAG_FIXED_AXIS) {
      var v :- ReadVec3(buf, pos);
      return Success(Decoded(Some(v.value), v.next));
    }
    return Success(Decoded(None, pos));
  }

  method ReadLocalAxis(buf: seq<byte>, pos: nat, flags: uint16) returns (r: Result<Decoded<Option<LocalAxis>>, Error>)
    requires pos <= |buf|
    ensures Agrees(buf, r, LocalAxisAt(flags, buf[pos..]))
  {
    if HasFlag(flags, BONE_FLAG_LOCAL_AXIS) {
      var x :- ReadVec3(buf, pos);
      var z :- ReadVec3(buf, x.next);
      return Success(Decoded(Some(LocalAxis(x.value, z.value)), z.next));
    }
    return Success(Decoded(None, pos));
  }

  method ReadExtParent(buf: seq<byte>, pos: nat, flags: uint16) returns (r: Result<Decoded<Option<uint32>>, Error>)
    requires pos <= |buf|
    ensures Agrees(buf, r, ExtParentAt(flags, buf[pos..]))
  {
    if HasFlag(flags, BONE_FLAG_EXT_PARENT_TRANSFORM) {
      var k :- ReadU32(buf, pos);
      return Success(Decoded(Some(k.value), k.next));
    }
    return Success(Decoded(None, pos));
  }

  /** The `link_count > 0` block of `pmx_parse_bone`: a zero-filled array of
      `count` links is allocated and filled; no array at all for 0. */
  method ReadIkLinkList(buf: seq<byte>, pos: nat, h: Header, count: uint32) returns (r: Result<Decoded<seq<IkLink>>, Error>)
    requires pos <= |buf|
    ensures Agrees(buf, r, ManyIkLinks(h, buf[pos..], count))
  {
    if count == 0 {
      return Success(Decoded([], pos));
    }
    var arr := new IkLink[count](_ => IkLink(0, 0, None));
    var e := ParseIkLinks(buf, pos, h, arr, IkLinkDecoder(h));
    if e.Failure? {
      return Failure(e.error);
    }
    return Success(Decoded(arr[..], e.value));
  }

  /** The IK block: target, loop count, limit angle, link count, links. */
  method ReadIk(buf: seq<byte>, pos: nat, h: Header, flags: uint16) returns (r: Result<Decoded<Option<Ik>>, Error>)
    requires pos <= |buf|
    ensures Agrees(buf, r, IkAt(h, flags, buf[pos..]))
  {
    if !HasFlag(flags, BONE_FLAG_IK) {
      return Success(Decoded(None, pos));
    }
    var target :- ReadIndex(buf, pos, h.boneIdxSize);
    var loop :- ReadU32(buf, target.next);
    var angle :- ReadU32(buf, loop.next);
    var count :- ReadU32(buf, angle.next);
    var links :- ReadIkLinkList(buf, count.next, h, count.value);
    return Success(Decoded(Some(Ik(target.value, loop.value, angle.value, count.value, links.value)), links.next));
  }

  /** One iteration of `pmx_parse_bone`'s loop. */
  method ReadBone(buf: seq<byte>, pos: nat, h: Header, ghost d: Rule<Bone>) returns (r: Result<Decoded<Bone>, Error>)
    requires pos <= |buf|
    requires forall t {:trigger BoneAt(h, t)} :: d(t) == BoneAt(h, t)
    ensures Agrees(buf, r, d(buf[pos..]))
  {
    assert d(buf[pos..]) == BoneAt(h, buf[pos..]);
    var nj :- GetText(buf, pos);
    var ne :- GetText(buf, nj.next);
    var p :- ReadVec3(buf, ne.next);
    var parent :- ReadIndex(buf, p.next, h.boneIdxSize);
    var layer :- ReadU32(buf, parent.next);
    var flags :- ReadU16(buf, layer.next);
    var f := flags.value;
    var tip :- ReadTip(buf, flags.next, h, f);
    var link :- ReadLink(buf, tip.next, h, f);
    var fixed :- ReadFixedAxis(buf, link.next, f);
    var local :- ReadLocalAxis(buf, fixed.next, f);
    var ext :- ReadExtParent(buf, local.next, f);
    var ik :- ReadIk(buf, ext.next, h, f);
    return Success(Decoded(Bone(nj.value, ne.value, p.value, parent.value, layer.value, f,
                                tip.value, link.value, fixed.value, local.value, ext.value, ik.value), ik.next));
  }

  /** `pmx_parse_bone`: fills `dst` with consecutive bones. */
  method ParseBones(buf: seq<byte>, pos: nat, h: Header, dst: array<Bone>, ghost d: Rule<Bone>) returns (r: Result<nat, Error>)
    requires pos <= |buf|
    requires forall t {:trigger BoneAt(h, t)} :: d(t) == BoneAt(h, t)
    modifies dst
    ensures ListAgrees(buf, r, dst[..], Many(d, buf[pos..], dst.Length))
  {
    var src: nat, i := pos, 0;
    ghost var done: seq<Bone> := [];
    GlueNothing(Many(d, buf[pos..], dst.Length));
    while i < dst.Length
      invariant i <= dst.Length && src <= |buf|
      invariant dst[..i] == done
      invariant Many(d, buf[pos..], dst.Length) == Glue(done, Many(d, buf[src..], dst.Length - i))
    {
      var x := ReadBone(buf, src, h, d);
      ManyStep(d, buf, pos, dst.Length, done, src, i, x);
      if x.Failure? {
        return Failure(x.error);
      }
      dst[i] := x.value.value;
      done := done + [x.value.value];
      src, i := x.value.next, i + 1;
    }
    ManyDone(d, buf, pos, dst.Length, done, src);
    return Success(src);
  }

  // ---------------------------------------------------------------------
  // Morphs (pmx_model.c:210-280)

  method ReadGroupFlip(buf: seq<byte>, pos: nat, h: Header) returns (r: Result<Decoded<MorphOffset>, Error>)
    requires pos <= |buf|
    ensures Agrees(buf, r, GroupFlipAt(h, buf[pos..]))
  {
    var idx :- ReadIndex(buf, pos, h.rbIdxSize);
    var rate :- ReadU8(buf, idx.next);
    return Success(Decoded(GroupFlipOffset(idx.value, rate.value), rate.next));
  }

  method ReadVertexOffset(buf: seq<byte>, pos: nat, h: Header) returns (r: Result<Decoded<MorphOffset>, Error>)
    requires pos <= |buf|
    ensures Agrees(buf, r, VertexOffsetAt(h, buf[pos..]))
  {
    var idx :- ReadIndex(buf, pos, h.vertIdxSize);
    var off :- ReadVec3(buf, idx.next);
    return Success(Decoded(VertexOffset(idx.value, off.value), off.next));
  }

  method ReadBoneOffset(buf: seq<byte>, pos: nat, h: Header) returns (r: Result<Decoded<MorphOffset>, Error>)
    requires pos <= |buf|
    ensures Agrees(buf, r, BoneOffsetAt(h, buf[pos..]))
  {
    var idx :- ReadIndex(buf, pos, h.boneIdxSize);
    var move :- ReadVec3(buf, idx.next);
    var rot :- ReadVec4(buf, move.next);
    return Success(Decoded(BoneOffset(idx.value, move.value, rot.value), rot.next));
  }

  method ReadUvOffset(buf: seq<byte>, pos: nat, h: Header) returns (r: Result<Decoded<MorphOffset>, Error>)
    requires pos <= |buf|
    ensures Agrees(buf, r, UvOffsetAt(h, buf[pos..]))
  {
    var idx :- ReadIndex(buf, pos, h.vertIdxSize);
    var off :- ReadVec4(buf, idx.next);
    return Success(Decoded(UvOffset(idx.value, off.value), off.next));
  }

  /** The colour fields of a material morph offset. */
  method ReadTints(buf: seq<byte>, pos: nat) returns (r: Result<Decoded<Tints>, Error>)
    requires pos <= |buf|
    ensures Agrees(buf, r, TintsAt(buf[pos..]))
  {
    var diffuse :- ReadVec4(buf, pos);
    var specular :- ReadVec3(buf, diffuse.next);
    var power :- ReadF32(buf, specular.next);
    var ambient :- ReadVec3(buf, power.next);
    var edge :- ReadVec4(buf, ambient.next);
    var edgeSize :- ReadF32(buf, edge.next);
    var tex :- ReadVec4(buf, edgeSize.next);
    var env :- ReadVec4(buf, tex.next);
    var toon :- ReadVec4(buf, env.next);
    return Success(Decoded(Tints(diffuse.value, specular.value, power.value, ambient.value, edge.value,
                                 edgeSize.value, tex.value, env.value, toon.value), toon.next));
  }

  method ReadMaterialOffset(buf: seq<byte>, pos: nat, h: Header) returns (r: Result<Decoded<MorphOffset>, Error>)
    requires pos <= |buf|
    ensures Agrees(buf, r, MaterialOffsetAt(h, buf[pos..]))
  {
    var idx :- ReadIndex(buf, pos, h.matIdxSize);
    var op :- ReadU8(buf, idx.next);
    var tn :- ReadTints(buf, op.next);
    return Success(Decoded(MaterialOffset(idx.value, op.value, tn.value), tn.next));
  }

  method ReadImpulseOffset(buf: seq<byte>, pos: nat, h: Header) returns (r: Result<Decoded<MorphOffset>, Error>)
    requires pos <= |buf|
    ensures Agrees(buf, r, ImpulseOffsetAt(h, buf[pos..]))
  {
    var idx :- ReadIndex(buf, pos, h.rbIdxSize);
    var local :- ReadU8(buf, idx.next);
    var vel :- ReadVec3(buf, local.next);
    var torque :- ReadVec3(buf, vel.next);
    return Success(Decoded(ImpulseOffset(idx.value, local.value, vel.value, torque.value), torque.next));
  }

  /** The cases of the `switch (type)` in `pmx_parse_morph_offset`. */
  method ReadOffsetOfType(buf: seq<byte>, pos: nat, h: Header, t: MorphType) returns (r: Result<Decoded<MorphOffset>, Error>)
    requires pos <= |buf|
    ensures Agrees(buf, r, OffsetOfTypeAt(h, t, buf[pos..]))
  {
    match t
    case Group => r := ReadGroupFlip(buf, pos, h);
    case Flip => r := ReadGroupFlip(buf, pos, h);
    case VertexMorph => r := ReadVertexOffset(buf, pos, h);
    case BoneMorph => r := ReadBoneOffset(buf, pos, h);
    case Uv => r := ReadUvOffset(buf, pos, h);
    case AddUv1 => r := ReadUvOffset(buf, pos, h);
    case AddUv2 => r := ReadUvOffset(buf, pos, h);
    case AddUv3 => r := ReadUvOffset(buf, pos, h);
    case AddUv4 => r := ReadUvOffset(buf, pos, h);
    case MaterialMorph => r := ReadMaterialOffset(buf, pos, h);
    case Impulse => r := ReadImpulseOffset(buf, pos, h);
  }

  /** One iteration of `pmx_parse_morph_offset`'s loop: the layout the morph
      type selects, or failure (the `default: return NULL`) for any type byte
      above 10. */
  method ReadMorphOffset(buf: seq<byte>, pos: nat, h: Header, tag: uint8, ghost d: Rule<MorphOffset>) returns (r: Result<Decoded<MorphOffset>, Error>)
    requires pos <= |buf|
    requires forall t {:trigger MorphOffsetAt(h, tag, t)} :: d(t) == MorphOffsetAt(h, tag, t)
    ensures Agrees(buf, r, d(buf[pos..]))
  {
    assert d(buf[pos..]) == MorphOffsetAt(h, tag, buf[pos..]);
    match MorphTypeOf(tag)
    case None =>
      return Failure(BadTag(MorphTypeTag, tag));
    case Some(t) =>
      r := ReadOffsetOfType(buf, pos, h, t);
  }

  /** `pmx_parse_morph_offset`: fills `dst` with offsets in the layout of morph type `tag`. */
  method ParseMorphOffsets(buf: seq<byte>, pos: nat, h: Header, tag: uint8, dst: array<MorphOffset>, ghost d: Rule<MorphOffset>) returns (r: Result<nat, Error>)
    requires pos <= |buf|
    requires forall t {:trigger MorphOffsetAt(h, tag, t)} :: d(t) == MorphOffsetAt(h, tag, t)
    modifies dst
    ensures ListAgrees(buf, r, dst[..], Many(d, buf[pos..], dst.Length))
  {
    var src: nat, i := pos, 0;
    ghost var done: seq<MorphOffset> := [];
    GlueNothing(Many(d, buf[pos..], dst.Length));
    while i < dst.Length
      invariant i <= dst.Length && src <= |buf|
      invariant dst[..i] == done
      invariant Many(d, buf[pos..], dst.Length) == Glue(done, Many(d, buf[src..], dst.Length - i))
    {
      var x := ReadMorphOffset(buf, src, h, tag, d);
      ManyStep(d, buf, pos, dst.Length, done, src, i, x);
      if x.Failure? {
        return Failure(x.error);
      }
      dst[i] := x.value.value;
      done := done + [x.value.value];
      src, i := x.value.next, i + 1;
    }
    ManyDone(d, buf, pos, dst.Length, done, src);
    return Success(src);
  }

  /** The `offset_count > 0` block of `pmx_parse_morph`: an array of `count`
      offsets is allocated and filled; no array at all for 0. */
  method ReadOffsetList(buf: seq<byte>, pos: nat, h: Header, tag: uint8, count: uint32) returns (r: Result<Decoded<seq<MorphOffset>>, Error>)
    requires pos <= |buf|
    ensures Agrees(buf, r, ManyOffsets(h, tag, buf[pos..], count))
  {
    if count == 0 {
      return Success(Decoded([], pos));
    }
    var arr := new MorphOffset[count](_ => GroupFlipOffset(0, 0));
    var e := ParseMorphOffsets(buf, pos, h, tag, arr, MorphOffsetDecoder(h, tag));
    if e.Failure? {
      return Failure(e.error);
    }
    return Success(Decoded(arr[..], e.value));
  }

  /** One iteration of `pmx_parse_morph`'s loop. */
  method ReadMorph(buf: seq<byte>, pos: nat, h: Header, ghost d: Rule<Morph>) returns (r: Result<Decoded<Morph>, Error>)
    requires pos <= |buf|
    requires forall t {:trigger MorphAt(h, t)} :: d(t) == MorphAt(h, t)
    ensures Agrees(buf, r, d(buf[pos..]))
  {
    assert d(buf[pos..]) == MorphAt(h, buf[pos..]);
    var nj :- GetText(buf, pos);
    var ne :- GetText(buf, nj.next);
    var panel :- ReadU8(buf, ne.next);
    var tag :- ReadU8(buf, panel.next);
    var count :- ReadU32(buf, tag.next);
    var offs :- ReadOffsetList(buf, count.next, h, tag.value, count.value);
    return Success(Decoded(Morph(nj.value, ne.value, panel.value, tag.value, count.value, offs.value), offs.next));
  }

  /** `pmx_parse_morph`: fills `dst` with consecutive morphs. */
  method ParseMorphs(buf: seq<byte>, pos: nat, h: Header, dst: array<Morph>, ghost d: Rule<Morph>) returns (r: Result<nat, Error>)
    requires pos <= |buf|
    requires forall t {:trigger MorphAt(h, t)} :: d(t) == MorphAt(h, t)
    modifies dst
    ensures ListAgrees(buf, r, dst[..], Many(d, buf[pos..], dst.Length))
  {
    var src: nat, i := pos, 0;
    ghost var done: seq<Morph> := [];
    GlueNothing(Many(d, buf[pos..], dst.Length));
    while i < dst.Length
      invariant i <= dst.Length && src <= |buf|
      invariant dst[..i] == done
      invariant Many(d, buf[pos..], dst.Length) == Glue(done, Many(d, buf[src..], dst.Length - i))
    {
      var x := ReadMorph(buf, src, h, d);
      ManyStep(d, buf, pos, dst.Length, done, src, i, x);
      if x.Failure? {
        return Failure(x.error);
      }
      dst[i] := x.value.value;
      done := done + [x.value.value];
      src, i := x.value.next, i + 1;
    }
    ManyDone(d, buf, pos, dst.Length, done, src);
    return Success(src);
  }

  // ---------------------------------------------------------------------
  // Frames (pmx_model.c:282-317)

  /** One iteration of `pmx_parse_frame_elem`'s loop: the type byte, then a
      bone or morph index; any other type fails. */
  method ReadFrameElement(buf: seq<byte>, pos: nat, h: Header, ghost d: Rule<FrameElement>) returns (r: Result<Decoded<FrameElement>, Error>)
    requires pos <= |buf|
    requires forall t {:trigger FrameElementAt(h, t)} :: d(t) == FrameElementAt(h, t)
    ensures Agrees(buf, r, d(buf[pos..]))
  {
    assert d(buf[pos..]) == FrameElementAt(h, buf[pos..]);
    var tag :- ReadU8(buf, pos);
    match FrameElemTypeOf(tag.value)
    case None =>
      return Failure(BadTag(FrameElemTypeTag, tag.value));
    case Some(BoneElem) =>
      var idx :- ReadIndex(buf, tag.next, h.boneIdxSize);
      return Success(Decoded(FrameElement(BoneElem, idx.value), idx.next));
    case Some(MorphElem) =>
      var idx :- ReadIndex(buf, tag.next, h.morphIdxSize);
      return Success(Decoded(FrameElement(MorphElem, idx.value), idx.next));
  }

  /** `pmx_parse_frame_elem`: fills `dst` with consecutive frame elements. */
  method ParseFrameElements(buf: seq<byte>, pos: nat, h: Header, dst: array<FrameElement>, ghost d: Rule<FrameElement>) returns (r: Result<nat, Error>)
    requires pos <= |buf|
    requires forall t {:trigger FrameElementAt(h, t)} :: d(t) == FrameElementAt(h, t)
    modifies dst
    ensures ListAgrees(buf, r, dst[..], Many(d, buf[pos..], dst.Length))
  {
    var src: nat, i := pos, 0;
    ghost var done: seq<FrameElement> := [];
    GlueNothing(Many(d, buf[pos..], dst.Length));
    while i < dst.Length
      invariant i <= dst.Length && src <= |buf|
      invariant dst[..i] == done
      invariant Many(d, buf[pos..], dst.Length) == Glue(done, Many(d, buf[src..], dst.Length - i))
    {
      var x := ReadFrameElement(buf, src, h, d);
      ManyStep(d, buf, pos, dst.Length, done, src, i, x);
      if x.Failure? {
        return Failure(x.error);
      }
      dst[i] := x.value.value;
      done := done + [x.value.value];
      src, i := x.value.next, i + 1;
    }
    ManyDone(d, buf, pos, dst.Length, done, src);
    return Success(src);
  }

  /** The `elem_count > 0` block of `pmx_parse_frame`: an array of `count`
      elements is allocated and filled; no array at all for 0. */
  method ReadElementList(buf: seq<byte>, pos: nat, h: Header, count: uint32) returns (r: Result<Decoded<seq<FrameElement>>, Error>)
    requires pos <= |buf|
    ensures Agrees(buf, r, ManyElems(h, buf[pos..], count))
  {
    if count == 0 {
      return Success(Decoded([], pos));
    }
    var arr := new FrameElement[count](_ => FrameElement(BoneElem, 0));
    var e := ParseFrameElements(buf, pos, h, arr, FrameElementDecoder(h));
    if e.Failure? {
      return Failure(e.error);
    }
    return Success(Decoded(arr[..], e.value));
  }

  /** One iteration of `pmx_parse_frame`'s loop. */
  method ReadFrame(buf: seq<byte>, pos: nat, h: Header, ghost d: Rule<Frame>) returns (r: Result<Decoded<Frame>, Error>)
    requires pos <= |buf|
    requires forall t {:trigger FrameAt(h, t)} :: d(t) == FrameAt(h, t)
    ensures Agrees(buf, r, d(buf[pos..]))
  {
    assert d(buf[pos..]) == FrameAt(h, buf[pos..]);
    var nj :- GetText(buf, pos);
    var ne :- GetText(buf, nj.next);
    var special :- ReadU8(buf, ne.next);
    var count :- ReadU32(buf, special.next);
    var elems :- ReadElementList(buf, count.next, h, count.value);
    return Success(Decoded(Frame(nj.value, ne.value, special.value, count.value, elems.value), elems.next));
  }

  /** `pmx_parse_frame`: fills `dst` with consecutive display frames. */
  method ParseFrames(buf: seq<byte>, pos: nat, h: Header, dst: array<Frame>, ghost d: Rule<Frame>) returns (r: Result<nat, Error>)
    requires pos <= |buf|
    requires forall t {:trigger FrameAt(h, t)} :: d(t) == FrameAt(h, t)
    modifies dst
    ensures ListAgrees(buf, r, dst[..], Many(d, buf[pos..], dst.Length))
  {
    var src: nat, i := pos, 0;
    ghost var done: seq<Frame> := [];
    GlueNothing(Many(d, buf[pos..], dst.Length));
    while i < dst.Length
      invariant i <= dst.Length && src <= |buf|
      invariant dst[..i] == done
      invariant Many(d, buf[pos..], dst.Length) == Glue(done, Many(d, buf[src..], dst.Length - i))
    {
      var x := ReadFrame(buf, src, h, d);
      ManyStep(d, buf, pos, dst.Length, done, src, i, x);
      if x.Failure? {
        return Failure(x.error);
      }
      dst[i] := x.value.value;
      done := done + [x.value.value];
      src, i := x.value.next, i + 1;
    }
    ManyDone(d, buf, pos, dst.Length, done, src);
    return Success(src);
  }

  // ---------------------------------------------------------------------
  // Rigid bodies (pmx_model.c:319-340)

  method ReadRigidBody(buf: seq<byte>, pos: nat, h: Header, ghost d: Rule<RigidBody>) returns (r: Result<Decoded<RigidBody>, Error>)
    requires pos <= |buf|
    requires forall t {:trigger RigidBodyAt(h, t)} :: d(t) == RigidBodyAt(h, t)
    ensures Agrees(buf, r, d(buf[pos..]))
  {
    assert d(buf[pos..]) == RigidBodyAt(h, buf[pos..]);
    var nj :- GetText(buf, pos);
    var ne :- GetText(buf, nj.next);
    var bone :- ReadIndex(buf, ne.next, h.boneIdxSize);
    var group :- ReadU8(buf, bone.next);
    var noCollide :- ReadU16(buf, group.next);
    var shape :- ReadU8(buf, noCollide.next);
    var size :- ReadVec3(buf, shape.next);
    var p :- ReadVec3(buf, size.next);
    var rot :- ReadVec3(buf, p.next);
    var mass :- ReadU32(buf, rot.next);
    var moveDecay :- ReadU32(buf, mass.next);
    var rotDecay :- ReadU32(buf, moveDecay.next);
    var elastic :- ReadU32(buf, rotDecay.next);
    var friction :- ReadU32(buf, elastic.next);
    var kind :- ReadU8(buf, friction.next);
    return Success(Decoded(RigidBody(nj.value, ne.value, bone.value, group.value, noCollide.value, shape.value,
                                     size.value, p.value, rot.value, mass.value, moveDecay.value,
                                     rotDecay.value, elastic.value, friction.value, kind.value), kind.next));
  }

  /** `pmx_parse_rigidbody`: fills `dst` with consecutive rigid bodies. */
  method ParseRigidBodies(buf: seq<byte>, pos: nat, h: Header, dst: array<RigidBody>, ghost d: Rule<RigidBody>) returns (r: Result<nat, Error>)
    requires pos <= |buf|
    requires forall t {:trigger RigidBodyAt(h, t)} :: d(t) == RigidBodyAt(h, t)
    modifies dst
    ensures ListAgrees(buf, r, dst[..], Many(d, buf[pos..], dst.Length))
  {
    var src: nat, i := pos, 0;
    ghost var done: seq<RigidBody> := [];
    GlueNothing(Many(d, buf[pos..], dst.Length));
    while i < dst.Length
      invariant i <= dst.Length && src <= |buf|
      invariant dst[..i] == done
      invariant Many(d, buf[pos..], dst.Length) == Glue(done, Many(d, buf[src..], dst.Length - i))
    {
      var x := ReadRigidBody(buf, src, h, d);
      ManyStep(d, buf, pos, dst.Length, done, src, i, x);
      if x.Failure? {
        return Failure(x.error);
      }
      dst[i] := x.value.value;
      done := done + [x.value.value];
      src, i := x.value.next, i + 1;
    }
    ManyDone(d, buf, pos, dst.Length, done, src);
    return Success(src);
  }

  // ---------------------------------------------------------------------
  // Joints (pmx_model.c:342-361)

  method ReadJoint(buf: seq<byte>, pos: nat, h: Header, ghost d: Rule<Joint>) returns (r: Result<Decoded<Joint>, Error>)
    requires pos <= |buf|
    requires forall t {:trigger JointAt(h, t)} :: d(t) == JointAt(h, t)
    ensures Agrees(buf, r, d(buf[pos..]))
  {
    assert d(buf[pos..]) == JointAt(h, buf[pos..]);
    var nj :- GetText(buf, pos);
    var ne :- GetText(buf, nj.next);
    var kind :- ReadU8(buf, ne.next);
    var a :- ReadIndex(buf, kind.next, h.rbIdxSize);
    var b :- ReadIndex(buf, a.next, h.rbIdxSize);
    var p :- ReadVec3(buf, b.next);
    var rot :- ReadVec3(buf, p.next);
    var posLimit :- ReadLimits(buf, rot.next);
    var rotLimit :- ReadLimits(buf, posLimit.next);
    var springPos :- ReadVec3(buf, rotLimit.next);
    var springRot :- ReadVec3(buf, springPos.next);
    return Success(Decoded(Joint(nj.value, ne.value, kind.value, a.value, b.value, p.value, rot.value,
                                 posLimit.value, rotLimit.value, springPos.value, springRot.value), springRot.next));
  }

  /** `pmx_parse_joint`: fills `dst` with consecutive joints. */
  method ParseJoints(buf: seq<byte>, pos: nat, h: Header, dst: array<Joint>, ghost d: Rule<Joint>) returns (r: Result<nat, Error>)
    requires pos <= |buf|
    requires forall t {:trigger JointAt(h, t)} :: d(t) == JointAt(h, t)
    modifies dst
    ensures ListAgrees(buf, r, dst[..], Many(d, buf[pos..], dst.Length))
  {
    var src: nat, i := pos, 0;
    ghost var done: seq<Joint> := [];
    GlueNothing(Many(d, buf[pos..], dst.Length));
    while i < dst.Length
      invariant i <= dst.Length && src <= |buf|
      invariant dst[..i] == done
      invariant Many(d, buf[pos..], dst.Length) == Glue(done, Many(d, buf[src..], dst.Length - i))
    {
      var x := ReadJoint(buf, src, h, d);
      ManyStep(d, buf, pos, dst.Length, done, src, i, x);
      if x.Failure? {
        return Failure(x.error);
      }
      dst[i] := x.value.value;
      done := done + [x.value.value];
      src, i := x.value.next, i + 1;
    }
    ManyDone(d, buf, pos, dst.Length, done, src);
    return Success(src);
  }
}
