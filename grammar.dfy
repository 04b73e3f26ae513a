/** The PMX decoder as a grammar: one pure function per decoder of
    pmx_model.c, each taking the unread part of the buffer (the C `src`
    pointer) and yielding the decoded value and the bytes after it.  The
    imperative decoders in module Decoder are proved to compute exactly these
    functions.

    Every record function states how many bytes it consumes as an independent
    size function of the header and the decoded value, which is the byte
    accounting the C cursor arithmetic performs. */
module Grammar {
  import opened Wire
  import opened Layout

  type Rule<T> = seq<byte> -> Result<Parsed<T>, Error>

  // ---------------------------------------------------------------------
  // Fixed-width fields, each one `get_field` call.

  /** `get_field(src, &x, sizeof(uint8_t), 1)`. */
  function U8At(s: seq<byte>): (r: Result<Parsed<uint8>, Error>)
    ensures r.Success? ==> Consumed(s, r.value.rest, 1) && r.value.value == s[0] as int
    ensures r.Failure? <==> |s| < 1
    ensures r.Failure? ==> r.error == Eof
  {
    var c :- CopyAt(s, 1, 1);
    Pow256Widths();
    Success(Parsed(Le(c.value), c.rest))
  }

  /** `get_field(src, &x, sizeof(uint16_t), 1)`: little-endian. */
  function U16At(s: seq<byte>): (r: Result<Parsed<uint16>, Error>)
    ensures r.Success? ==> Consumed(s, r.value.rest, 2) && r.value.value == Le(s[..2])
    ensures r.Failure? <==> |s| < 2
    ensures r.Failure? ==> r.error == Eof
  {
    var c :- CopyAt(s, 2, 1);
    Pow256Widths();
    Success(Parsed(Le(c.value), c.rest))
  }

  /** `get_field(src, &x, sizeof(uint32_t), 1)`, also used for a single float. */
  function U32At(s: seq<byte>): (r: Result<Parsed<uint32>, Error>)
    ensures r.Success? ==> Consumed(s, r.value.rest, 4) && r.value.value == Le(s[..4])
    ensures r.Failure? <==> |s| < 4
    ensures r.Failure? ==> r.error == Eof
  {
    var c :- CopyAt(s, 4, 1);
    Pow256Widths();
    Success(Parsed(Le(c.value), c.rest))
  }

  /** Float k of a block of copied floats. */
  function WordOf(bytes: seq<byte>, k: nat): (w: uint32)
    requires 4 * k + 4 <= |bytes|
  {
    Pow256Widths();
    Le(bytes[4 * k..4 * k + 4])
  }

  /** The float whose bit pattern is the four bytes of `s` at offset `o`:
      floats are only copied, never interpreted. */
  function FloatAt(s: seq<byte>, o: nat): uint32
    requires o + 4 <= |s|
  {
    Pow256Widths();
    Le(s[o..o + 4])
  }

  /** The three floats at offset `o` of `s`. */
  function Vec3From(s: seq<byte>, o: nat): Vec3
    requires o + 12 <= |s|
  {
    Vec3(FloatAt(s, o), FloatAt(s, o + 4), FloatAt(s, o + 8))
  }

  /** The four floats at offset `o` of `s`. */
  function Vec4From(s: seq<byte>, o: nat): Vec4
    requires o + 16 <= |s|
  {
    Vec4(FloatAt(s, o), FloatAt(s, o + 4), FloatAt(s, o + 8), FloatAt(s, o + 12))
  }

  /** A float of a copied block is the float at the same offset of the input. */
  lemma WordOfPrefix(c: seq<byte>, rest: seq<byte>, k: nat)
    requires 4 * k + 4 <= |c|
    ensures WordOf(c, k) == FloatAt(c + rest, 4 * k)
  {
    assert (c + rest)[4 * k..4 * k + 4] == c[4 * k..4 * k + 4];
  }

  /** A float read after `o` bytes is the float at offset `o` of the input. */
  lemma FloatAtShift(s: seq<byte>, o: nat, k: nat)
    requires o + k + 4 <= |s|
    ensures FloatAt(s[o..], k) == FloatAt(s, o + k)
  {
    assert s[o..][k..k + 4] == s[o + k..o + k + 4];
  }

  lemma Vec3Shift(s: seq<byte>, o: nat)
    requires o + 12 <= |s|
    ensures Vec3From(s[o..], 0) == Vec3From(s, o)
  {
    FloatAtShift(s, o, 0);
    FloatAtShift(s, o, 4);
    FloatAtShift(s, o, 8);
  }

  /** `get_field(src, &x, sizeof(float), 1)`: one float, kept as its bits.
      The same read as `U32At`, stated as a float like the vector reads. */
  function F32At(s: seq<byte>): (r: Result<Parsed<F32>, Error>)
    ensures r.Success? ==> Consumed(s, r.value.rest, 4) && r.value.value == FloatAt(s, 0)
    ensures r.Failure? <==> |s| < 4
    ensures r.Failure? ==> r.error == Eof
  {
    var c :- CopyAt(s, 4, 1);
    WordOfPrefix(c.value, c.rest, 0);
    Success(Parsed(WordOf(c.value, 0), c.rest))
  }

  function Vec3Of(bytes: seq<byte>, k: nat): Vec3
    requires 4 * k + 12 <= |bytes|
  {
    Vec3(WordOf(bytes, k), WordOf(bytes, k + 1), WordOf(bytes, k + 2))
  }

  /** `get_field(src, v, sizeof(float), 2)`. */
  function Vec2At(s: seq<byte>): (r: Result<Parsed<Vec2>, Error>)
    ensures r.Success? ==> Consumed(s, r.value.rest, 8)
    ensures r.Success? ==> r.value.value == Vec2(FloatAt(s, 0), FloatAt(s, 4))
    ensures r.Failure? <==> |s| < 8
    ensures r.Failure? ==> r.error == Eof
  {
    var c :- CopyAt(s, 4, 2);
    WordOfPrefix(c.value, c.rest, 0);
    WordOfPrefix(c.value, c.rest, 1);
    Success(Parsed(Vec2(WordOf(c.value, 0), WordOf(c.value, 1)), c.rest))
  }

  /** `get_field(src, v, sizeof(float), 3)`. */
  function Vec3At(s: seq<byte>): (r: Result<Parsed<Vec3>, Error>)
    ensures r.Success? ==> Consumed(s, r.value.rest, 12)
    ensures r.Success? ==> r.value.value == Vec3From(s, 0)
    ensures r.Failure? <==> |s| < 12
    ensures r.Failure? ==> r.error == Eof
  {
    var c :- CopyAt(s, 4, 3);
    WordOfPrefix(c.value, c.rest, 0);
    WordOfPrefix(c.value, c.rest, 1);
    WordOfPrefix(c.value, c.rest, 2);
    Success(Parsed(Vec3Of(c.value, 0), c.rest))
  }

  /** `get_field(src, v, sizeof(float), 4)`. */
  function Vec4At(s: seq<byte>): (r: Result<Parsed<Vec4>, Error>)
    ensures r.Success? ==> Consumed(s, r.value.rest, 16)
    ensures r.Success? ==> r.value.value == Vec4From(s, 0)
    ensures r.Failure? <==> |s| < 16
    ensures r.Failure? ==> r.error == Eof
  {
    var c :- CopyAt(s, 4, 4);
    WordOfPrefix(c.value, c.rest, 0);
    WordOfPrefix(c.value, c.rest, 1);
    WordOfPrefix(c.value, c.rest, 2);
    WordOfPrefix(c.value, c.rest, 3);
    Success(Parsed(Vec4(WordOf(c.value, 0), WordOf(c.value, 1), WordOf(c.value, 2), WordOf(c.value, 3)), c.rest))
  }

  /** Two consecutive 3-vectors, each its own `get_field` call. */
  function LimitsAt(s: seq<byte>): (r: Result<Parsed<Limits>, Error>)
    ensures r.Success? ==> Took(s, r.value.rest, 24)
    ensures r.Success? ==> r.value.value == Limits(Vec3From(s, 0), Vec3From(s, 12))
    ensures r.Failure? <==> |s| < 24
    ensures r.Failure? ==> r.error == Eof
  {
    var lo :- Vec3At(s);
    var hi :- Vec3At(lo.rest);
    Vec3Shift(s, 12);
    Success(Parsed(Limits(lo.value, hi.value), hi.rest))
  }

  // ---------------------------------------------------------------------
  // Text

  function TextSize(t: Text): nat
  {
    4 + t.len
  }

  /** `get_text` (pmx_model.c:53-62): a 32-bit length, then that many bytes of
      which the first min(len, 64) are kept.  The cursor skips all `len`
      bytes whatever the cap. */
  function TextAt(s: seq<byte>): (r: Result<Parsed<Text>, Error>)
    ensures r.Success? ==> Consumed(s, r.value.rest, TextSize(r.value.value)) && WfText(r.value.value)
    ensures r.Success? ==> r.value.value.text == s[4..4 + Min(r.value.value.len, MAX_TEXT_LEN)]
    ensures r.Failure? <==> |s| < 4 || |s| < 4 + Le(s[..4])
    ensures r.Failure? ==> r.error == Eof
  {
    var len :- U32At(s);
    if |len.rest| < len.value then Failure(Eof)
    else Success(Parsed(Text(len.value, len.rest[..Min(len.value, MAX_TEXT_LEN)]), len.rest[len.value..]))
  }

  /** A text field whose body is `body`: its 32-bit length, then the bytes. */
  function EncText(body: seq<byte>, rest: seq<byte>): (e: seq<byte>)
    requires |body| < 0x1_0000_0000
    ensures |e| == 4 + |body| + |rest|
  {
    Pow256Widths();
    LeBytes(|body|, 4) + body + rest
  }

  /** Reading a text field back gives its full length and the first
      min(len, 64) bytes of its body, and stops right after the body. */
  lemma TextRoundTrip(body: seq<byte>, rest: seq<byte>)
    requires |body| < 0x1_0000_0000
    ensures TextAt(EncText(body, rest)) == Success(Parsed(Text(|body|, body[..Min(|body|, MAX_TEXT_LEN)]), rest))
  {
    Pow256Widths();
    var e := EncText(body, rest);
    assert e[..4] == LeBytes(|body|, 4);
    assert e[4..] == body + rest;
    assert (body + rest)[..Min(|body|, MAX_TEXT_LEN)] == body[..Min(|body|, MAX_TEXT_LEN)];
    assert (body + rest)[|body|..] == rest;
  }

  // ---------------------------------------------------------------------
  // Info (pmx_model.c:64-71)

  function InfoSize(i: Info): nat
  {
    TextSize(i.nameJp) + TextSize(i.nameEn) + TextSize(i.commJp) + TextSize(i.commEn)
  }

  function InfoAt(s: seq<byte>): (r: Result<Parsed<Info>, Error>)
    ensures r.Success? ==> Took(s, r.value.rest, InfoSize(r.value.value))
    ensures r.Failure? ==> r.error == Eof
  {
    var nj :- TextAt(s);
    var ne :- TextAt(nj.rest);
    var cj :- TextAt(ne.rest);
    var ce :- TextAt(cj.rest);
    Success(Parsed(Info(nj.value, ne.value, cj.value, ce.value), ce.rest))
  }

  // ---------------------------------------------------------------------
  // Lists: every `for (i = 0; i < count; ++i)` decoding loop.

  /** `n` consecutive records, each decoded where the previous one ended;
      the first failure ends the list. */
  function Many<T>(d: Rule<T>, s: seq<byte>, n: nat): (r: Result<Parsed<seq<T>>, Error>)
    ensures r.Success? ==> |r.value.value| == n
    decreases n
  {
    if n == 0 then Success(Parsed([], s))
    else
      var x :- d(s);
      var xs :- Many(d, x.rest, n - 1);
      Success(Parsed([x.value] + xs.value, xs.rest))
  }

  /** One record of a list decoded at cursor `src` by a method agreeing with
      `d`: the loop invariant of every `pmx_parse_*` loop carried one step, or
      the record's failure made the failure of the whole list. */
  lemma ManyStep<T>(d: Rule<T>, buf: seq<byte>, pos: nat, n: nat, done: seq<T>,
                    src: nat, i: nat, x: Result<Decoded<T>, Error>)
    requires pos <= |buf| && src <= |buf| && i < n
    requires Many(d, buf[pos..], n) == Glue(done, Many(d, buf[src..], n - i))
    requires Agrees(buf, x, d(buf[src..]))
    ensures x.Failure? ==> Many(d, buf[pos..], n) == Failure(x.error)
    ensures x.Success? ==> x.value.next <= |buf|
    ensures x.Success? ==>
      Many(d, buf[pos..], n) == Glue(done + [x.value.value], Many(d, buf[x.value.next..], n - (i + 1)))
  {
    if x.Success? {
      GlueGlue(done, [x.value.value], Many(d, buf[x.value.next..], n - i - 1));
    }
  }

  /** The invariant at the end of the loop: the list is what was decoded. */
  lemma ManyDone<T>(d: Rule<T>, buf: seq<byte>, pos: nat, n: nat, done: seq<T>, src: nat)
    requires pos <= |buf| && src <= |buf|
    requires Many(d, buf[pos..], n) == Glue(done, Many(d, buf[src..], 0))
    ensures Many(d, buf[pos..], n) == Success(Parsed(done, buf[src..]))
  {
    assert done + [] == done;
  }

  /** Bytes taken by a decoded list, given the bytes each record takes. */
  function Total<T>(size: T -> nat, xs: seq<T>): nat
  {
    if xs == [] then 0 else size(xs[0]) + Total(size, xs[1..])
  }

  /** A list takes exactly the sum of what its records take. */
  lemma {:induction false} ManyTook<T>(d: Rule<T>, size: T -> nat, s: seq<byte>, n: nat)
    requires forall t :: d(t).Success? ==> Took(t, d(t).value.rest, size(d(t).value.value))
    requires Many(d, s, n).Success?
    ensures Took(s, Many(d, s, n).value.rest, Total(size, Many(d, s, n).value.value))
    decreases n
  {
    if n > 0 {
      var x := d(s).value;
      ManyTook(d, size, x.rest, n - 1);
      var r := Many(d, s, n).value;
      assert r.value[1..] == Many(d, x.rest, n - 1).value.value;
    }
  }

  /** Every record of a decoded list has each property every single record
      decoded by `d` has. */
  lemma {:induction false} ManyAll<T>(d: Rule<T>, ok: T -> bool, s: seq<byte>, n: nat)
    requires forall t :: d(t).Success? ==> ok(d(t).value.value)
    requires Many(d, s, n).Success?
    ensures forall k :: 0 <= k < n ==> ok(Many(d, s, n).value.value[k])
    decreases n
  {
    if n > 0 {
      var x := d(s).value;
      ManyAll(d, ok, x.rest, n - 1);
      var r := Many(d, s, n).value;
      assert r.value[1..] == Many(d, x.rest, n - 1).value.value;
    }
  }

  /** A list fails only with an error one of its records failed with. */
  lemma {:induction false} ManyFailsEof<T>(d: Rule<T>, s: seq<byte>, n: nat)
    requires forall t :: d(t).Failure? ==> d(t).error == Eof
    requires Many(d, s, n).Failure?
    ensures Many(d, s, n).error == Eof
    decreases n
  {
    if n > 0 && d(s).Success? {
      ManyFailsEof(d, d(s).value.rest, n - 1);
    }
  }

  // ---------------------------------------------------------------------
  // Vertices (pmx_model.c:73-106)

  function WeightSize(h: Header, w: Weight): nat
  {
    var b := Width(h.boneIdxSize);
    match w
    case Bdef1(_) => b
    case Bdef2(_, _, _) => 2 * b + 4
    case Bdef4(_, _) => 4 * b + 16
    case Sdef(_, _, _, _, _, _) => 2 * b + 40
  }

  /** BDEF1: one bone index. */
  function Bdef1At(h: Header, s: seq<byte>): (r: Result<Parsed<Weight>, Error>)
    ensures r.Success? ==> WeightKind(r.value.value) == BDEF1 && Took(s, r.value.rest, WeightSize(h, r.value.value))
    ensures r.Failure? ==> r.error == Eof
  {
    StrideSmall(Width(h.boneIdxSize));
    var i :- WidenAt(s, h.boneIdxSize, 1);
    Success(Parsed(Bdef1(i.value[0]), i.rest))
  }

  /** BDEF2: two bone indices and one weight. */
  function Bdef2At(h: Header, s: seq<byte>): (r: Result<Parsed<Weight>, Error>)
    ensures r.Success? ==> WeightKind(r.value.value) == BDEF2 && Took(s, r.value.rest, WeightSize(h, r.value.value))
    ensures r.Failure? ==> r.error == Eof
  {
    StrideSmall(Width(h.boneIdxSize));
    var i :- WidenAt(s, h.boneIdxSize, 2);
    var w :- U32At(i.rest);
    Success(Parsed(Bdef2(i.value[0], i.value[1], w.value), w.rest))
  }

  /** BDEF4: four bone indices and four weights. */
  function Bdef4At(h: Header, s: seq<byte>): (r: Result<Parsed<Weight>, Error>)
    ensures r.Success? ==> WeightKind(r.value.value) == BDEF4 && Took(s, r.value.rest, WeightSize(h, r.value.value))
    ensures r.Success? ==> |r.value.value.idx| == 4
    ensures r.Failure? ==> r.error == Eof
  {
    StrideSmall(Width(h.boneIdxSize));
    var i :- WidenAt(s, h.boneIdxSize, 4);
    assert |i.rest| + 4 * Width(h.boneIdxSize) == |s|;
    var w :- Vec4At(i.rest);
    Success(Parsed(Bdef4(i.value, w.value), w.rest))
  }

  /** SDEF: two bone indices, one weight, then C, R0 and R1 copied as one
      block of nine floats. */
  function SdefAt(h: Header, s: seq<byte>): (r: Result<Parsed<Weight>, Error>)
    ensures r.Success? ==> WeightKind(r.value.value) == SDEF && Took(s, r.value.rest, WeightSize(h, r.value.value))
    ensures r.Failure? ==> r.error == Eof
  {
    StrideSmall(Width(h.boneIdxSize));
    var i :- WidenAt(s, h.boneIdxSize, 2);
    var w :- U32At(i.rest);
    var c :- CopyAt(w.rest, 4, 9);
    assert |c.value| == 36 && |w.rest| == |c.rest| + 36 by { assert Stride(9, Width(4)) == 36; }
    Success(Parsed(Sdef(i.value[0], i.value[1], w.value, Vec3Of(c.value, 0), Vec3Of(c.value, 3), Vec3Of(c.value, 6)), c.rest))
  }

  /** The weight payload for the weight type `tag`; bone indices are
      `bone_idx_size` wide.  Tags outside 0..3 fail. */
  function WeightAt(h: Header, tag: uint8, s: seq<byte>): (r: Result<Parsed<Weight>, Error>)
    ensures r.Success? ==> Took(s, r.value.rest, WeightSize(h, r.value.value))
    ensures r.Success? ==> WeightTypeCode(WeightKind(r.value.value)) == tag
    ensures tag > 3 ==> r == Failure(BadTag(WeightTypeTag, tag))
    ensures r.Failure? && tag <= 3 ==> r.error == Eof
  {
    if tag == 0 then Bdef1At(h, s)
    else if tag == 1 then Bdef2At(h, s)
    else if tag == 2 then Bdef4At(h, s)
    else if tag == 3 then SdefAt(h, s)
    else Failure(BadTag(WeightTypeTag, tag))
  }

  /** 32 bytes of position, normal and uv, the tag byte, the payload and a
      4-byte edge scale. */
  function VertexSize(h: Header, v: Vertex): nat
  {
    32 + 1 + WeightSize(h, v.weight) + 4
  }

  function VertexAt(h: Header, s: seq<byte>): (r: Result<Parsed<Vertex>, Error>)
    ensures r.Success? ==> Took(s, r.value.rest, VertexSize(h, r.value.value))
    ensures r.Success? ==> WeightTypeCode(WeightKind(r.value.value.weight)) == s[32] as int
    ensures |s| > 32 && s[32] > 3 ==> r == Failure(BadTag(WeightTypeTag, s[32] as int))
  {
    var pos :- Vec3At(s);
    var normal :- Vec3At(pos.rest);
    var uv :- Vec2At(normal.rest);
    var tag :- U8At(uv.rest);
    var w :- WeightAt(h, tag.value, tag.rest);
    var edge :- U32At(w.rest);
    Success(Parsed(Vertex(pos.value, normal.value, uv.value, w.value, edge.value), edge.rest))
  }

  function VertexDecoder(h: Header): (d: Rule<Vertex>)
    ensures forall t {:trigger VertexAt(h, t)} :: d(t) == VertexAt(h, t)
  {
    t => VertexAt(h, t)
  }

  // ---------------------------------------------------------------------
  // Faces (pmx_model.c:108-113)

  function FaceAt(h: Header, s: seq<byte>): (r: Result<Parsed<Face>, Error>)
    ensures r.Success? ==> Took(s, r.value.rest, 3 * Width(h.vertIdxSize))
    ensures r.Failure? <==> |s| < 3 * Width(h.vertIdxSize)
  {
    StrideSmall(Width(h.vertIdxSize));
    var i :- WidenAt(s, h.vertIdxSize, 3);
    Success(Parsed(Face(i.value[0], i.value[1], i.value[2]), i.rest))
  }

  function FaceDecoder(h: Header): (d: Rule<Face>)
    ensures forall t {:trigger FaceAt(h, t)} :: d(t) == FaceAt(h, t)
  {
    t => FaceAt(h, t)
  }

  // ---------------------------------------------------------------------
  // Textures (pmx_model.c:115-120)

  function TextureAt(s: seq<byte>): (r: Result<Parsed<Texture>, Error>)
    ensures r.Success? ==> Took(s, r.value.rest, TextSize(r.value.value.name))
    ensures r.Failure? <==> TextAt(s).Failure?
  {
    var name :- TextAt(s);
    Success(Parsed(Texture(name.value), name.rest))
  }

  function TextureDecoder(h: Header): (d: Rule<Texture>)
    ensures forall t {:trigger TextureAt(t)} :: d(t) == TextureAt(t)
  {
    t => TextureAt(t)
  }

  // ---------------------------------------------------------------------
  // Materials (pmx_model.c:122-145)

  /** The toon index is a texture index for TOON_TEX and one byte naming a
      shared toon texture for any other mode. */
  function ToonWidth(h: Header, toonMode: uint8): nat
  {
    if toonMode == TOON_TEX then Width(h.texIdxSize) else 1
  }

  function MaterialSize(h: Header, m: Material): nat
  {
    TextSize(m.nameJp) + TextSize(m.nameEn)
    + 16 + 12 + 4 + 12 + 1 + 16 + 4
    + 2 * Width(h.texIdxSize) + 1 + 1 + ToonWidth(h, m.toonMode)
    + TextSize(m.memo) + 4
  }

  /** Diffuse, specular, power, ambient, draw mode, edge colour, edge size. */
  datatype Surface = Surface(diffuse: Vec4, specular: Vec3, power: F32, ambient: Vec3,
                             drawMode: uint8, edge: Vec4, edgeSize: F32)

  /** The fields in order, each its own `get_field` call; their values are
      stated by SurfaceFields. */
  function SurfaceAt(s: seq<byte>): (r: Result<Parsed<Surface>, Error>)
    ensures r.Success? ==> Took(s, r.value.rest, 65)
    ensures r.Failure? <==> |s| < 65
    ensures r.Failure? ==> r.error == Eof
  {
    var diffuse :- Vec4At(s);
    var specular :- Vec3At(diffuse.rest);
    var power :- F32At(specular.rest);
    var ambient :- Vec3At(power.rest);
    var drawMode :- U8At(ambient.rest);
    var edge :- Vec4At(drawMode.rest);
    var edgeSize :- F32At(edge.rest);
    Success(Parsed(Surface(diffuse.value, specular.value, power.value, ambient.value,
                           drawMode.value, edge.value, edgeSize.value), edgeSize.rest))
  }

  /** Each field is what its own `get_field` call yields at its fixed offset. */
  lemma SurfaceFields(s: seq<byte>)
    requires SurfaceAt(s).Success?
    ensures SurfaceAt(s).value.rest == s[65..]
    ensures var v := SurfaceAt(s).value.value;
      && Vec4At(s) == Success(Parsed(v.diffuse, s[16..]))
      && Vec3At(s[16..]) == Success(Parsed(v.specular, s[28..]))
      && F32At(s[28..]) == Success(Parsed(v.power, s[32..]))
      && Vec3At(s[32..]) == Success(Parsed(v.ambient, s[44..]))
      && U8At(s[44..]) == Success(Parsed(v.drawMode, s[45..]))
      && Vec4At(s[45..]) == Success(Parsed(v.edge, s[61..]))
      && F32At(s[61..]) == Success(Parsed(v.edgeSize, s[65..]))
  {
  }

  /** Texture, environment map and toon references. */
  datatype Maps = Maps(texIdx: uint32, envIdx: uint32, envMode: uint8, toonMode: uint8, toonIdx: uint32)

  function MapsAt(h: Header, s: seq<byte>): (r: Result<Parsed<Maps>, Error>)
    ensures r.Success? ==> Took(s, r.value.rest, 2 * Width(h.texIdxSize) + 2 + ToonWidth(h, r.value.value.toonMode))
    ensures r.Success? ==> r.value.value.toonMode == s[2 * Width(h.texIdxSize) + 1] as int
    ensures r.Failure? ==> r.error == Eof
  {
    var tex :- IndexAt(s, h.texIdxSize);
    var env :- IndexAt(tex.rest, h.texIdxSize);
    var envMode :- U8At(env.rest);
    var toonMode :- U8At(envMode.rest);
    var toon :- IndexAt(toonMode.rest, if toonMode.value == TOON_TEX then h.texIdxSize else 1);
    Success(Parsed(Maps(tex.value, env.value, envMode.value, toonMode.value, toon.value), toon.rest))
  }

  function MaterialAt(h: Header, s: seq<byte>): (r: Result<Parsed<Material>, Error>)
    ensures r.Success? ==> Took(s, r.value.rest, MaterialSize(h, r.value.value))
    ensures r.Failure? ==> r.error == Eof
  {
    var nj :- TextAt(s);
    var ne :- TextAt(nj.rest);
    var sf :- SurfaceAt(ne.rest);
    var mp :- MapsAt(h, sf.rest);
    var memo :- TextAt(mp.rest);
    var faces :- U32At(memo.rest);
    var f := sf.value;
    var m := mp.value;
    Success(Parsed(Material(nj.value, ne.value, f.diffuse, f.specular, f.power, f.ambient,
                            f.drawMode, f.edge, f.edgeSize, m.texIdx, m.envIdx, m.envMode,
                            m.toonMode, m.toonIdx, memo.value, faces.value), faces.rest))
  }

  function MaterialDecoder(h: Header): (d: Rule<Material>)
    ensures forall t {:trigger MaterialAt(h, t)} :: d(t) == MaterialAt(h, t)
  {
    t => MaterialAt(h, t)
  }

  // ---------------------------------------------------------------------
  // IK links (pmx_model.c:147-159)

  function IkLinkSize(h: Header, l: IkLink): nat
  {
    Width(h.boneIdxSize) + 1 + (if l.hasLimit != 0 then 24 else 0)
  }

  function IkLinkAt(h: Header, s: seq<byte>): (r: Result<Parsed<IkLink>, Error>)
    ensures r.Success? ==> Took(s, r.value.rest, IkLinkSize(h, r.value.value))
    ensures r.Success? ==> (r.value.value.limit.Some? <==> r.value.value.hasLimit != 0)
    ensures r.Failure? ==> r.error == Eof
  {
    var idx :- IndexAt(s, h.boneIdxSize);
    var has :- U8At(idx.rest);
    if has.value != 0 then
      var lim :- LimitsAt(has.rest);
      Success(Parsed(IkLink(idx.value, has.value, Some(lim.value)), lim.rest))
    else
      Success(Parsed(IkLink(idx.value, has.value, None), has.rest))
  }

  function IkLinkDecoder(h: Header): (d: Rule<IkLink>)
    ensures forall t {:trigger IkLinkAt(h, t)} :: d(t) == IkLinkAt(h, t)
  {
    t => IkLinkAt(h, t)
  }

  function IkLinkSizer(h: Header): (f: IkLink -> nat)
    ensures forall l :: f(l) == IkLinkSize(h, l)
  {
    l => IkLinkSize(h, l)
  }

  function IkLinksSize(h: Header, links: seq<IkLink>): nat
  {
    Total(IkLinkSizer(h), links)
  }

  // ---------------------------------------------------------------------
  // Bones (pmx_model.c:161-208)

  /** Bytes of the optional bone fields the flags select, apart from the IK
      link list: exactly one tip form, then each optional block iff its flag. */
  function BoneTailSize(h: Header, flags: uint16): nat
  {
    var b := Width(h.boneIdxSize);
    (if HasFlag(flags, BONE_FLAG_CONNECTED) then b else 12)
    + (if HasFlag(flags, BONE_FLAG_LINK_ROTATION) || HasFlag(flags, BONE_FLAG_LINK_MOVE) then b + 4 else 0)
    + (if HasFlag(flags, BONE_FLAG_FIXED_AXIS) then 12 else 0)
    + (if HasFlag(flags, BONE_FLAG_LOCAL_AXIS) then 24 else 0)
    + (if HasFlag(flags, BONE_FLAG_EXT_PARENT_TRANSFORM) then 4 else 0)
    + (if HasFlag(flags, BONE_FLAG_IK) then b + 12 else 0)
  }

  function BoneLinks(bone: Bone): seq<IkLink>
  {
    if bone.ik.Some? then bone.ik.value.links else []
  }

  function BoneSize(h: Header, bone: Bone): nat
  {
    TextSize(bone.nameJp) + TextSize(bone.nameEn) + 12 + Width(h.boneIdxSize) + 4 + 2
    + BoneTailSize(h, bone.flags) + IkLinksSize(h, BoneLinks(bone))
  }

  function TipAt(h: Header, flags: uint16, s: seq<byte>): (r: Result<Parsed<Tip>, Error>)
    ensures r.Success? ==> Took(s, r.value.rest, if HasFlag(flags, BONE_FLAG_CONNECTED) then Width(h.boneIdxSize) else 12)
    ensures r.Success? ==> (r.value.value.TipTarget? <==> HasFlag(flags, BONE_FLAG_CONNECTED))
    ensures r.Failure? ==> r.error == Eof
  {
    if HasFlag(flags, BONE_FLAG_CONNECTED) then
      var t :- IndexAt(s, h.boneIdxSize);
      Success(Parsed(TipTarget(t.value), t.rest))
    else
      var o :- Vec3At(s);
      Success(Parsed(TipOffset(o.value), o.rest))
  }

  function LinkAt(h: Header, flags: uint16, s: seq<byte>): (r: Result<Parsed<Option<BoneLink>>, Error>)
    ensures var on := HasFlag(flags, BONE_FLAG_LINK_ROTATION) || HasFlag(flags, BONE_FLAG_LINK_MOVE);
      r.Success? ==>
        Took(s, r.value.rest, if on then Width(h.boneIdxSize) + 4 else 0)
        && (r.value.value.Some? <==> on)
    ensures r.Failure? ==> r.error == Eof
  {
    if HasFlag(flags, BONE_FLAG_LINK_ROTATION) || HasFlag(flags, BONE_FLAG_LINK_MOVE) then
      var idx :- IndexAt(s, h.boneIdxSize);
      var rate :- U32At(idx.rest);
      Success(Parsed(Some(BoneLink(idx.value, rate.value)), rate.rest))
    else
      Success(Parsed(None, s))
  }

  function FixedAxisAt(flags: uint16, s: seq<byte>): (r: Result<Parsed<Option<Vec3>>, Error>)
    ensures var on := HasFlag(flags, BONE_FLAG_FIXED_AXIS);
      r.Success? ==> Took(s, r.value.rest, if on then 12 else 0) && (r.value.value.Some? <==> on)
    ensures r.Failure? ==> r.error == Eof
  {
    if HasFlag(flags, BONE_FLAG_FIXED_AXIS) then
      var v :- Vec3At(s);
      Success(Parsed(Some(v.value), v.rest))
    else
      Success(Parsed(None, s))
  }

  function LocalAxisAt(flags: uint16, s: seq<byte>): (r: Result<Parsed<Option<LocalAxis>>, Error>)
    ensures var on := HasFlag(flags, BONE_FLAG_LOCAL_AXIS);
      r.Success? ==> Took(s, r.value.rest, if on then 24 else 0) && (r.value.value.Some? <==> on)
    ensures r.Failure? ==> r.error == Eof
  {
    if HasFlag(flags, BONE_FLAG_LOCAL_AXIS) then
      var x :- Vec3At(s);
      var z :- Vec3At(x.rest);
      Success(Parsed(Some(LocalAxis(x.value, z.value)), z.rest))
    else
      Success(Parsed(None, s))
  }

  function ExtParentAt(flags: uint16, s: seq<byte>): (r: Result<Parsed<Option<uint32>>, Error>)
    ensures var on := HasFlag(flags, BONE_FLAG_EXT_PARENT_TRANSFORM);
      r.Success? ==> Took(s, r.value.rest, if on then 4 else 0) && (r.value.value.Some? <==> on)
    ensures r.Failure? ==> r.error == Eof
  {
    if HasFlag(flags, BONE_FLAG_EXT_PARENT_TRANSFORM) then
      var k :- U32At(s);
      Success(Parsed(Some(k.value), k.rest))
    else
      Success(Parsed(None, s))
  }

  /** The IK block: target, loop count, limit angle, link count, then exactly
      `link_count` links; no list at all when the count is 0. */
  function IkAt(h: Header, flags: uint16, s: seq<byte>): (r: Result<Parsed<Option<Ik>>, Error>)
    ensures var on := HasFlag(flags, BONE_FLAG_IK);
      r.Success? ==>
        (r.value.value.Some? <==> on)
        && Took(s, r.value.rest, (if on then Width(h.boneIdxSize) + 12 else 0)
                                     + IkLinksSize(h, if on then r.value.value.value.links else []))
    ensures r.Success? && r.value.value.Some? ==> |r.value.value.value.links| == r.value.value.value.linkCount
    ensures r.Failure? ==> r.error == Eof
  {
    if HasFlag(flags, BONE_FLAG_IK) then
      var target :- IndexAt(s, h.boneIdxSize);
      var loop :- U32At(target.rest);
      var angle :- U32At(loop.rest);
      var count :- U32At(angle.rest);
      var links :- ManyIkLinks(h, count.rest, count.value);
      Success(Parsed(Some(Ik(target.value, loop.value, angle.value, count.value, links.value)), links.rest))
    else
      Success(Parsed(None, s))
  }

  /** The IK link list of `pmx_parse_ik`, with its byte count. */
  function ManyIkLinks(h: Header, s: seq<byte>, n: nat): (r: Result<Parsed<seq<IkLink>>, Error>)
    ensures r == Many(IkLinkDecoder(h), s, n)
    ensures r.Success? ==> Took(s, r.value.rest, IkLinksSize(h, r.value.value))
    ensures r.Failure? ==> r.error == Eof
  {
    var r := Many(IkLinkDecoder(h), s, n);
    if r.Success? then ManyTook(IkLinkDecoder(h), IkLinkSizer(h), s, n); r
    else ManyFailsEof(IkLinkDecoder(h), s, n); r
  }


  function BoneAt(h: Header, s: seq<byte>): (r: Result<Parsed<Bone>, Error>)
    ensures r.Success? ==> Took(s, r.value.rest, BoneSize(h, r.value.value))
    ensures r.Success? ==> var bone := r.value.value;
      && (bone.tip.TipTarget? <==> HasFlag(bone.flags, BONE_FLAG_CONNECTED))
      && (bone.link.Some? <==> HasFlag(bone.flags, BONE_FLAG_LINK_ROTATION) || HasFlag(bone.flags, BONE_FLAG_LINK_MOVE))
      && (bone.fixedAxis.Some? <==> HasFlag(bone.flags, BONE_FLAG_FIXED_AXIS))
      && (bone.localAxis.Some? <==> HasFlag(bone.flags, BONE_FLAG_LOCAL_AXIS))
      && (bone.extParentKey.Some? <==> HasFlag(bone.flags, BONE_FLAG_EXT_PARENT_TRANSFORM))
      && (bone.ik.Some? <==> HasFlag(bone.flags, BONE_FLAG_IK))
      && (bone.ik.Some? ==> |bone.ik.value.links| == bone.ik.value.linkCount)
    ensures r.Failure? ==> r.error == Eof
  {
    var nj :- TextAt(s);
    var ne :- TextAt(nj.rest);
    var pos :- Vec3At(ne.rest);
    var parent :- IndexAt(pos.rest, h.boneIdxSize);
    var layer :- U32At(parent.rest);
    var flags :- U16At(layer.rest);
    var f := flags.value;
    var tip :- TipAt(h, f, flags.rest);
    var link :- LinkAt(h, f, tip.rest);
    var fixed :- FixedAxisAt(f, link.rest);
    var local :- LocalAxisAt(f, fixed.rest);
    var ext :- ExtParentAt(f, local.rest);
    var ik :- IkAt(h, f, ext.rest);
    Success(Parsed(Bone(nj.value, ne.value, pos.value, parent.value, layer.value, f,
                        tip.value, link.value, fixed.value, local.value, ext.value, ik.value), ik.rest))
  }

  function BoneDecoder(h: Header): (d: Rule<Bone>)
    ensures forall t {:trigger BoneAt(h, t)} :: d(t) == BoneAt(h, t)
  {
    t => BoneAt(h, t)
  }

  // ---------------------------------------------------------------------
  // Morphs (pmx_model.c:210-280)

  function MorphOffsetSize(h: Header, o: MorphOffset): nat
  {
    match o
    case GroupFlipOffset(_, _) => Width(h.rbIdxSize) + 1
    case VertexOffset(_, _) => Width(h.vertIdxSize) + 12
    case BoneOffset(_, _, _) => Width(h.boneIdxSize) + 28
    case UvOffset(_, _) => Width(h.vertIdxSize) + 16
    case MaterialOffset(_, _, _) => Width(h.matIdxSize) + 113
    case ImpulseOffset(_, _, _, _) => Width(h.rbIdxSize) + 25
  }

  /** The fields in order, each its own `get_field` call; their values are
      stated by TintsFields. */
  function TintsAt(s: seq<byte>): (r: Result<Parsed<Tints>, Error>)
    ensures r.Success? ==> Took(s, r.value.rest, 112)
    ensures r.Failure? <==> |s| < 112
    ensures r.Failure? ==> r.error == Eof
  {
    var diffuse :- Vec4At(s);
    var specular :- Vec3At(diffuse.rest);
    var power :- F32At(specular.rest);
    var ambient :- Vec3At(power.rest);
    var edge :- Vec4At(ambient.rest);
    var edgeSize :- F32At(edge.rest);
    var tex :- Vec4At(edgeSize.rest);
    var env :- Vec4At(tex.rest);
    var toon :- Vec4At(env.rest);
    Success(Parsed(Tints(diffuse.value, specular.value, power.value, ambient.value, edge.value,
                         edgeSize.value, tex.value, env.value, toon.value), toon.rest))
  }

  /** Each field is what its own `get_field` call yields at its fixed offset. */
  lemma TintsFields(s: seq<byte>)
    requires TintsAt(s).Success?
    ensures TintsAt(s).value.rest == s[112..]
    ensures var v := TintsAt(s).value.value;
      && Vec4At(s) == Success(Parsed(v.diffuse, s[16..]))
      && Vec3At(s[16..]) == Success(Parsed(v.specular, s[28..]))
      && F32At(s[28..]) == Success(Parsed(v.power, s[32..]))
      && Vec3At(s[32..]) == Success(Parsed(v.ambient, s[44..]))
      && Vec4At(s[44..]) == Success(Parsed(v.edge, s[60..]))
      && F32At(s[60..]) == Success(Parsed(v.edgeSize, s[64..]))
      && Vec4At(s[64..]) == Success(Parsed(v.tex, s[80..]))
      && Vec4At(s[80..]) == Success(Parsed(v.env, s[96..]))
      && Vec4At(s[96..]) == Success(Parsed(v.toon, s[112..]))
  {
  }

  /** Group and flip offsets read their index at the rigid-body width and
      their rate as a single byte copied into the low byte of the float slot,
      as the C code does (pmx_model.c:216-217); the other three bytes are
      taken as 0. */
  function GroupFlipAt(h: Header, s: seq<byte>): (r: Result<Parsed<MorphOffset>, Error>)
    ensures r.Success? ==> r.value.value.GroupFlipOffset? && Took(s, r.value.rest, MorphOffsetSize(h, r.value.value))
    ensures r.Failure? ==> r.error == Eof
  {
    var idx :- IndexAt(s, h.rbIdxSize);
    var rate :- U8At(idx.rest);
    Success(Parsed(GroupFlipOffset(idx.value, rate.value), rate.rest))
  }

  function VertexOffsetAt(h: Header, s: seq<byte>): (r: Result<Parsed<MorphOffset>, Error>)
    ensures r.Success? ==> r.value.value.VertexOffset? && Took(s, r.value.rest, MorphOffsetSize(h, r.value.value))
    ensures r.Failure? ==> r.error == Eof
  {
    var idx :- IndexAt(s, h.vertIdxSize);
    var off :- Vec3At(idx.rest);
    Success(Parsed(VertexOffset(idx.value, off.value), off.rest))
  }

  function BoneOffsetAt(h: Header, s: seq<byte>): (r: Result<Parsed<MorphOffset>, Error>)
    ensures r.Success? ==> r.value.value.BoneOffset? && Took(s, r.value.rest, MorphOffsetSize(h, r.value.value))
    ensures r.Failure? ==> r.error == Eof
  {
    var idx :- IndexAt(s, h.boneIdxSize);
    var move :- Vec3At(idx.rest);
    var rot :- Vec4At(move.rest);
    Success(Parsed(BoneOffset(idx.value, move.value, rot.value), rot.rest))
  }

  function UvOffsetAt(h: Header, s: seq<byte>): (r: Result<Parsed<MorphOffset>, Error>)
    ensures r.Success? ==> r.value.value.UvOffset? && Took(s, r.value.rest, MorphOffsetSize(h, r.value.value))
    ensures r.Failure? ==> r.error == Eof
  {
    var idx :- IndexAt(s, h.vertIdxSize);
    var off :- Vec4At(idx.rest);
    Success(Parsed(UvOffset(idx.value, off.value), off.rest))
  }

  function MaterialOffsetAt(h: Header, s: seq<byte>): (r: Result<Parsed<MorphOffset>, Error>)
    ensures r.Success? ==> r.value.value.MaterialOffset? && Took(s, r.value.rest, Width(h.matIdxSize) + 113)
    ensures r.Failure? ==> r.error == Eof
  {
    var idx :- IndexAt(s, h.matIdxSize);
    var op :- U8At(idx.rest);
    var tn :- TintsAt(op.rest);
    Success(Parsed(MaterialOffset(idx.value, op.value, tn.value), tn.rest))
  }

  function ImpulseOffsetAt(h: Header, s: seq<byte>): (r: Result<Parsed<MorphOffset>, Error>)
    ensures r.Success? ==> r.value.value.ImpulseOffset? && Took(s, r.value.rest, MorphOffsetSize(h, r.value.value))
    ensures r.Failure? ==> r.error == Eof
  {
    var idx :- IndexAt(s, h.rbIdxSize);
    var local :- U8At(idx.rest);
    var vel :- Vec3At(local.rest);
    var torque :- Vec3At(vel.rest);
    Success(Parsed(ImpulseOffset(idx.value, local.value, vel.value, torque.value), torque.rest))
  }

  /** One offset in the layout of morph type `t`: group shares with flip and
      the five UV types share one. */
  function OffsetOfTypeAt(h: Header, t: MorphType, s: seq<byte>): (r: Result<Parsed<MorphOffset>, Error>)
    ensures r.Success? ==> Took(s, r.value.rest, MorphOffsetSize(h, r.value.value))
    ensures r.Success? ==> OffsetMatches(t, r.value.value)
    ensures r.Failure? ==> r.error == Eof
  {
    match t
    case Group => GroupFlipAt(h, s)
    case Flip => GroupFlipAt(h, s)
    case VertexMorph => VertexOffsetAt(h, s)
    case BoneMorph => BoneOffsetAt(h, s)
    case Uv => UvOffsetAt(h, s)
    case AddUv1 => UvOffsetAt(h, s)
    case AddUv2 => UvOffsetAt(h, s)
    case AddUv3 => UvOffsetAt(h, s)
    case AddUv4 => UvOffsetAt(h, s)
    case MaterialMorph => MaterialOffsetAt(h, s)
    case Impulse => ImpulseOffsetAt(h, s)
  }

  /** One offset in the layout selected by the morph's type byte; a tag
      outside 0..10 fails before anything is read. */
  function MorphOffsetAt(h: Header, tag: uint8, s: seq<byte>): (r: Result<Parsed<MorphOffset>, Error>)
    ensures r.Success? ==> Took(s, r.value.rest, MorphOffsetSize(h, r.value.value))
    ensures r.Success? ==> MorphTypeOf(tag).Some? && OffsetMatches(MorphTypeOf(tag).value, r.value.value)
    ensures tag > 10 ==> r == Failure(BadTag(MorphTypeTag, tag))
    ensures r.Failure? && tag <= 10 ==> r.error == Eof
  {
    match MorphTypeOf(tag)
    case None => Failure(BadTag(MorphTypeTag, tag))
    case Some(t) => OffsetOfTypeAt(h, t, s)
  }

  function MorphOffsetDecoder(h: Header, tag: uint8): (d: Rule<MorphOffset>)
    ensures forall t {:trigger MorphOffsetAt(h, tag, t)} :: d(t) == MorphOffsetAt(h, tag, t)
  {
    t => MorphOffsetAt(h, tag, t)
  }

  function OffsetSizer(h: Header): (f: MorphOffset -> nat)
    ensures forall o :: f(o) == MorphOffsetSize(h, o)
  {
    o => MorphOffsetSize(h, o)
  }

  function OffsetsSize(h: Header, offs: seq<MorphOffset>): nat
  {
    Total(OffsetSizer(h), offs)
  }

  /** Whether an offset has the layout the type byte `tag` selects. */
  function MatchesTag(tag: uint8): (f: MorphOffset -> bool)
    ensures forall o :: f(o) == (MorphTypeOf(tag).Some? && OffsetMatches(MorphTypeOf(tag).value, o))
  {
    o => MorphTypeOf(tag).Some? && OffsetMatches(MorphTypeOf(tag).value, o)
  }

  /** The offset list of `pmx_parse_morph_offset`, with its byte count. */
  function ManyOffsets(h: Header, tag: uint8, s: seq<byte>, n: nat): (r: Result<Parsed<seq<MorphOffset>>, Error>)
    ensures r == Many(MorphOffsetDecoder(h, tag), s, n)
    ensures r.Success? ==> Took(s, r.value.rest, OffsetsSize(h, r.value.value))
    ensures r.Success? && n > 0 ==> MorphTypeOf(tag).Some? && forall k :: 0 <= k < n ==> OffsetMatches(MorphTypeOf(tag).value, r.value.value[k])
    ensures n > 0 && tag > 10 ==> r == Failure(BadTag(MorphTypeTag, tag))
  {
    var r := Many(MorphOffsetDecoder(h, tag), s, n);
    if r.Success? then
      ManyTook(MorphOffsetDecoder(h, tag), OffsetSizer(h), s, n);
      ManyAll(MorphOffsetDecoder(h, tag), MatchesTag(tag), s, n);
      assert n > 0 ==> MatchesTag(tag)(r.value.value[0]);
      r
    else r
  }

  function MorphSize(h: Header, m: Morph): nat
  {
    TextSize(m.nameJp) + TextSize(m.nameEn) + 1 + 1 + 4 + OffsetsSize(h, m.offsets)
  }

  function MorphAt(h: Header, s: seq<byte>): (r: Result<Parsed<Morph>, Error>)
    ensures r.Success? ==> Took(s, r.value.rest, MorphSize(h, r.value.value))
    ensures r.Success? ==> var m := r.value.value;
      |m.offsets| == m.offsetCount
      && (m.offsetCount > 0 ==>
            MorphTypeOf(m.morphType).Some?
            && forall k :: 0 <= k < |m.offsets| ==> OffsetMatches(MorphTypeOf(m.morphType).value, m.offsets[k]))
  {
    var nj :- TextAt(s);
    var ne :- TextAt(nj.rest);
    var panel :- U8At(ne.rest);
    var tag :- U8At(panel.rest);
    var count :- U32At(tag.rest);
    var offs :- ManyOffsets(h, tag.value, count.rest, count.value);
    Success(Parsed(Morph(nj.value, ne.value, panel.value, tag.value, count.value, offs.value), offs.rest))
  }

  /** A morph with no offsets reads no offset and succeeds whatever its type
      byte: `pmx_parse_morph_offset` runs its loop zero times. */
  lemma MorphWithoutOffsets(h: Header, s: seq<byte>)
    requires TextAt(s).Success?
    requires var ne := TextAt(TextAt(s).value.rest);
      ne.Success? && |ne.value.rest| >= 6 && Le(ne.value.rest[2..6]) == 0
    ensures var nj := TextAt(s).value; var ne := TextAt(nj.rest).value;
      MorphAt(h, s) == Success(Parsed(Morph(nj.value, ne.value, ne.rest[0] as int, ne.rest[1] as int, 0, []), ne.rest[6..]))
  {
    var ne := TextAt(TextAt(s).value.rest).value;
    assert ne.rest[2..][..4] == ne.rest[2..6];
    assert ne.rest[2..][4..] == ne.rest[6..];
  }

  /** A morph announcing offsets under a type byte above 10 fails with that
      byte: the `default:` branch returns NULL before reading the first one. */
  lemma MorphBadTag(h: Header, s: seq<byte>)
    requires TextAt(s).Success?
    requires var ne := TextAt(TextAt(s).value.rest);
      ne.Success? && |ne.value.rest| >= 6 && Le(ne.value.rest[2..6]) > 0 && ne.value.rest[1] > 10
    ensures MorphAt(h, s) == Failure(BadTag(MorphTypeTag, TextAt(TextAt(s).value.rest).value.rest[1] as int))
  {
    var ne := TextAt(TextAt(s).value.rest).value;
    assert ne.rest[2..][..4] == ne.rest[2..6];
  }

  function MorphDecoder(h: Header): (d: Rule<Morph>)
    ensures forall t {:trigger MorphAt(h, t)} :: d(t) == MorphAt(h, t)
  {
    t => MorphAt(h, t)
  }

  // ---------------------------------------------------------------------
  // Frames (pmx_model.c:282-317)

  function FrameElementSize(h: Header, e: FrameElement): nat
  {
    1 + Width(if e.elemType == BoneElem then h.boneIdxSize else h.morphIdxSize)
  }

  function FrameElementAt(h: Header, s: seq<byte>): (r: Result<Parsed<FrameElement>, Error>)
    ensures r.Success? ==> Took(s, r.value.rest, FrameElementSize(h, r.value.value))
    ensures r.Success? ==> FrameElemTypeCode(r.value.value.elemType) == s[0] as int
    ensures |s| > 0 && s[0] > 1 ==> r == Failure(BadTag(FrameElemTypeTag, s[0] as int))
  {
    var tag :- U8At(s);
    match FrameElemTypeOf(tag.value)
    case None => Failure(BadTag(FrameElemTypeTag, tag.value))
    case Some(BoneElem) =>
      var idx :- IndexAt(tag.rest, h.boneIdxSize);
      Success(Parsed(FrameElement(BoneElem, idx.value), idx.rest))
    case Some(MorphElem) =>
      var idx :- IndexAt(tag.rest, h.morphIdxSize);
      Success(Parsed(FrameElement(MorphElem, idx.value), idx.rest))
  }

  function FrameElementDecoder(h: Header): (d: Rule<FrameElement>)
    ensures forall t {:trigger FrameElementAt(h, t)} :: d(t) == FrameElementAt(h, t)
  {
    t => FrameElementAt(h, t)
  }

  function ElemSizer(h: Header): (f: FrameElement -> nat)
    ensures forall e :: f(e) == FrameElementSize(h, e)
  {
    e => FrameElementSize(h, e)
  }

  function ElemsSize(h: Header, elems: seq<FrameElement>): nat
  {
    Total(ElemSizer(h), elems)
  }

  /** The element list of `pmx_parse_frame_elem`, with its byte count. */
  function ManyElems(h: Header, s: seq<byte>, n: nat): (r: Result<Parsed<seq<FrameElement>>, Error>)
    ensures r == Many(FrameElementDecoder(h), s, n)
    ensures r.Success? ==> Took(s, r.value.rest, ElemsSize(h, r.value.value))
  {
    var r := Many(FrameElementDecoder(h), s, n);
    if r.Success? then ManyTook(FrameElementDecoder(h), ElemSizer(h), s, n); r else r
  }

  function FrameSize(h: Header, f: Frame): nat
  {
    TextSize(f.nameJp) + TextSize(f.nameEn) + 1 + 4 + ElemsSize(h, f.elems)
  }

  function FrameAt(h: Header, s: seq<byte>): (r: Result<Parsed<Frame>, Error>)
    ensures r.Success? ==> Took(s, r.value.rest, FrameSize(h, r.value.value))
    ensures r.Success? ==> |r.value.value.elems| == r.value.value.elemCount
  {
    var nj :- TextAt(s);
    var ne :- TextAt(nj.rest);
    var special :- U8At(ne.rest);
    var count :- U32At(special.rest);
    var elems :- ManyElems(h, count.rest, count.value);
    Success(Parsed(Frame(nj.value, ne.value, special.value, count.value, elems.value), elems.rest))
  }

  /** A frame with no elements reads none: `pmx_parse_frame_elem` runs its
      loop zero times. */
  lemma FrameWithoutElems(h: Header, s: seq<byte>)
    requires TextAt(s).Success?
    requires var ne := TextAt(TextAt(s).value.rest);
      ne.Success? && |ne.value.rest| >= 5 && Le(ne.value.rest[1..5]) == 0
    ensures var nj := TextAt(s).value; var ne := TextAt(nj.rest).value;
      FrameAt(h, s) == Success(Parsed(Frame(nj.value, ne.value, ne.rest[0] as int, 0, []), ne.rest[5..]))
  {
    var ne := TextAt(TextAt(s).value.rest).value;
    assert ne.rest[1..][..4] == ne.rest[1..5];
    assert ne.rest[1..][4..] == ne.rest[5..];
  }

  /** A frame announcing elements whose first element has a tag byte above 1
      fails with that byte: the `default:` branch returns NULL. */
  lemma FrameBadTag(h: Header, s: seq<byte>)
    requires TextAt(s).Success?
    requires var ne := TextAt(TextAt(s).value.rest);
      ne.Success? && |ne.value.rest| >= 6 && Le(ne.value.rest[1..5]) > 0 && ne.value.rest[5] > 1
    ensures FrameAt(h, s) == Failure(BadTag(FrameElemTypeTag, TextAt(TextAt(s).value.rest).value.rest[5] as int))
  {
    var ne := TextAt(TextAt(s).value.rest).value;
    assert ne.rest[1..][..4] == ne.rest[1..5];
    assert ne.rest[1..][4..] == ne.rest[5..];
  }

  function FrameDecoder(h: Header): (d: Rule<Frame>)
    ensures forall t {:trigger FrameAt(h, t)} :: d(t) == FrameAt(h, t)
  {
    t => FrameAt(h, t)
  }

  // ---------------------------------------------------------------------
  // Rigid bodies (pmx_model.c:319-340)

  function RigidBodySize(h: Header, rb: RigidBody): nat
  {
    TextSize(rb.nameJp) + TextSize(rb.nameEn) + Width(h.boneIdxSize) + 1 + 2 + 1 + 36 + 20 + 1
  }

  function RigidBodyAt(h: Header, s: seq<byte>): (r: Result<Parsed<RigidBody>, Error>)
    ensures r.Success? ==> Took(s, r.value.rest, RigidBodySize(h, r.value.value))
    ensures r.Failure? ==> r.error == Eof
  {
    var nj :- TextAt(s);
    var ne :- TextAt(nj.rest);
    var bone :- IndexAt(ne.rest, h.boneIdxSize);
    var group :- U8At(bone.rest);
    var noCollide :- U16At(group.rest);
    var shape :- U8At(noCollide.rest);
    var size :- Vec3At(shape.rest);
    var pos :- Vec3At(size.rest);
    var rot :- Vec3At(pos.rest);
    var mass :- U32At(rot.rest);
    var moveDecay :- U32At(mass.rest);
    var rotDecay :- U32At(moveDecay.rest);
    var elastic :- U32At(rotDecay.rest);
    var friction :- U32At(elastic.rest);
    var kind :- U8At(friction.rest);
    Success(Parsed(RigidBody(nj.value, ne.value, bone.value, group.value, noCollide.value, shape.value,
                             size.value, pos.value, rot.value, mass.value, moveDecay.value,
                             rotDecay.value, elastic.value, friction.value, kind.value), kind.rest))
  }

  function RigidBodyDecoder(h: Header): (d: Rule<RigidBody>)
    ensures forall t {:trigger RigidBodyAt(h, t)} :: d(t) == RigidBodyAt(h, t)
  {
    t => RigidBodyAt(h, t)
  }

  // ---------------------------------------------------------------------
  // Joints (pmx_model.c:342-361)

  function JointSize(h: Header, j: Joint): nat
  {
    TextSize(j.nameJp) + TextSize(j.nameEn) + 1 + 2 * Width(h.rbIdxSize) + 8 * 12
  }

  function JointAt(h: Header, s: seq<byte>): (r: Result<Parsed<Joint>, Error>)
    ensures r.Success? ==> Took(s, r.value.rest, JointSize(h, r.value.value))
    ensures r.Failure? ==> r.error == Eof
  {
    var nj :- TextAt(s);
    var ne :- TextAt(nj.rest);
    var kind :- U8At(ne.rest);
    var a :- IndexAt(kind.rest, h.rbIdxSize);
    var b :- IndexAt(a.rest, h.rbIdxSize);
    var pos :- Vec3At(b.rest);
    var rot :- Vec3At(pos.rest);
    var posLimit :- LimitsAt(rot.rest);
    var rotLimit :- LimitsAt(posLimit.rest);
    var springPos :- Vec3At(rotLimit.rest);
    var springRot :- Vec3At(springPos.rest);
    Success(Parsed(Joint(nj.value, ne.value, kind.value, a.value, b.value, pos.value, rot.value,
                         posLimit.value, rotLimit.value, springPos.value, springRot.value), springRot.rest))
  }

  function JointDecoder(h: Header): (d: Rule<Joint>)
    ensures forall t {:trigger JointAt(h, t)} :: d(t) == JointAt(h, t)
  {
    t => JointAt(h, t)
  }

  // ---------------------------------------------------------------------
  // The driver (pmx_model.c:363-472)

  /** The parts of the file, in the order they are decoded. */
  datatype Section = HeaderSection | InfoSection | VertexSection | FaceSection | TextureSection
                   | MaterialSection | BoneSection | MorphSection | FrameSection
                   | RigidBodySection | JointSection

  datatype ParseError =
    | MagicMismatch            // the first four bytes are not "PMX "
    | AdditionalUv(count: uint8) // the header asks for additional UV sets
    | SectionFailed(section: Section, cause: Error)

  /** A section's record list read after its 32-bit count. */
  function SectionAt<T>(d: Rule<T>, s: seq<byte>): (r: Result<Parsed<seq<T>>, Error>)
    ensures r.Success? ==> |s| >= 4 && |r.value.value| == Le(s[..4])
  {
    var count :- U32At(s);
    Many(d, count.rest, count.value)
  }

  /** The face section: the stored count is a number of vertex indices, and
      only whole triangles, count / 3 of them, are read. */
  function FaceSectionAt(h: Header, s: seq<byte>): (r: Result<Parsed<seq<Face>>, Error>)
    ensures r.Success? ==> |s| >= 4 && |r.value.value| == Le(s[..4]) / 3
  {
    var count :- U32At(s);
    Many(FaceDecoder(h), count.rest, count.value / 3)
  }

  /** A decoder's failure, attributed to the section being decoded. */
  function Within<T>(sec: Section, r: Result<Parsed<T>, Error>): (q: Result<Parsed<T>, ParseError>)
    ensures q.Failure? <==> r.Failure?
    ensures q.Failure? ==> q.error == SectionFailed(sec, r.error)
    ensures q.Success? ==> q.value == r.value
  {
    match r
    case Success(p) => Success(p)
    case Failure(e) => Failure(SectionFailed(sec, e))
  }

  /** The header copied verbatim from the first 17 bytes. */
  function HeaderOf(b: seq<byte>): (h: Header)
    requires |b| >= HEADER_SIZE
    ensures h.sig == b[..4] && h.uvCount == b[10] as int
  {
    Pow256Widths();
    Header(b[..4], Le(b[4..8]), b[8] as int, b[9] as int, b[10] as int, b[11] as int,
           b[12] as int, b[13] as int, b[14] as int, b[15] as int, b[16] as int)
  }

  /** The 17 bytes of a packed PMXHeader. */
  function EncHeader(h: Header): (e: seq<byte>)
    requires |h.sig| == 4
    ensures |e| == HEADER_SIZE
  {
    h.sig + LeBytes(h.ver, 4)
    + [h.dataCount as byte, h.textEnc as byte, h.uvCount as byte, h.vertIdxSize as byte, h.texIdxSize as byte,
       h.matIdxSize as byte, h.boneIdxSize as byte, h.morphIdxSize as byte, h.rbIdxSize as byte]
  }

  /** The `memcpy` of the header loses nothing: writing the decoded header
      back out gives the first 17 bytes of the input. */
  lemma HeaderCopy(b: seq<byte>)
    requires |b| >= HEADER_SIZE
    ensures EncHeader(HeaderOf(b)) == b[..HEADER_SIZE]
  {
    LeBytesOfLe(b[4..8]);
    assert b[..HEADER_SIZE] == b[..4] + b[4..8] + b[8..HEADER_SIZE];
  }

  /** The signature check, the header copy and the additional-UV check. */
  function HeaderAt(buf: seq<byte>): (r: Result<Header, ParseError>)
    ensures r == Failure(MagicMismatch) <==> |buf| < 4 || buf[..4] != MAGIC
    ensures r == Failure(SectionFailed(HeaderSection, Eof)) <==> 4 <= |buf| < HEADER_SIZE && buf[..4] == MAGIC
    ensures r.Success? <==> |buf| >= HEADER_SIZE && buf[..4] == MAGIC && buf[10] == 0
    ensures |buf| >= HEADER_SIZE && buf[..4] == MAGIC && buf[10] > 0 ==> r == Failure(AdditionalUv(buf[10] as int))
    ensures r.Success? ==> r.value == HeaderOf(buf)
  {
    if |buf| < 4 || buf[..4] != MAGIC then Failure(MagicMismatch)
    else if |buf| < HEADER_SIZE then Failure(SectionFailed(HeaderSection, Eof))
    else if HeaderOf(buf).uvCount > 0 then Failure(AdditionalUv(HeaderOf(buf).uvCount))
    else Success(HeaderOf(buf))
  }

  /** The model before any section is read: the header and info block, and
      every record list still empty. */
  function Started(h: Header, info: Info): PmxData
  {
    PmxData(h, info, [], [], [], [], [], [], [], [], [])
  }

  // One function per section of `pmx_parse`: its records are read and
  // stored in the model built so far, or the section's failure is reported.

  /** Section 0: the vertices. */
  function VerticesStep(acc: PmxData, s: seq<byte>): (r: Result<Parsed<PmxData>, ParseError>)
    ensures r.Failure? <==> SectionAt(VertexDecoder(acc.header), s).Failure?
    ensures r.Failure? ==> r.error == SectionFailed(VertexSection, SectionAt(VertexDecoder(acc.header), s).error)
    ensures r.Success? ==> r.value == Parsed(acc.(vertices := SectionAt(VertexDecoder(acc.header), s).value.value), SectionAt(VertexDecoder(acc.header), s).value.rest)
    ensures r.Success? ==> SameIn(1, 9, r.value.value, acc)
  {
    var p :- Within(VertexSection, SectionAt(VertexDecoder(acc.header), s));
    Success(Parsed(acc.(vertices := p.value), p.rest))
  }

  /** Section 1: the faces. */
  function FacesStep(acc: PmxData, s: seq<byte>): (r: Result<Parsed<PmxData>, ParseError>)
    ensures r.Failure? <==> FaceSectionAt(acc.header, s).Failure?
    ensures r.Failure? ==> r.error == SectionFailed(FaceSection, FaceSectionAt(acc.header, s).error)
    ensures r.Success? ==> r.value == Parsed(acc.(faces := FaceSectionAt(acc.header, s).value.value), FaceSectionAt(acc.header, s).value.rest)
    ensures r.Success? ==> SameIn(0, 1, r.value.value, acc)
    ensures r.Success? ==> SameIn(2, 9, r.value.value, acc)
  {
    var p :- Within(FaceSection, FaceSectionAt(acc.header, s));
    Success(Parsed(acc.(faces := p.value), p.rest))
  }

  /** Section 2: the textures. */
  function TexturesStep(acc: PmxData, s: seq<byte>): (r: Result<Parsed<PmxData>, ParseError>)
    ensures r.Failure? <==> SectionAt(TextureDecoder(acc.header), s).Failure?
    ensures r.Failure? ==> r.error == SectionFailed(TextureSection, SectionAt(TextureDecoder(acc.header), s).error)
    ensures r.Success? ==> r.value == Parsed(acc.(textures := SectionAt(TextureDecoder(acc.header), s).value.value), SectionAt(TextureDecoder(acc.header), s).value.rest)
    ensures r.Success? ==> SameIn(0, 2, r.value.value, acc)
    ensures r.Success? ==> SameIn(3, 9, r.value.value, acc)
  {
    var p :- Within(TextureSection, SectionAt(TextureDecoder(acc.header), s));
    Success(Parsed(acc.(textures := p.value), p.rest))
  }

  /** Section 3: the materials. */
  function MaterialsStep(acc: PmxData, s: seq<byte>): (r: Result<Parsed<PmxData>, ParseError>)
    ensures r.Failure? <==> SectionAt(MaterialDecoder(acc.header), s).Failure?
    ensures r.Failure? ==> r.error == SectionFailed(MaterialSection, SectionAt(MaterialDecoder(acc.header), s).error)
    ensures r.Success? ==> r.value == Parsed(acc.(materials := SectionAt(MaterialDecoder(acc.header), s).value.value), SectionAt(MaterialDecoder(acc.header), s).value.rest)
    ensures r.Success? ==> SameIn(0, 3, r.value.value, acc)
    ensures r.Success? ==> SameIn(4, 9, r.value.value, acc)
  {
    var p :- Within(MaterialSection, SectionAt(MaterialDecoder(acc.header), s));
    Success(Parsed(acc.(materials := p.value), p.rest))
  }

  /** Section 4: the bones. */
  function BonesStep(acc: PmxData, s: seq<byte>): (r: Result<Parsed<PmxData>, ParseError>)
    ensures r.Failure? <==> SectionAt(BoneDecoder(acc.header), s).Failure?
    ensures r.Failure? ==> r.error == SectionFailed(BoneSection, SectionAt(BoneDecoder(acc.header), s).error)
    ensures r.Success? ==> r.value == Parsed(acc.(bones := SectionAt(BoneDecoder(acc.header), s).value.value), SectionAt(BoneDecoder(acc.header), s).value.rest)
    ensures r.Success? ==> SameIn(0, 4, r.value.value, acc)
    ensures r.Success? ==> SameIn(5, 9, r.value.value, acc)
  {
    var p :- Within(BoneSection, SectionAt(BoneDecoder(acc.header), s));
    Success(Parsed(acc.(bones := p.value), p.rest))
  }

  /** Section 5: the morphs. */
  function MorphsStep(acc: PmxData, s: seq<byte>): (r: Result<Parsed<PmxData>, ParseError>)
    ensures r.Failure? <==> SectionAt(MorphDecoder(acc.header), s).Failure?
    ensures r.Failure? ==> r.error == SectionFailed(MorphSection, SectionAt(MorphDecoder(acc.header), s).error)
    ensures r.Success? ==> r.value == Parsed(acc.(morphs := SectionAt(MorphDecoder(acc.header), s).value.value), SectionAt(MorphDecoder(acc.header), s).value.rest)
    ensures r.Success? ==> SameIn(0, 5, r.value.value, acc)
    ensures r.Success? ==> SameIn(6, 9, r.value.value, acc)
  {
    var p :- Within(MorphSection, SectionAt(MorphDecoder(acc.header), s));
    Success(Parsed(acc.(morphs := p.value), p.rest))
  }

  /** Section 6: the frames. */
  function FramesStep(acc: PmxData, s: seq<byte>): (r: Result<Parsed<PmxData>, ParseError>)
    ensures r.Failure? <==> SectionAt(FrameDecoder(acc.header), s).Failure?
    ensures r.Failure? ==> r.error == SectionFailed(FrameSection, SectionAt(FrameDecoder(acc.header), s).error)
    ensures r.Success? ==> r.value == Parsed(acc.(frames := SectionAt(FrameDecoder(acc.header), s).value.value), SectionAt(FrameDecoder(acc.header), s).value.rest)
    ensures r.Success? ==> SameIn(0, 6, r.value.value, acc)
    ensures r.Success? ==> SameIn(7, 9, r.value.value, acc)
  {
    var p :- Within(FrameSection, SectionAt(FrameDecoder(acc.header), s));
    Success(Parsed(acc.(frames := p.value), p.rest))
  }

  /** Section 7: the rigidBodies. */
  function RigidBodiesStep(acc: PmxData, s: seq<byte>): (r: Result<Parsed<PmxData>, ParseError>)
    ensures r.Failure? <==> SectionAt(RigidBodyDecoder(acc.header), s).Failure?
    ensures r.Failure? ==> r.error == SectionFailed(RigidBodySection, SectionAt(RigidBodyDecoder(acc.header), s).error)
    ensures r.Success? ==> r.value == Parsed(acc.(rigidBodies := SectionAt(RigidBodyDecoder(acc.header), s).value.value), SectionAt(RigidBodyDecoder(acc.header), s).value.rest)
    ensures r.Success? ==> SameIn(0, 7, r.value.value, acc)
    ensures r.Success? ==> SameIn(8, 9, r.value.value, acc)
  {
    var p :- Within(RigidBodySection, SectionAt(RigidBodyDecoder(acc.header), s));
    Success(Parsed(acc.(rigidBodies := p.value), p.rest))
  }

  /** Section 8: the joints. */
  function JointsStep(acc: PmxData, s: seq<byte>): (r: Result<Parsed<PmxData>, ParseError>)
    ensures r.Failure? <==> SectionAt(JointDecoder(acc.header), s).Failure?
    ensures r.Failure? ==> r.error == SectionFailed(JointSection, SectionAt(JointDecoder(acc.header), s).error)
    ensures r.Success? ==> r.value == Parsed(acc.(joints := SectionAt(JointDecoder(acc.header), s).value.value), SectionAt(JointDecoder(acc.header), s).value.rest)
    ensures r.Success? ==> SameIn(0, 8, r.value.value, acc)
  {
    var p :- Within(JointSection, SectionAt(JointDecoder(acc.header), s));
    Success(Parsed(acc.(joints := p.value), p.rest))
  }

  /** Where section `sec` comes in the order `pmx_parse` reads them; the
      header and the info block come before every record section. */
  function SectionIndex(sec: Section): int
  {
    match sec
    case HeaderSection => -2
    case InfoSection => -1
    case VertexSection => 0
    case FaceSection => 1
    case TextureSection => 2
    case MaterialSection => 3
    case BoneSection => 4
    case MorphSection => 5
    case FrameSection => 6
    case RigidBodySection => 7
    case JointSection => 8
  }

  /** `a` and `b` hold the same records in every section whose index lies in
      `lo` .. `hi` - 1. */
  predicate SameIn(lo: int, hi: int, a: PmxData, b: PmxData)
  {
    && (lo <= 0 < hi ==> a.vertices == b.vertices)
    && (lo <= 1 < hi ==> a.faces == b.faces)
    && (lo <= 2 < hi ==> a.textures == b.textures)
    && (lo <= 3 < hi ==> a.materials == b.materials)
    && (lo <= 4 < hi ==> a.bones == b.bones)
    && (lo <= 5 < hi ==> a.morphs == b.morphs)
    && (lo <= 6 < hi ==> a.frames == b.frames)
    && (lo <= 7 < hi ==> a.rigidBodies == b.rigidBodies)
    && (lo <= 8 < hi ==> a.joints == b.joints)
  }

  /** What the sections from one on leave: the model when none of them
      fails, or the failure of the first that does, together with the model
      as `pmx_parse` had built it when it stopped. */
  datatype Outcome = Outcome(result: Result<PmxData, ParseError>, reached: PmxData)

  /** Sections 0 to 8 read in order on top of `acc`, the first failure
      stopping them: every section before the failing one is read whole,
      the failing one and those after it stay as in `acc`. */
  function FromVertices(acc: PmxData, s: seq<byte>): (r: Outcome)
    ensures r.result.Success? ==> r.reached == r.result.value
    ensures r.result.Success? ==> r.result.value.header == acc.header && r.result.value.info == acc.info
    ensures r.result.Failure? ==> r.result.error.SectionFailed?
  {
    match VerticesStep(acc, s)
    case Failure(e) => Outcome(Failure(e), acc)
    case Success(p) => FromFaces(p.value, p.rest)
  }

  /** Sections 1 to 8 read in order on top of `acc`. */
  function FromFaces(acc: PmxData, s: seq<byte>): (r: Outcome)
    ensures r.result.Success? ==> r.reached == r.result.value
    ensures r.result.Success? ==> r.result.value.header == acc.header && r.result.value.info == acc.info
    ensures r.result.Failure? ==> r.result.error.SectionFailed?
    ensures SameIn(0, 1, r.reached, acc)
  {
    match FacesStep(acc, s)
    case Failure(e) => Outcome(Failure(e), acc)
    case Success(p) => FromTextures(p.value, p.rest)
  }

  /** Sections 2 to 8 read in order on top of `acc`. */
  function FromTextures(acc: PmxData, s: seq<byte>): (r: Outcome)
    ensures r.result.Success? ==> r.reached == r.result.value
    ensures r.result.Success? ==> r.result.value.header == acc.header && r.result.value.info == acc.info
    ensures r.result.Failure? ==> r.result.error.SectionFailed?
    ensures SameIn(0, 2, r.reached, acc)
  {
    match TexturesStep(acc, s)
    case Failure(e) => Outcome(Failure(e), acc)
    case Success(p) => FromMaterials(p.value, p.rest)
  }

  /** Sections 3 to 8 read in order on top of `acc`. */
  function FromMaterials(acc: PmxData, s: seq<byte>): (r: Outcome)
    ensures r.result.Success? ==> r.reached == r.result.value
    ensures r.result.Success? ==> r.result.value.header == acc.header && r.result.value.info == acc.info
    ensures r.result.Failure? ==> r.result.error.SectionFailed?
    ensures SameIn(0, 3, r.reached, acc)
  {
    match MaterialsStep(acc, s)
    case Failure(e) => Outcome(Failure(e), acc)
    case Success(p) => FromBones(p.value, p.rest)
  }

  /** Sections 4 to 8 read in order on top of `acc`. */
  function FromBones(acc: PmxData, s: seq<byte>): (r: Outcome)
    ensures r.result.Success? ==> r.reached == r.result.value
    ensures r.result.Success? ==> r.result.value.header == acc.header && r.result.value.info == acc.info
    ensures r.result.Failure? ==> r.result.error.SectionFailed?
    ensures SameIn(0, 4, r.reached, acc)
  {
    match BonesStep(acc, s)
    case Failure(e) => Outcome(Failure(e), acc)
    case Success(p) => FromMorphs(p.value, p.rest)
  }

  /** Sections 5 to 8 read in order on top of `acc`. */
  function FromMorphs(acc: PmxData, s: seq<byte>): (r: Outcome)
    ensures r.result.Success? ==> r.reached == r.result.value
    ensures r.result.Success? ==> r.result.value.header == acc.header && r.result.value.info == acc.info
    ensures r.result.Failure? ==> r.result.error.SectionFailed?
    ensures SameIn(0, 5, r.reached, acc)
  {
    match MorphsStep(acc, s)
    case Failure(e) => Outcome(Failure(e), acc)
    case Success(p) => FromFrames(p.value, p.rest)
  }

  /** Sections 6 to 8 read in order on top of `acc`. */
  function FromFrames(acc: PmxData, s: seq<byte>): (r: Outcome)
    ensures r.result.Success? ==> r.reached == r.result.value
    ensures r.result.Success? ==> r.result.value.header == acc.header && r.result.value.info == acc.info
    ensures r.result.Failure? ==> r.result.error.SectionFailed?
    ensures SameIn(0, 6, r.reached, acc)
  {
    match FramesStep(acc, s)
    case Failure(e) => Outcome(Failure(e), acc)
    case Success(p) => FromRigidBodies(p.value, p.rest)
  }

  /** Sections 7 to 8 read in order on top of `acc`. */
  function FromRigidBodies(acc: PmxData, s: seq<byte>): (r: Outcome)
    ensures r.result.Success? ==> r.reached == r.result.value
    ensures r.result.Success? ==> r.result.value.header == acc.header && r.result.value.info == acc.info
    ensures r.result.Failure? ==> r.result.error.SectionFailed?
    ensures SameIn(0, 7, r.reached, acc)
  {
    match RigidBodiesStep(acc, s)
    case Failure(e) => Outcome(Failure(e), acc)
    case Success(p) => FromJoints(p.value, p.rest)
  }

  /** Section 8, the last, read on top of `acc`. */
  function FromJoints(acc: PmxData, s: seq<byte>): (r: Outcome)
    ensures r.result.Success? ==> r.reached == r.result.value
    ensures r.result.Success? ==> r.result.value.header == acc.header && r.result.value.info == acc.info
    ensures r.result.Failure? ==> r.result.error.SectionFailed?
    ensures SameIn(0, 8, r.reached, acc)
  {
    match JointsStep(acc, s)
    case Failure(e) => Outcome(Failure(e), acc)
    case Success(p) => Outcome(Success(p.value), p.value)
  }

  /** Where a failure of `pmx_parse` stops it: the index of the failing
      section, or below every section for a failure before the first. */
  function StoppedAt(e: ParseError): int
  {
    if e.SectionFailed? then SectionIndex(e.section) else -3
  }

  /** The start of `pmx_parse`: the signature, the additional-UV check and
      the info block, giving the model with no section read yet. */
  function PreambleAt(buf: seq<byte>): (r: Result<Parsed<PmxData>, ParseError>)
    ensures r == Failure(MagicMismatch) <==> |buf| < 4 || buf[..4] != MAGIC
    ensures |buf| >= HEADER_SIZE && buf[..4] == MAGIC && buf[10] > 0 ==> r == Failure(AdditionalUv(buf[10] as int))
    ensures r.Success? ==> |buf| >= HEADER_SIZE && r.value.value.header == HeaderOf(buf) && r.value.value.header.uvCount == 0
    ensures r.Success? ==> InfoAt(buf[HEADER_SIZE..]).Success? && r.value.value.info == InfoAt(buf[HEADER_SIZE..]).value.value
  {
    var h :- HeaderAt(buf);
    var info :- Within(InfoSection, InfoAt(buf[HEADER_SIZE..]));
    Success(Parsed(Started(h, info.value), info.rest))
  }

  /** `pmx_parse`: the preamble, then the nine sections strictly in order,
      stopping at the first failure. */
  function ModelAt(buf: seq<byte>): (r: Result<PmxData, ParseError>)
    ensures r == Failure(MagicMismatch) <==> |buf| < 4 || buf[..4] != MAGIC
    ensures |buf| >= HEADER_SIZE && buf[..4] == MAGIC && buf[10] > 0 ==> r == Failure(AdditionalUv(buf[10] as int))
    ensures r.Success? ==> |buf| >= HEADER_SIZE && r.value.header == HeaderOf(buf) && r.value.header.uvCount == 0
    ensures r.Success? ==> InfoAt(buf[HEADER_SIZE..]).Success? && r.value.info == InfoAt(buf[HEADER_SIZE..]).value.value
  {
    var pre :- PreambleAt(buf);
    FromVertices(pre.value, pre.rest).result
  }

  /** Once the preamble is read, the model is whatever the sections after it
      make of it. */
  lemma ModelAfterPreamble(buf: seq<byte>, pre: Parsed<PmxData>)
    requires PreambleAt(buf) == Success(pre)
    ensures ModelAt(buf) == FromVertices(pre.value, pre.rest).result
  {
  }

  /** What `pmx_parse` has read when a section fails: the sections before it. */
  function ReachedAt(buf: seq<byte>): PmxData
    requires PreambleAt(buf).Success?
  {
    FromVertices(PreambleAt(buf).value.value, PreambleAt(buf).value.rest).reached
  }

  lemma ReachedAfterPreamble(buf: seq<byte>, pre: Parsed<PmxData>)
    requires PreambleAt(buf) == Success(pre)
    ensures ReachedAt(buf) == FromVertices(pre.value, pre.rest).reached
  {
  }
}
