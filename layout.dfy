/** The record layouts, tag enumerations, bone flag bits and constants of the
    PMX model format as pmx_model.h declares them.  The header only declares
    types; every record here is a value.  Where the C struct holds a union
    selected by a tag byte or by flag bits, the record holds a sum type or an
    `Option`, one alternative per layout the decoder can read. */
module Layout {
  import opened Wire

  /** Stored text is truncated to this many bytes (pmx_model.h:19). */
  const MAX_TEXT_LEN: nat := 64

  /** Toon modes of a material (pmx_model.h:22-23). */
  const TOON_TEX: uint8 := 0
  const TOON_BUILTIN: uint8 := 1

  /** Size of the packed header: 4-byte signature, 4-byte version, 9 bytes. */
  const HEADER_SIZE: nat := 17

  /** The signature "PMX " (0x50 0x4D 0x58 0x20). */
  const MAGIC: seq<byte> := [0x50, 0x4D, 0x58, 0x20]

  function Min(a: nat, b: nat): nat { if a < b then a else b }

  /** PMXHeader: the nine one-byte fields after the signature and version.
      `data_count` is stored but never consulted: the decoder assumes the
      eight globals that follow it. */
  datatype Header = Header(
    sig: seq<byte>, ver: F32,
    dataCount: uint8, textEnc: uint8, uvCount: uint8,
    vertIdxSize: uint8, texIdxSize: uint8, matIdxSize: uint8,
    boneIdxSize: uint8, morphIdxSize: uint8, rbIdxSize: uint8)

  /** PMXText: the declared byte length and the bytes kept of it. */
  datatype Text = Text(len: uint32, text: seq<byte>)

  /** A text as the decoder leaves it: exactly the first min(len, 64) bytes. */
  predicate WfText(t: Text)
  {
    |t.text| == Min(t.len, MAX_TEXT_LEN)
  }

  datatype Vec2 = Vec2(x: F32, y: F32)
  datatype Vec3 = Vec3(x: F32, y: F32, z: F32)
  datatype Vec4 = Vec4(x: F32, y: F32, z: F32, w: F32)

  datatype Info = Info(nameJp: Text, nameEn: Text, commJp: Text, commEn: Text)

  /** PMXWeightType (pmx_model.h:58-64). */
  datatype WeightType = BDEF1 | BDEF2 | BDEF4 | SDEF

  function WeightTypeCode(t: WeightType): uint8
  {
    match t
    case BDEF1 => 0
    case BDEF2 => 1
    case BDEF4 => 2
    case SDEF => 3
  }

  /** The weight type a tag byte names: exactly the tags 0..3 name one. */
  function WeightTypeOf(tag: uint8): (r: Option<WeightType>)
    ensures r.Some? <==> tag <= 3
    ensures r.Some? ==> WeightTypeCode(r.value) == tag
  {
    if tag == 0 then Some(BDEF1)
    else if tag == 1 then Some(BDEF2)
    else if tag == 2 then Some(BDEF4)
    else if tag == 3 then Some(SDEF)
    else None
  }

  /** The union `weight` of PMXVert, one alternative per weight type.  The
      bone indices are 32-bit slots filled from `bone_idx_size` bytes. */
  datatype Weight =
    | Bdef1(idx0: uint32)
    | Bdef2(idx0: uint32, idx1: uint32, w0: F32)
    | Bdef4(idx: seq<uint32>, w: Vec4)
    | Sdef(idx0: uint32, idx1: uint32, w0: F32, c: Vec3, r0: Vec3, r1: Vec3)

  function WeightKind(w: Weight): WeightType
  {
    match w
    case Bdef1(_) => BDEF1
    case Bdef2(_, _, _) => BDEF2
    case Bdef4(_, _) => BDEF4
    case Sdef(_, _, _, _, _, _) => SDEF
  }

  datatype Vertex = Vertex(pos: Vec3, normal: Vec3, uv: Vec2, weight: Weight, edgeScale: F32)

  datatype Face = Face(i0: uint32, i1: uint32, i2: uint32)

  datatype Texture = Texture(name: Text)

  datatype Material = Material(
    nameJp: Text, nameEn: Text,
    diffuse: Vec4, specular: Vec3, power: F32, ambient: Vec3,
    drawMode: uint8, edge: Vec4, edgeSize: F32,
    texIdx: uint32, envIdx: uint32, envMode: uint8,
    toonMode: uint8, toonIdx: uint32,
    memo: Text, faceCount: uint32)

  /** A lower/upper pair of 3-vectors: an IK link's rotation limit, a joint's
      position or rotation limit. */
  datatype Limits = Limits(lower: Vec3, upper: Vec3)

  /** PMXIKLink: `limit` is present exactly when `has_limit` is non-zero. */
  datatype IkLink = IkLink(idx: uint32, hasLimit: uint8, limit: Option<Limits>)

  // Bone flag bits (pmx_model.h:137-149).
  const BONE_FLAG_CONNECTED: bv16 := 1 << 0
  const BONE_FLAG_ROTATABLE: bv16 := 1 << 1
  const BONE_FLAG_MOVEABLE: bv16 := 1 << 2
  const BONE_FLAG_DISPLAY: bv16 := 1 << 3
  const BONE_FLAG_OPERATABLE: bv16 := 1 << 4
  const BONE_FLAG_IK: bv16 := 1 << 5
  const BONE_FLAG_LINK_DEFORM: bv16 := 1 << 7
  const BONE_FLAG_LINK_ROTATION: bv16 := 1 << 8
  const BONE_FLAG_LINK_MOVE: bv16 := 1 << 9
  const BONE_FLAG_FIXED_AXIS: bv16 := 1 << 10
  const BONE_FLAG_LOCAL_AXIS: bv16 := 1 << 11
  const BONE_FLAG_PHYSICAL_TRANSFORM: bv16 := 1 << 12
  const BONE_FLAG_EXT_PARENT_TRANSFORM: bv16 := 1 << 13

  /** `flags & bit` is non-zero. */
  predicate HasFlag(flags: uint16, bit: bv16)
  {
    (flags as bv16) & bit != 0
  }

  /** The seven bits that decide which optional bone fields are present. */
  const GATING_FLAGS: seq<bv16> := [
    BONE_FLAG_CONNECTED, BONE_FLAG_IK, BONE_FLAG_LINK_ROTATION, BONE_FLAG_LINK_MOVE,
    BONE_FLAG_FIXED_AXIS, BONE_FLAG_LOCAL_AXIS, BONE_FLAG_EXT_PARENT_TRANSFORM]

  /** The gating bits are the documented single bits, no two alike, so each
      optional bone field is switched by a flag of its own. */
  lemma GatingFlagsAreDistinctBits()
    ensures BONE_FLAG_CONNECTED == 1 && BONE_FLAG_IK == 0x20
    ensures BONE_FLAG_LINK_ROTATION == 0x100 && BONE_FLAG_LINK_MOVE == 0x200
    ensures BONE_FLAG_FIXED_AXIS == 0x400 && BONE_FLAG_LOCAL_AXIS == 0x800
    ensures BONE_FLAG_EXT_PARENT_TRANSFORM == 0x2000
    ensures forall i :: 0 <= i < |GATING_FLAGS| ==> GATING_FLAGS[i] != 0 && GATING_FLAGS[i] & (GATING_FLAGS[i] - 1) == 0
    ensures forall i, j :: 0 <= i < j < |GATING_FLAGS| ==> GATING_FLAGS[i] & GATING_FLAGS[j] == 0
  {
  }

  /** Bone `tip`: a target bone index when CONNECTED is set, else an offset. */
  datatype Tip = TipTarget(target: uint32) | TipOffset(offset: Vec3)

  /** Bone `link`: the bone whose rotation or movement is inherited. */
  datatype BoneLink = BoneLink(idx: uint32, rate: F32)

  datatype LocalAxis = LocalAxis(x: Vec3, z: Vec3)

  /** Bone `ik`: `links` has `linkCount` entries, and no list exists when
      `linkCount` is 0. */
  datatype Ik = Ik(target: uint32, loop: uint32, limitAngle: F32, linkCount: uint32, links: seq<IkLink>)

  datatype Bone = Bone(
    nameJp: Text, nameEn: Text, pos: Vec3,
    parent: uint32, transformLayer: uint32, flags: uint16,
    tip: Tip,
    link: Option<BoneLink>,
    fixedAxis: Option<Vec3>,
    localAxis: Option<LocalAxis>,
    extParentKey: Option<uint32>,
    ik: Option<Ik>)

  /** A zero-filled PMXBone, as calloc leaves it: no IK block, no link list. */
  const ZERO_BONE: Bone := Bone(Text(0, []), Text(0, []), Vec3(0, 0, 0), 0, 0, 0,
    TipTarget(0), None, None, None, None, None)

  /** PMXMorphType (pmx_model.h:182-195). */
  datatype MorphType = Group | VertexMorph | BoneMorph | Uv | AddUv1 | AddUv2 | AddUv3 | AddUv4
                     | MaterialMorph | Flip | Impulse

  function MorphTypeCode(t: MorphType): uint8
  {
    match t
    case Group => 0
    case VertexMorph => 1
    case BoneMorph => 2
    case Uv => 3
    case AddUv1 => 4
    case AddUv2 => 5
    case AddUv3 => 6
    case AddUv4 => 7
    case MaterialMorph => 8
    case Flip => 9
    case Impulse => 10
  }

  predicate IsUvMorph(t: MorphType)
  {
    t == Uv || t == AddUv1 || t == AddUv2 || t == AddUv3 || t == AddUv4
  }

  /** The morph type a tag byte names: exactly the tags 0..10 name one, the UV
      morphs are the tags 3..7, MATERIAL is 8, FLIP 9 and IMPULSE 10. */
  function MorphTypeOf(tag: uint8): (r: Option<MorphType>)
    ensures r.Some? <==> tag <= 10
    ensures r.Some? ==> MorphTypeCode(r.value) == tag
    ensures r.Some? ==> (IsUvMorph(r.value) <==> 3 <= tag <= 7)
  {
    if tag == 0 then Some(Group)
    else if tag == 1 then Some(VertexMorph)
    else if tag == 2 then Some(BoneMorph)
    else if tag == 3 then Some(Uv)
    else if tag == 4 then Some(AddUv1)
    else if tag == 5 then Some(AddUv2)
    else if tag == 6 then Some(AddUv3)
    else if tag == 7 then Some(AddUv4)
    else if tag == 8 then Some(MaterialMorph)
    else if tag == 9 then Some(Flip)
    else if tag == 10 then Some(Impulse)
    else None
  }

  /** The colour part of a material morph offset. */
  datatype Tints = Tints(diffuse: Vec4, specular: Vec3, power: F32, ambient: Vec3, edge: Vec4,
                         edgeSize: F32, tex: Vec4, env: Vec4, toon: Vec4)

  /** PMXMorphOffset, one alternative per layout; group and flip share one,
      the five UV morph types share another. */
  datatype MorphOffset =
    | GroupFlipOffset(idx: uint32, rate: F32)
    | VertexOffset(idx: uint32, offset: Vec3)
    | BoneOffset(idx: uint32, move: Vec3, rotation: Vec4)
    | UvOffset(idx: uint32, uvOffset: Vec4)
    | MaterialOffset(idx: uint32, op: uint8, tints: Tints)
    | ImpulseOffset(idx: uint32, local: uint8, velocity: Vec3, torque: Vec3)

  /** The layout a morph type selects for its offsets. */
  predicate OffsetMatches(t: MorphType, o: MorphOffset)
  {
    match o
    case GroupFlipOffset(_, _) => t == Group || t == Flip
    case VertexOffset(_, _) => t == VertexMorph
    case BoneOffset(_, _, _) => t == BoneMorph
    case UvOffset(_, _) => IsUvMorph(t)
    case MaterialOffset(_, _, _) => t == MaterialMorph
    case ImpulseOffset(_, _, _, _) => t == Impulse
  }

  /** PMXMorph: `morphType` is the raw tag byte, which is only interpreted when
      there are offsets to read. */
  datatype Morph = Morph(nameJp: Text, nameEn: Text, panel: uint8, morphType: uint8,
                         offsetCount: uint32, offsets: seq<MorphOffset>)

  const ZERO_MORPH: Morph := Morph(Text(0, []), Text(0, []), 0, 0, 0, [])

  /** PMXFrameElemType (pmx_model.h:246-250). */
  datatype FrameElemType = BoneElem | MorphElem

  function FrameElemTypeCode(t: FrameElemType): uint8
  {
    match t
    case BoneElem => 0
    case MorphElem => 1
  }

  function FrameElemTypeOf(tag: uint8): (r: Option<FrameElemType>)
    ensures r.Some? <==> tag <= 1
    ensures r.Some? ==> FrameElemTypeCode(r.value) == tag
  {
    if tag == 0 then Some(BoneElem) else if tag == 1 then Some(MorphElem) else None
  }

  datatype FrameElement = FrameElement(elemType: FrameElemType, idx: uint32)

  datatype Frame = Frame(nameJp: Text, nameEn: Text, special: uint8,
                         elemCount: uint32, elems: seq<FrameElement>)

  const ZERO_FRAME: Frame := Frame(Text(0, []), Text(0, []), 0, 0, [])

  datatype RigidBody = RigidBody(
    nameJp: Text, nameEn: Text, boneIdx: uint32,
    group: uint8, noCollideGroup: uint16,
    shape: uint8, shapeSize: Vec3, pos: Vec3, rot: Vec3,
    mass: F32, moveDecay: F32, rotDecay: F32, elastic: F32, friction: F32,
    bodyType: uint8)

  datatype Joint = Joint(
    nameJp: Text, nameEn: Text, jointType: uint8,
    idx1: uint32, idx2: uint32, pos: Vec3, rot: Vec3,
    posLimit: Limits, rotLimit: Limits,
    springPos: Vec3, springRot: Vec3)

  /** The contents of a fully decoded PMXModel.  The section counts are the
      lengths of the sequences; the face count is the number of triangles. */
  datatype PmxData = PmxData(
    header: Header, info: Info,
    vertices: seq<Vertex>, faces: seq<Face>, textures: seq<Texture>,
    materials: seq<Material>, bones: seq<Bone>, morphs: seq<Morph>,
    frames: seq<Frame>, rigidBodies: seq<RigidBody>, joints: seq<Joint>)
}
