/** The decoded model as `pmx_parse` fills it and `pmx_free` releases it
    (pmx_model.h PMXModel, pmx_model.c:363-529).

    Each section's records live in an array allocated for the count read in
    front of it; a bone with IK links, a morph with offsets and a frame with
    elements own a further nested block.  The ghost set `live` stands for
    the heap blocks a model owns: `Parse` adds what it allocates, `Free`
    removes what it releases, and `Valid` says that `live` is exactly what
    the arrays reach. */
module Model {
  import opened Wire
  import opened Layout
  import opened Grammar
  import opened Decoder

  /** One heap block: a section's record array, or the nested list that
      record number `index` of a section owns. */
  datatype Block =
    | SectionBlock(section: Section)
    | NestedBlock(section: Section, index: nat)

  /** `bones[i].ik.links` is non-null: the bone has an IK block with at
      least one link (pmx_model.c:193-204). */
  predicate HasLinks(b: Bone)
  {
    b.ik.Some? && |b.ik.value.links| > 0
  }

  /** `morphs[i].offsets` is non-null (pmx_model.c:272-276). */
  predicate HasOffsets(m: Morph)
  {
    |m.offsets| > 0
  }

  /** `frames[i].elems` is non-null (pmx_model.c:309-313). */
  predicate HasElems(f: Frame)
  {
    |f.elems| > 0
  }

  /** `b` is the nested list of a record of `s`, whose records own one when
      `has` holds of them, in section `sec`. */
  predicate NestedOwned<T>(s: seq<T>, sec: Section, has: T -> bool, b: Block)
  {
    b.NestedBlock? && b.section == sec && b.index < |s| && has(s[b.index])
  }

  /** The nested lists the records of `s` own. */
  ghost function NestedIn<T>(s: seq<T>, sec: Section, has: T -> bool): (blocks: set<Block>)
    ensures forall b :: b in blocks <==> NestedOwned(s, sec, has, b)
  {
    var blocks := set i | 0 <= i < |s| && has(s[i]) :: NestedBlock(sec, i);
    assert forall b :: NestedOwned(s, sec, has, b) ==> b == NestedBlock(sec, b.index);
    blocks
  }

  /** A section's outcome as `pmx_parse` leaves it in the model: the
      grammar's failure, attributed to the section, or exactly the records it
      decodes stored in the section's array, with the cursor at the rest. */
  predicate Stored<T(==)>(buf: seq<byte>, r: Result<nat, ParseError>, arr: array?<T>, sec: Section,
                      spec: Result<Parsed<seq<T>>, Error>)
    reads arr
  {
    match spec
    case Failure(e) => r == Failure(SectionFailed(sec, e))
    case Success(p) => r.Success? && arr != null && arr[..] == p.value && r.value <= |buf| && buf[r.value..] == p.rest
  }

  /** `arr` is allocated and holds exactly the records `s`. */
  ghost predicate Holds<T>(arr: array?<T>, s: seq<T>)
    reads arr
  {
    arr != null && arr[..] == s
  }

  // The zero-filled records `calloc` hands out before a section is read.
  const ZERO_TEXT: Text := Text(0, [])
  const ZERO_VEC3: Vec3 := Vec3(0, 0, 0)
  const ZERO_VEC4: Vec4 := Vec4(0, 0, 0, 0)
  const ZERO_VERTEX: Vertex := Vertex(ZERO_VEC3, ZERO_VEC3, Vec2(0, 0), Bdef1(0), 0)
  const ZERO_FACE: Face := Face(0, 0, 0)
  const ZERO_TEXTURE: Texture := Texture(ZERO_TEXT)
  const ZERO_MATERIAL: Material := Material(ZERO_TEXT, ZERO_TEXT, ZERO_VEC4, ZERO_VEC3, 0, ZERO_VEC3,
                                            0, ZERO_VEC4, 0, 0, 0, 0, 0, 0, ZERO_TEXT, 0)
  const ZERO_RIGID_BODY: RigidBody := RigidBody(ZERO_TEXT, ZERO_TEXT, 0, 0, 0, 0, ZERO_VEC3, ZERO_VEC3,
                                                ZERO_VEC3, 0, 0, 0, 0, 0, 0)
  const ZERO_JOINT: Joint := Joint(ZERO_TEXT, ZERO_TEXT, 0, 0, 0, ZERO_VEC3, ZERO_VEC3,
                                   Limits(ZERO_VEC3, ZERO_VEC3), Limits(ZERO_VEC3, ZERO_VEC3),
                                   ZERO_VEC3, ZERO_VEC3)

  // ---------------------------------------------------------------------
  // One section of pmx_parse: the 32-bit count, `calloc` of that many
  // zeroed records, and the record loop over them (pmx_model.c:387-471).
  // No array is allocated when the count itself cannot be read.

  method ReadVertexSection(buf: seq<byte>, pos: nat, h: Header) returns (arr: array?<Vertex>, r: Result<nat, Error>)
    requires pos <= |buf|
    ensures arr == null <==> |buf| - pos < 4
    ensures arr != null ==> fresh(arr) && arr.Length == Le(buf[pos..pos + 4])
    ensures arr != null ==> arr.Length < 0x1_0000_0000
    ensures ListAgrees(buf, r, if arr == null then [] else arr[..], SectionAt(VertexDecoder(h), buf[pos..]))
  {
    var count := ReadU32(buf, pos);
    if count.Failure? {
      return null, Failure(count.error);
    }
    assert buf[pos..][..4] == buf[pos..pos + 4];
    arr := new Vertex[count.value.value](_ => ZERO_VERTEX);
    r := ParseVertices(buf, count.value.next, h, arr, VertexDecoder(h));
  }

  method ReadFaceSection(buf: seq<byte>, pos: nat, h: Header) returns (arr: array?<Face>, r: Result<nat, Error>)
    requires pos <= |buf|
    ensures arr == null <==> |buf| - pos < 4
    ensures arr != null ==> fresh(arr) && arr.Length == Le(buf[pos..pos + 4]) / 3
    ensures arr != null ==> arr.Length < 0x1_0000_0000
    ensures ListAgrees(buf, r, if arr == null then [] else arr[..], FaceSectionAt(h, buf[pos..]))
  {
    var count := ReadU32(buf, pos);
    if count.Failure? {
      return null, Failure(count.error);
    }
    assert buf[pos..][..4] == buf[pos..pos + 4];
    arr := new Face[count.value.value / 3](_ => ZERO_FACE);
    r := ParseFaces(buf, count.value.next, h, arr, FaceDecoder(h));
  }

  method ReadTextureSection(buf: seq<byte>, pos: nat, h: Header) returns (arr: array?<Texture>, r: Result<nat, Error>)
    requires pos <= |buf|
    ensures arr == null <==> |buf| - pos < 4
    ensures arr != null ==> fresh(arr) && arr.Length == Le(buf[pos..pos + 4])
    ensures arr != null ==> arr.Length < 0x1_0000_0000
    ensures ListAgrees(buf, r, if arr == null then [] else arr[..], SectionAt(TextureDecoder(h), buf[pos..]))
  {
    var count := ReadU32(buf, pos);
    if count.Failure? {
      return null, Failure(count.error);
    }
    assert buf[pos..][..4] == buf[pos..pos + 4];
    arr := new Texture[count.value.value](_ => ZERO_TEXTURE);
    r := ParseTextures(buf, count.value.next, arr, TextureDecoder(h));
  }

  method ReadMaterialSection(buf: seq<byte>, pos: nat, h: Header) returns (arr: array?<Material>, r: Result<nat, Error>)
    requires pos <= |buf|
    ensures arr == null <==> |buf| - pos < 4
    ensures arr != null ==> fresh(arr) && arr.Length == Le(buf[pos..pos + 4])
    ensures arr != null ==> arr.Length < 0x1_0000_0000
    ensures ListAgrees(buf, r, if arr == null then [] else arr[..], SectionAt(MaterialDecoder(h), buf[pos..]))
  {
    var count := ReadU32(buf, pos);
    if count.Failure? {
      return null, Failure(count.error);
    }
    assert buf[pos..][..4] == buf[pos..pos + 4];
    arr := new Material[count.value.value](_ => ZERO_MATERIAL);
    r := ParseMaterials(buf, count.value.next, h, arr, MaterialDecoder(h));
  }

  method ReadBoneSection(buf: seq<byte>, pos: nat, h: Header) returns (arr: array?<Bone>, r: Result<nat, Error>)
    requires pos <= |buf|
    ensures arr == null <==> |buf| - pos < 4
    ensures arr != null ==> fresh(arr) && arr.Length == Le(buf[pos..pos + 4])
    ensures arr != null ==> arr.Length < 0x1_0000_0000
    ensures ListAgrees(buf, r, if arr == null then [] else arr[..], SectionAt(BoneDecoder(h), buf[pos..]))
  {
    var count := ReadU32(buf, pos);
    if count.Failure? {
      return null, Failure(count.error);
    }
    assert buf[pos..][..4] == buf[pos..pos + 4];
    arr := new Bone[count.value.value](_ => ZERO_BONE);
    r := ParseBones(buf, count.value.next, h, arr, BoneDecoder(h));
  }

  method ReadMorphSection(buf: seq<byte>, pos: nat, h: Header) returns (arr: array?<Morph>, r: Result<nat, Error>)
    requires pos <= |buf|
    ensures arr == null <==> |buf| - pos < 4
    ensures arr != null ==> fresh(arr) && arr.Length == Le(buf[pos..pos + 4])
    ensures arr != null ==> arr.Length < 0x1_0000_0000
    ensures ListAgrees(buf, r, if arr == null then [] else arr[..], SectionAt(MorphDecoder(h), buf[pos..]))
  {
    var count := ReadU32(buf, pos);
    if count.Failure? {
      return null, Failure(count.error);
    }
    assert buf[pos..][..4] == buf[pos..pos + 4];
    arr := new Morph[count.value.value](_ => ZERO_MORPH);
    r := ParseMorphs(buf, count.value.next, h, arr, MorphDecoder(h));
  }

  method ReadFrameSection(buf: seq<byte>, pos: nat, h: Header) returns (arr: array?<Frame>, r: Result<nat, Error>)
    requires pos <= |buf|
    ensures arr == null <==> |buf| - pos < 4
    ensures arr != null ==> fresh(arr) && arr.Length == Le(buf[pos..pos + 4])
    ensures arr != null ==> arr.Length < 0x1_0000_0000
    ensures ListAgrees(buf, r, if arr == null then [] else arr[..], SectionAt(FrameDecoder(h), buf[pos..]))
  {
    var count := ReadU32(buf, pos);
    if count.Failure? {
      return null, Failure(count.error);
    }
    assert buf[pos..][..4] == buf[pos..pos + 4];
    arr := new Frame[count.value.value](_ => ZERO_FRAME);
    r := ParseFrames(buf, count.value.next, h, arr, FrameDecoder(h));
  }

  method ReadRigidBodySection(buf: seq<byte>, pos: nat, h: Header) returns (arr: array?<RigidBody>, r: Result<nat, Error>)
    requires pos <= |buf|
    ensures arr == null <==> |buf| - pos < 4
    ensures arr != null ==> fresh(arr) && arr.Length == Le(buf[pos..pos + 4])
    ensures arr != null ==> arr.Length < 0x1_0000_0000
    ensures ListAgrees(buf, r, if arr == null then [] else arr[..], SectionAt(RigidBodyDecoder(h), buf[pos..]))
  {
    var count := ReadU32(buf, pos);
    if count.Failure? {
      return null, Failure(count.error);
    }
    assert buf[pos..][..4] == buf[pos..pos + 4];
    arr := new RigidBody[count.value.value](_ => ZERO_RIGID_BODY);
    r := ParseRigidBodies(buf, count.value.next, h, arr, RigidBodyDecoder(h));
  }

  method ReadJointSection(buf: seq<byte>, pos: nat, h: Header) returns (arr: array?<Joint>, r: Result<nat, Error>)
    requires pos <= |buf|
    ensures arr == null <==> |buf| - pos < 4
    ensures arr != null ==> fresh(arr) && arr.Length == Le(buf[pos..pos + 4])
    ensures arr != null ==> arr.Length < 0x1_0000_0000
    ensures ListAgrees(buf, r, if arr == null then [] else arr[..], SectionAt(JointDecoder(h), buf[pos..]))
  {
    var count := ReadU32(buf, pos);
    if count.Failure? {
      return null, Failure(count.error);
    }
    assert buf[pos..][..4] == buf[pos..pos + 4];
    arr := new Joint[count.value.value](_ => ZERO_JOINT);
    r := ParseJoints(buf, count.value.next, h, arr, JointDecoder(h));
  }

  // ---------------------------------------------------------------------
  // PMXModel (pmx_model.h; pmx_model.c:363-529)

  class PmxModel {
    var header: Header
    var info: Info
    var vertexCount: uint32
    var faceCount: uint32
    var textureCount: uint32
    var materialCount: uint32
    var boneCount: uint32
    var morphCount: uint32
    var frameCount: uint32
    var rigidBodyCount: uint32
    var jointCount: uint32
    var vertices: array?<Vertex>
    var faces: array?<Face>
    var textures: array?<Texture>
    var materials: array?<Material>
    var bones: array?<Bone>
    var morphs: array?<Morph>
    var frames: array?<Frame>
    var rigidBodies: array?<RigidBody>
    var joints: array?<Joint>
    /** The heap blocks this model owns. */
    ghost var live: set<Block>

    /** Whether the array of section `s` is allocated. */
    ghost predicate Allocated(s: Section)
      reads this`vertices, this`faces, this`textures, this`materials, this`bones, this`morphs, this`frames, this`rigidBodies, this`joints
    {
      match s
      case HeaderSection => false
      case InfoSection => false
      case VertexSection => vertices != null
      case FaceSection => faces != null
      case TextureSection => textures != null
      case MaterialSection => materials != null
      case BoneSection => bones != null
      case MorphSection => morphs != null
      case FrameSection => frames != null
      case RigidBodySection => rigidBodies != null
      case JointSection => joints != null
    }

    /** `b` is the nested list of a bone, morph or frame that has one. */
    ghost predicate NestedLive(b: Block)
      reads this`bones, this`morphs, this`frames, bones, morphs, frames
    {
      || (bones != null && NestedOwned(bones[..], BoneSection, HasLinks, b))
      || (morphs != null && NestedOwned(morphs[..], MorphSection, HasOffsets, b))
      || (frames != null && NestedOwned(frames[..], FrameSection, HasElems, b))
    }

    /** The blocks reachable from the model's pointers: each allocated array,
        and the nested list of every bone, morph and frame that has one. */
    ghost predicate Owns(b: Block)
      reads this`vertices, this`faces, this`textures, this`materials, this`bones, this`morphs, this`frames, this`rigidBodies, this`joints, bones, morphs, frames
    {
      if b.SectionBlock? then Allocated(b.section) else NestedLive(b)
    }

    /** The bone, morph and frame arrays hold their section's count of
        records, which `pmx_free` walks, and the model owns exactly the blocks
        its pointers reach. */
    ghost predicate Valid()
      reads this`vertices, this`faces, this`textures, this`materials, this`bones, this`morphs, this`frames, this`rigidBodies, this`joints, this`boneCount, this`morphCount, this`frameCount, this`live, bones, morphs, frames
    {
      (bones != null ==> bones.Length == boneCount as int)
      && (morphs != null ==> morphs.Length == morphCount as int)
      && (frames != null ==> frames.Length == frameCount as int)
      && (forall b {:trigger b in live} :: b in live <==> Owns(b))
    }

    /** No section array is allocated. */
    predicate Empty()
      reads this
    {
      vertices == null && faces == null && textures == null && materials == null && bones == null
      && morphs == null && frames == null && rigidBodies == null && joints == null
    }

    /** Every section array is allocated. */
    predicate Complete()
      reads this
    {
      vertices != null && faces != null && textures != null && materials != null && bones != null
      && morphs != null && frames != null && rigidBodies != null && joints != null
    }

    /** The array of section number `i` is allocated and holds exactly that
        section's records in `d`. */
    ghost predicate HoldsAt(i: int, d: PmxData)
      reads *
    {
      match i
      case 0 => Holds(vertices, d.vertices)
      case 1 => Holds(faces, d.faces)
      case 2 => Holds(textures, d.textures)
      case 3 => Holds(materials, d.materials)
      case 4 => Holds(bones, d.bones)
      case 5 => Holds(morphs, d.morphs)
      case 6 => Holds(frames, d.frames)
      case 7 => Holds(rigidBodies, d.rigidBodies)
      case 8 => Holds(joints, d.joints)
      case _ => true
    }

    /** The array of every section whose index lies in `lo` .. `hi` - 1 is
        allocated and holds exactly that section's records in `d`. */
    ghost predicate HoldsIn(lo: int, hi: int, d: PmxData)
      reads *
      decreases hi - lo
    {
      lo >= hi || (HoldsAt(lo, d) && HoldsIn(lo + 1, hi, d))
    }

    /** Every section held: the model is complete, and its contents are
        `d` once its header and info block are `d`'s. */
    lemma HeldWhole(d: PmxData)
      requires HoldsIn(0, 9, d) && header == d.header && info == d.info
      ensures Complete() && Data() == d
    {
      assert HoldsAt(0, d) && HoldsIn(1, 9, d);
      assert HoldsAt(1, d) && HoldsIn(2, 9, d);
      assert HoldsAt(2, d) && HoldsIn(3, 9, d);
      assert HoldsAt(3, d) && HoldsIn(4, 9, d);
      assert HoldsAt(4, d) && HoldsIn(5, 9, d);
      assert HoldsAt(5, d) && HoldsIn(6, 9, d);
      assert HoldsAt(6, d) && HoldsIn(7, 9, d);
      assert HoldsAt(7, d) && HoldsIn(8, 9, d);
      assert HoldsAt(8, d);
    }

    /** No section after the one with index `k` has an array. */
    predicate NoneAfter(k: int)
      reads this
    {
      && (k < 0 ==> vertices == null)
      && (k < 1 ==> faces == null)
      && (k < 2 ==> textures == null)
      && (k < 3 ==> materials == null)
      && (k < 4 ==> bones == null)
      && (k < 5 ==> morphs == null)
      && (k < 6 ==> frames == null)
      && (k < 7 ==> rigidBodies == null)
      && (k < 8 ==> joints == null)
    }

    /** The decoded contents of a completely parsed model. */
    ghost function Data(): PmxData
      requires Complete()
      reads this, vertices, faces, textures, materials, bones, morphs, frames, rigidBodies, joints
    {
      PmxData(header, info, vertices[..], faces[..], textures[..], materials[..], bones[..],
              morphs[..], frames[..], rigidBodies[..], joints[..])
    }

    /** A model with no section array owns no block at all: `pmx_free` on it
        has nothing left to release. */
    lemma EmptyOwnsNothing()
      requires Valid() && Empty()
      ensures live == {}
    {
      assert forall b :: b in live ==> Owns(b);
    }

    /** A model that owns nothing yet. */
    constructor()
      ensures Valid() && Empty() && live == {}
    {
      header := Header([], 0, 0, 0, 0, 0, 0, 0, 0, 0, 0);
      info := Info(ZERO_TEXT, ZERO_TEXT, ZERO_TEXT, ZERO_TEXT);
      vertexCount, faceCount, textureCount, materialCount, boneCount := 0, 0, 0, 0, 0;
      morphCount, frameCount, rigidBodyCount, jointCount := 0, 0, 0, 0;
      vertices, faces, textures, materials, bones := null, null, null, null, null;
      morphs, frames, rigidBodies, joints := null, null, null, null;
      live := {};
    }

    /** `free(p)` of a block the model owns. */
    ghost method Release(b: Block)
      requires b in live
      modifies this`live
      ensures live == old(live) - {b}
    {
      live := live - {b};
    }

    /** Stores a section array just read in the model, which then owns
        the array. */
    method HoldVertices(arr: array?<Vertex>)
      requires Valid() && vertices == null
      requires arr != null ==> arr.Length < 0x1_0000_0000
      modifies this`vertices, this`vertexCount, this`live
      ensures Valid() && vertices == arr
    {
      vertices := arr;
      if arr != null {
        vertexCount := arr.Length as uint32;
        live := live + {SectionBlock(VertexSection)};
      }
    }

    /** One section of `pmx_parse`: the vertices array is allocated for the
        count read and filled; a failure is attributed to the section. */
    method TakeVertices(buf: seq<byte>, pos: nat, h: Header) returns (r: Result<nat, ParseError>)
      requires pos <= |buf| && Valid() && vertices == null
      modifies this`vertices, this`vertexCount, this`live
      ensures Valid()
      ensures Stored(buf, r, vertices, VertexSection, SectionAt(VertexDecoder(h), buf[pos..]))
      ensures r.Failure? ==> r.error.SectionFailed? && r.error.section == VertexSection
    {
      var arr, e := ReadVertexSection(buf, pos, h);
      HoldVertices(arr);
      if e.Failure? {
        return Failure(SectionFailed(VertexSection, e.error));
      }
      return Success(e.value);
    }

    /** Stores a section array just read in the model, which then owns
        the array. */
    method HoldFaces(arr: array?<Face>)
      requires Valid() && faces == null
      requires arr != null ==> arr.Length < 0x1_0000_0000
      modifies this`faces, this`faceCount, this`live
      ensures Valid() && faces == arr
    {
      faces := arr;
      if arr != null {
        faceCount := arr.Length as uint32;
        live := live + {SectionBlock(FaceSection)};
      }
    }

    /** One section of `pmx_parse`: the faces array is allocated for the
        count read and filled; a failure is attributed to the section. */
    method TakeFaces(buf: seq<byte>, pos: nat, h: Header) returns (r: Result<nat, ParseError>)
      requires pos <= |buf| && Valid() && faces == null
      modifies this`faces, this`faceCount, this`live
      ensures Valid()
      ensures Stored(buf, r, faces, FaceSection, FaceSectionAt(h, buf[pos..]))
      ensures r.Failure? ==> r.error.SectionFailed? && r.error.section == FaceSection
    {
      var arr, e := ReadFaceSection(buf, pos, h);
      HoldFaces(arr);
      if e.Failure? {
        return Failure(SectionFailed(FaceSection, e.error));
      }
      return Success(e.value);
    }

    /** Stores a section array just read in the model, which then owns
        the array. */
    method HoldTextures(arr: array?<Texture>)
      requires Valid() && textures == null
      requires arr != null ==> arr.Length < 0x1_0000_0000
      modifies this`textures, this`textureCount, this`live
      ensures Valid() && textures == arr
    {
      textures := arr;
      if arr != null {
        textureCount := arr.Length as uint32;
        live := live + {SectionBlock(TextureSection)};
      }
    }

    /** One section of `pmx_parse`: the textures array is allocated for the
        count read and filled; a failure is attributed to the section. */
    method TakeTextures(buf: seq<byte>, pos: nat, h: Header) returns (r: Result<nat, ParseError>)
      requires pos <= |buf| && Valid() && textures == null
      modifies this`textures, this`textureCount, this`live
      ensures Valid()
      ensures Stored(buf, r, textures, TextureSection, SectionAt(TextureDecoder(h), buf[pos..]))
      ensures r.Failure? ==> r.error.SectionFailed? && r.error.section == TextureSection
    {
      var arr, e := ReadTextureSection(buf, pos, h);
      HoldTextures(arr);
      if e.Failure? {
        return Failure(SectionFailed(TextureSection, e.error));
      }
      return Success(e.value);
    }

    /** Stores a section array just read in the model, which then owns
        the array. */
    method HoldMaterials(arr: array?<Material>)
      requires Valid() && materials == null
      requires arr != null ==> arr.Length < 0x1_0000_0000
      modifies this`materials, this`materialCount, this`live
      ensures Valid() && materials == arr
    {
      materials := arr;
      if arr != null {
        materialCount := arr.Length as uint32;
        live := live + {SectionBlock(MaterialSection)};
      }
    }

    /** One section of `pmx_parse`: the materials array is allocated for the
        count read and filled; a failure is attributed to the section. */
    method TakeMaterials(buf: seq<byte>, pos: nat, h: Header) returns (r: Result<nat, ParseError>)
      requires pos <= |buf| && Valid() && materials == null
      modifies this`materials, this`materialCount, this`live
      ensures Valid()
      ensures Stored(buf, r, materials, MaterialSection, SectionAt(MaterialDecoder(h), buf[pos..]))
      ensures r.Failure? ==> r.error.SectionFailed? && r.error.section == MaterialSection
    {
      var arr, e := ReadMaterialSection(buf, pos, h);
      HoldMaterials(arr);
      if e.Failure? {
        return Failure(SectionFailed(MaterialSection, e.error));
      }
      return Success(e.value);
    }

    /** Stores a section array just read in the model, which then owns
        the array and the nested lists of its records. */
    method HoldBones(arr: array?<Bone>)
      requires Valid() && bones == null
      requires arr != null ==> arr.Length < 0x1_0000_0000
      modifies this`bones, this`boneCount, this`live
      ensures Valid() && bones == arr
    {
      bones := arr;
      if arr != null {
        boneCount := arr.Length as uint32;
        live := live + {SectionBlock(BoneSection)} + NestedIn(arr[..], BoneSection, HasLinks);
      }
    }

    /** One section of `pmx_parse`: the bones array is allocated for the
        count read and filled; a failure is attributed to the section. */
    method TakeBones(buf: seq<byte>, pos: nat, h: Header) returns (r: Result<nat, ParseError>)
      requires pos <= |buf| && Valid() && bones == null
      modifies this`bones, this`boneCount, this`live
      ensures Valid()
      ensures Stored(buf, r, bones, BoneSection, SectionAt(BoneDecoder(h), buf[pos..]))
      ensures r.Failure? ==> r.error.SectionFailed? && r.error.section == BoneSection
    {
      var arr, e := ReadBoneSection(buf, pos, h);
      HoldBones(arr);
      if e.Failure? {
        return Failure(SectionFailed(BoneSection, e.error));
      }
      return Success(e.value);
    }

    /** Stores a section array just read in the model, which then owns
        the array and the nested lists of its records. */
    method HoldMorphs(arr: array?<Morph>)
      requires Valid() && morphs == null
      requires arr != null ==> arr.Length < 0x1_0000_0000
      modifies this`morphs, this`morphCount, this`live
      ensures Valid() && morphs == arr
    {
      morphs := arr;
      if arr != null {
        morphCount := arr.Length as uint32;
        live := live + {SectionBlock(MorphSection)} + NestedIn(arr[..], MorphSection, HasOffsets);
      }
    }

    /** One section of `pmx_parse`: the morphs array is allocated for the
        count read and filled; a failure is attributed to the section. */
    method TakeMorphs(buf: seq<byte>, pos: nat, h: Header) returns (r: Result<nat, ParseError>)
      requires pos <= |buf| && Valid() && morphs == null
      modifies this`morphs, this`morphCount, this`live
      ensures Valid()
      ensures Stored(buf, r, morphs, MorphSection, SectionAt(MorphDecoder(h), buf[pos..]))
      ensures r.Failure? ==> r.error.SectionFailed? && r.error.section == MorphSection
    {
      var arr, e := ReadMorphSection(buf, pos, h);
      HoldMorphs(arr);
      if e.Failure? {
        return Failure(SectionFailed(MorphSection, e.error));
      }
      return Success(e.value);
    }

    /** Stores a section array just read in the model, which then owns
        the array and the nested lists of its records. */
    method HoldFrames(arr: array?<Frame>)
      requires Valid() && frames == null
      requires arr != null ==> arr.Length < 0x1_0000_0000
      modifies this`frames, this`frameCount, this`live
      ensures Valid() && frames == arr
    {
      frames := arr;
      if arr != null {
        frameCount := arr.Length as uint32;
        live := live + {SectionBlock(FrameSection)} + NestedIn(arr[..], FrameSection, HasElems);
      }
    }

    /** One section of `pmx_parse`: the frames array is allocated for the
        count read and filled; a failure is attributed to the section. */
    method TakeFrames(buf: seq<byte>, pos: nat, h: Header) returns (r: Result<nat, ParseError>)
      requires pos <= |buf| && Valid() && frames == null
      modifies this`frames, this`frameCount, this`live
      ensures Valid()
      ensures Stored(buf, r, frames, FrameSection, SectionAt(FrameDecoder(h), buf[pos..]))
      ensures r.Failure? ==> r.error.SectionFailed? && r.error.section == FrameSection
    {
      var arr, e := ReadFrameSection(buf, pos, h);
      HoldFrames(arr);
      if e.Failure? {
        return Failure(SectionFailed(FrameSection, e.error));
      }
      return Success(e.value);
    }

    /** Stores a section array just read in the model, which then owns
        the array. */
    method HoldRigidBodies(arr: array?<RigidBody>)
      requires Valid() && rigidBodies == null
      requires arr != null ==> arr.Length < 0x1_0000_0000
      modifies this`rigidBodies, this`rigidBodyCount, this`live
      ensures Valid() && rigidBodies == arr
    {
      rigidBodies := arr;
      if arr != null {
        rigidBodyCount := arr.Length as uint32;
        live := live + {SectionBlock(RigidBodySection)};
      }
    }

    /** One section of `pmx_parse`: the rigidBodies array is allocated for the
        count read and filled; a failure is attributed to the section. */
    method TakeRigidBodies(buf: seq<byte>, pos: nat, h: Header) returns (r: Result<nat, ParseError>)
      requires pos <= |buf| && Valid() && rigidBodies == null
      modifies this`rigidBodies, this`rigidBodyCount, this`live
      ensures Valid()
      ensures Stored(buf, r, rigidBodies, RigidBodySection, SectionAt(RigidBodyDecoder(h), buf[pos..]))
      ensures r.Failure? ==> r.error.SectionFailed? && r.error.section == RigidBodySection
    {
      var arr, e := ReadRigidBodySection(buf, pos, h);
      HoldRigidBodies(arr);
      if e.Failure? {
        return Failure(SectionFailed(RigidBodySection, e.error));
      }
      return Success(e.value);
    }

    /** Stores a section array just read in the model, which then owns
        the array. */
    method HoldJoints(arr: array?<Joint>)
      requires Valid() && joints == null
      requires arr != null ==> arr.Length < 0x1_0000_0000
      modifies this`joints, this`jointCount, this`live
      ensures Valid() && joints == arr
    {
      joints := arr;
      if arr != null {
        jointCount := arr.Length as uint32;
        live := live + {SectionBlock(JointSection)};
      }
    }

    /** One section of `pmx_parse`: the joints array is allocated for the
        count read and filled; a failure is attributed to the section. */
    method TakeJoints(buf: seq<byte>, pos: nat, h: Header) returns (r: Result<nat, ParseError>)
      requires pos <= |buf| && Valid() && joints == null
      modifies this`joints, this`jointCount, this`live
      ensures Valid()
      ensures Stored(buf, r, joints, JointSection, SectionAt(JointDecoder(h), buf[pos..]))
      ensures r.Failure? ==> r.error.SectionFailed? && r.error.section == JointSection
    {
      var arr, e := ReadJointSection(buf, pos, h);
      HoldJoints(arr);
      if e.Failure? {
        return Failure(SectionFailed(JointSection, e.error));
      }
      return Success(e.value);
    }

    /** The nine sections of `pmx_parse` (pmx_model.c:387-471), read in order
        from cursor `pos` on top of the sections already in `acc`; the first
        failure stops them. */
    method SectionsFromVertices(buf: seq<byte>, pos: nat, ghost acc: PmxData) returns (r: Result<(), ParseError>)
      requires pos <= |buf| && Valid() && vertices == null && faces == null && textures == null && materials == null && bones == null && morphs == null && frames == null && rigidBodies == null && joints == null
      requires acc.header == header
      modifies this`vertices, this`vertexCount, this`faces, this`faceCount, this`textures, this`textureCount, this`materials, this`materialCount, this`bones, this`boneCount, this`morphs, this`morphCount, this`frames, this`frameCount, this`rigidBodies, this`rigidBodyCount, this`joints, this`jointCount, this`live
      ensures Valid()
      ensures FromVertices(acc, buf[pos..]).result.Success? <==> r.Success?
      ensures r.Failure? ==> NoneAfter(StoppedAt(r.error))
      ensures r.Failure? ==> HoldsIn(0, StoppedAt(r.error), FromVertices(acc, buf[pos..]).reached)
      ensures r.Success? ==> HoldsIn(0, 9, FromVertices(acc, buf[pos..]).reached)
      ensures r.Failure? ==> r.error == FromVertices(acc, buf[pos..]).result.error
    {
      // Only what each section yields matters here, not how its records decode.
      hide SectionAt, FaceSectionAt, VertexDecoder, TextureDecoder, MaterialDecoder, BoneDecoder, MorphDecoder, FrameDecoder, RigidBodyDecoder, JointDecoder;
      var e := TakeVertices(buf, pos, header);
      if e.Failure? {
        assert StoppedAt(e.error) == 0;
        assert faces == null && textures == null && materials == null && bones == null && morphs == null && frames == null && rigidBodies == null && joints == null;
        assert FromVertices(acc, buf[pos..]) == Outcome(Failure(e.error), acc);
        return Failure(e.error);
      }
      assert FromVertices(acc, buf[pos..]) == FromFaces(acc.(vertices := vertices[..]), buf[e.value..]);
      r := SectionsFromFaces(buf, e.value, acc.(vertices := vertices[..]));
    }

    /** The sections of `pmx_parse` from the faces on, read in order
        from cursor `pos` on top of the sections already in `acc`; the first
        failure stops them. */
    method SectionsFromFaces(buf: seq<byte>, pos: nat, ghost acc: PmxData) returns (r: Result<(), ParseError>)
      requires pos <= |buf| && Valid() && faces == null && textures == null && materials == null && bones == null && morphs == null && frames == null && rigidBodies == null && joints == null
      requires acc.header == header
      modifies this`faces, this`faceCount, this`textures, this`textureCount, this`materials, this`materialCount, this`bones, this`boneCount, this`morphs, this`morphCount, this`frames, this`frameCount, this`rigidBodies, this`rigidBodyCount, this`joints, this`jointCount, this`live
      ensures Valid()
      ensures FromFaces(acc, buf[pos..]).result.Success? <==> r.Success?
      ensures r.Failure? ==> NoneAfter(StoppedAt(r.error))
      ensures r.Failure? ==> HoldsIn(1, StoppedAt(r.error), FromFaces(acc, buf[pos..]).reached)
      ensures r.Success? ==> HoldsIn(1, 9, FromFaces(acc, buf[pos..]).reached)
      ensures r.Failure? ==> r.error == FromFaces(acc, buf[pos..]).result.error
    {
      // Only what each section yields matters here, not how its records decode.
      hide SectionAt, FaceSectionAt, VertexDecoder, TextureDecoder, MaterialDecoder, BoneDecoder, MorphDecoder, FrameDecoder, RigidBodyDecoder, JointDecoder;
      var e := TakeFaces(buf, pos, header);
      if e.Failure? {
        assert StoppedAt(e.error) == 1;
        assert textures == null && materials == null && bones == null && morphs == null && frames == null && rigidBodies == null && joints == null;
        assert FromFaces(acc, buf[pos..]) == Outcome(Failure(e.error), acc);
        return Failure(e.error);
      }
      assert FromFaces(acc, buf[pos..]) == FromTextures(acc.(faces := faces[..]), buf[e.value..]);
      r := SectionsFromTextures(buf, e.value, acc.(faces := faces[..]));
    }

    /** The sections of `pmx_parse` from the textures on, read in order
        from cursor `pos` on top of the sections already in `acc`; the first
        failure stops them. */
    method SectionsFromTextures(buf: seq<byte>, pos: nat, ghost acc: PmxData) returns (r: Result<(), ParseError>)
      requires pos <= |buf| && Valid() && textures == null && materials == null && bones == null && morphs == null && frames == null && rigidBodies == null && joints == null
      requires acc.header == header
      modifies this`textures, this`textureCount, this`materials, this`materialCount, this`bones, this`boneCount, this`morphs, this`morphCount, this`frames, this`frameCount, this`rigidBodies, this`rigidBodyCount, this`joints, this`jointCount, this`live
      ensures Valid()
      ensures FromTextures(acc, buf[pos..]).result.Success? <==> r.Success?
      ensures r.Failure? ==> NoneAfter(StoppedAt(r.error))
      ensures r.Failure? ==> HoldsIn(2, StoppedAt(r.error), FromTextures(acc, buf[pos..]).reached)
      ensures r.Success? ==> HoldsIn(2, 9, FromTextures(acc, buf[pos..]).reached)
      ensures r.Failure? ==> r.error == FromTextures(acc, buf[pos..]).result.error
    {
      // Only what each section yields matters here, not how its records decode.
      hide SectionAt, FaceSectionAt, VertexDecoder, TextureDecoder, MaterialDecoder, BoneDecoder, MorphDecoder, FrameDecoder, RigidBodyDecoder, JointDecoder;
      var e := TakeTextures(buf, pos, header);
      if e.Failure? {
        assert StoppedAt(e.error) == 2;
        assert materials == null && bones == null && morphs == null && frames == null && rigidBodies == null && joints == null;
        assert FromTextures(acc, buf[pos..]) == Outcome(Failure(e.error), acc);
        return Failure(e.error);
      }
      assert FromTextures(acc, buf[pos..]) == FromMaterials(acc.(textures := textures[..]), buf[e.value..]);
      r := SectionsFromMaterials(buf, e.value, acc.(textures := textures[..]));
    }

    /** The sections of `pmx_parse` from the materials on, read in order
        from cursor `pos` on top of the sections already in `acc`; the first
        failure stops them. */
    method SectionsFromMaterials(buf: seq<byte>, pos: nat, ghost acc: PmxData) returns (r: Result<(), ParseError>)
      requires pos <= |buf| && Valid() && materials == null && bones == null && morphs == null && frames == null && rigidBodies == null && joints == null
      requires acc.header == header
      modifies this`materials, this`materialCount, this`bones, this`boneCount, this`morphs, this`morphCount, this`frames, this`frameCount, this`rigidBodies, this`rigidBodyCount, this`joints, this`jointCount, this`live
      ensures Valid()
      ensures FromMaterials(acc, buf[pos..]).result.Success? <==> r.Success?
      ensures r.Failure? ==> NoneAfter(StoppedAt(r.error))
      ensures r.Failure? ==> HoldsIn(3, StoppedAt(r.error), FromMaterials(acc, buf[pos..]).reached)
      ensures r.Success? ==> HoldsIn(3, 9, FromMaterials(acc, buf[pos..]).reached)
      ensures r.Failure? ==> r.error == FromMaterials(acc, buf[pos..]).result.error
    {
      // Only what each section yields matters here, not how its records decode.
      hide SectionAt, FaceSectionAt, VertexDecoder, TextureDecoder, MaterialDecoder, BoneDecoder, MorphDecoder, FrameDecoder, RigidBodyDecoder, JointDecoder;
      var e := TakeMaterials(buf, pos, header);
      if e.Failure? {
        assert StoppedAt(e.error) == 3;
        assert bones == null && morphs == null && frames == null && rigidBodies == null && joints == null;
        assert FromMaterials(acc, buf[pos..]) == Outcome(Failure(e.error), acc);
        return Failure(e.error);
      }
      assert FromMaterials(acc, buf[pos..]) == FromBones(acc.(materials := materials[..]), buf[e.value..]);
      r := SectionsFromBones(buf, e.value, acc.(materials := materials[..]));
    }

    /** The sections of `pmx_parse` from the bones on, read in order
        from cursor `pos` on top of the sections already in `acc`; the first
        failure stops them. */
    method SectionsFromBones(buf: seq<byte>, pos: nat, ghost acc: PmxData) returns (r: Result<(), ParseError>)
      requires pos <= |buf| && Valid() && bones == null && morphs == null && frames == null && rigidBodies == null && joints == null
      requires acc.header == header
      modifies this`bones, this`boneCount, this`morphs, this`morphCount, this`frames, this`frameCount, this`rigidBodies, this`rigidBodyCount, this`joints, this`jointCount, this`live
      ensures Valid()
      ensures FromBones(acc, buf[pos..]).result.Success? <==> r.Success?
      ensures r.Failure? ==> NoneAfter(StoppedAt(r.error))
      ensures r.Failure? ==> HoldsIn(4, StoppedAt(r.error), FromBones(acc, buf[pos..]).reached)
      ensures r.Success? ==> HoldsIn(4, 9, FromBones(acc, buf[pos..]).reached)
      ensures r.Failure? ==> r.error == FromBones(acc, buf[pos..]).result.error
    {
      // Only what each section yields matters here, not how its records decode.
      hide SectionAt, FaceSectionAt, VertexDecoder, TextureDecoder, MaterialDecoder, BoneDecoder, MorphDecoder, FrameDecoder, RigidBodyDecoder, JointDecoder;
      var e := TakeBones(buf, pos, header);
      if e.Failure? {
        assert StoppedAt(e.error) == 4;
        assert morphs == null && frames == null && rigidBodies == null && joints == null;
        assert FromBones(acc, buf[pos..]) == Outcome(Failure(e.error), acc);
        return Failure(e.error);
      }
      assert FromBones(acc, buf[pos..]) == FromMorphs(acc.(bones := bones[..]), buf[e.value..]);
      r := SectionsFromMorphs(buf, e.value, acc.(bones := bones[..]));
    }

    /** The sections of `pmx_parse` from the morphs on, read in order
        from cursor `pos` on top of the sections already in `acc`; the first
        failure stops them. */
    method SectionsFromMorphs(buf: seq<byte>, pos: nat, ghost acc: PmxData) returns (r: Result<(), ParseError>)
      requires pos <= |buf| && Valid() && morphs == null && frames == null && rigidBodies == null && joints == null
      requires acc.header == header
      modifies this`morphs, this`morphCount, this`frames, this`frameCount, this`rigidBodies, this`rigidBodyCount, this`joints, this`jointCount, this`live
      ensures Valid()
      ensures FromMorphs(acc, buf[pos..]).result.Success? <==> r.Success?
      ensures r.Failure? ==> NoneAfter(StoppedAt(r.error))
      ensures r.Failure? ==> HoldsIn(5, StoppedAt(r.error), FromMorphs(acc, buf[pos..]).reached)
      ensures r.Success? ==> HoldsIn(5, 9, FromMorphs(acc, buf[pos..]).reached)
      ensures r.Failure? ==> r.error == FromMorphs(acc, buf[pos..]).result.error
    {
      // Only what each section yields matters here, not how its records decode.
      hide SectionAt, FaceSectionAt, VertexDecoder, TextureDecoder, MaterialDecoder, BoneDecoder, MorphDecoder, FrameDecoder, RigidBodyDecoder, JointDecoder;
      var e := TakeMorphs(buf, pos, header);
      if e.Failure? {
        assert StoppedAt(e.error) == 5;
        assert frames == null && rigidBodies == null && joints == null;
        assert FromMorphs(acc, buf[pos..]) == Outcome(Failure(e.error), acc);
        return Failure(e.error);
      }
      assert FromMorphs(acc, buf[pos..]) == FromFrames(acc.(morphs := morphs[..]), buf[e.value..]);
      r := SectionsFromFrames(buf, e.value, acc.(morphs := morphs[..]));
    }

    /** The sections of `pmx_parse` from the frames on, read in order
        from cursor `pos` on top of the sections already in `acc`; the first
        failure stops them. */
    method SectionsFromFrames(buf: seq<byte>, pos: nat, ghost acc: PmxData) returns (r: Result<(), ParseError>)
      requires pos <= |buf| && Valid() && frames == null && rigidBodies == null && joints == null
      requires acc.header == header
      modifies this`frames, this`frameCount, this`rigidBodies, this`rigidBodyCount, this`joints, this`jointCount, this`live
      ensures Valid()
      ensures FromFrames(acc, buf[pos..]).result.Success? <==> r.Success?
      ensures r.Failure? ==> NoneAfter(StoppedAt(r.error))
      ensures r.Failure? ==> HoldsIn(6, StoppedAt(r.error), FromFrames(acc, buf[pos..]).reached)
      ensures r.Success? ==> HoldsIn(6, 9, FromFrames(acc, buf[pos..]).reached)
      ensures r.Failure? ==> r.error == FromFrames(acc, buf[pos..]).result.error
    {
      // Only what each section yields matters here, not how its records decode.
      hide SectionAt, FaceSectionAt, VertexDecoder, TextureDecoder, MaterialDecoder, BoneDecoder, MorphDecoder, FrameDecoder, RigidBodyDecoder, JointDecoder;
      var e := TakeFrames(buf, pos, header);
      if e.Failure? {
        assert StoppedAt(e.error) == 6;
        assert rigidBodies == null && joints == null;
        assert FromFrames(acc, buf[pos..]) == Outcome(Failure(e.error), acc);
        return Failure(e.error);
      }
      assert FromFrames(acc, buf[pos..]) == FromRigidBodies(acc.(frames := frames[..]), buf[e.value..]);
      r := SectionsFromRigidBodies(buf, e.value, acc.(frames := frames[..]));
    }

    /** The sections of `pmx_parse` from the rigidBodies on, read in order
        from cursor `pos` on top of the sections already in `acc`; the first
        failure stops them. */
    method SectionsFromRigidBodies(buf: seq<byte>, pos: nat, ghost acc: PmxData) returns (r: Result<(), ParseError>)
      requires pos <= |buf| && Valid() && rigidBodies == null && joints == null
      requires acc.header == header
      modifies this`rigidBodies, this`rigidBodyCount, this`joints, this`jointCount, this`live
      ensures Valid()
      ensures FromRigidBodies(acc, buf[pos..]).result.Success? <==> r.Success?
      ensures r.Failure? ==> NoneAfter(StoppedAt(r.error))
      ensures r.Failure? ==> HoldsIn(7, StoppedAt(r.error), FromRigidBodies(acc, buf[pos..]).reached)
      ensures r.Success? ==> HoldsIn(7, 9, FromRigidBodies(acc, buf[pos..]).reached)
      ensures r.Failure? ==> r.error == FromRigidBodies(acc, buf[pos..]).result.error
    {
      // Only what each section yields matters here, not how its records decode.
      hide SectionAt, FaceSectionAt, VertexDecoder, TextureDecoder, MaterialDecoder, BoneDecoder, MorphDecoder, FrameDecoder, RigidBodyDecoder, JointDecoder;
      var e := TakeRigidBodies(buf, pos, header);
      if e.Failure? {
        assert StoppedAt(e.error) == 7;
        assert joints == null;
        assert FromRigidBodies(acc, buf[pos..]) == Outcome(Failure(e.error), acc);
        return Failure(e.error);
      }
      assert FromRigidBodies(acc, buf[pos..]) == FromJoints(acc.(rigidBodies := rigidBodies[..]), buf[e.value..]);
      r := SectionsFromJoints(buf, e.value, acc.(rigidBodies := rigidBodies[..]));
    }

    /** The sections of `pmx_parse` from the joints on, read in order
        from cursor `pos` on top of the sections already in `acc`; the first
        failure stops them. */
    method SectionsFromJoints(buf: seq<byte>, pos: nat, ghost acc: PmxData) returns (r: Result<(), ParseError>)
      requires pos <= |buf| && Valid() && joints == null
      requires acc.header == header
      modifies this`joints, this`jointCount, this`live
      ensures Valid()
      ensures FromJoints(acc, buf[pos..]).result.Success? <==> r.Success?
      ensures r.Failure? ==> NoneAfter(StoppedAt(r.error))
      ensures r.Failure? ==> HoldsIn(8, StoppedAt(r.error), FromJoints(acc, buf[pos..]).reached)
      ensures r.Success? ==> HoldsIn(8, 9, FromJoints(acc, buf[pos..]).reached)
      ensures r.Failure? ==> r.error == FromJoints(acc, buf[pos..]).result.error
    {
      // Only what each section yields matters here, not how its records decode.
      hide SectionAt, FaceSectionAt, VertexDecoder, TextureDecoder, MaterialDecoder, BoneDecoder, MorphDecoder, FrameDecoder, RigidBodyDecoder, JointDecoder;
      var e := TakeJoints(buf, pos, header);
      if e.Failure? {
        assert StoppedAt(e.error) == 8;
        assert FromJoints(acc, buf[pos..]) == Outcome(Failure(e.error), acc);
        return Failure(e.error);
      }
      assert FromJoints(acc, buf[pos..]) == Outcome(Success(acc.(joints := joints[..])), acc.(joints := joints[..]));
      return Success(());
    }

    /** The start of `pmx_parse`: the signature check, the header copied
        into the model, the additional-UV check and the info block read into
        the model. */
    method ReadPreamble(buf: seq<byte>) returns (r: Result<Decoded<PmxData>, ParseError>)
      modifies this`header, this`info
      ensures Agrees(buf, r, PreambleAt(buf))
      ensures |buf| >= HEADER_SIZE && buf[..4] == MAGIC ==> header == HeaderOf(buf)
      ensures r.Success? ==> info == r.value.value.info
    {
      if |buf| < 4 || buf[..4] != MAGIC {
        return Failure(MagicMismatch);
      }
      if |buf| < HEADER_SIZE {
        return Failure(SectionFailed(HeaderSection, Eof));
      }
      header := HeaderOf(buf);
      if header.uvCount > 0 {
        return Failure(AdditionalUv(header.uvCount));
      }
      var inf := ReadInfo(buf, HEADER_SIZE);
      if inf.Failure? {
        return Failure(SectionFailed(InfoSection, inf.error));
      }
      info := inf.value.value;
      return Success(Decoded(Started(header, info), inf.value.next));
    }

    /** The rest of `pmx_parse` once the preamble `pre` is read: the info
        block is stored and the nine sections are read after it. */
    method ReadSections(buf: seq<byte>, pre: Decoded<PmxData>) returns (r: Result<(), ParseError>)
      requires Valid() && Empty()
      requires pre.next <= |buf| && header == pre.value.header && info == pre.value.info
      modifies this`vertices, this`vertexCount, this`faces, this`faceCount, this`textures, this`textureCount, this`materials, this`materialCount, this`bones, this`boneCount, this`morphs, this`morphCount, this`frames, this`frameCount, this`rigidBodies, this`rigidBodyCount, this`joints, this`jointCount, this`live
      ensures Valid()
      ensures r.Success? <==> FromVertices(pre.value, buf[pre.next..]).result.Success?
      ensures r.Failure? ==> r.error == FromVertices(pre.value, buf[pre.next..]).result.error
      ensures r.Success? ==> Complete() && Data() == FromVertices(pre.value, buf[pre.next..]).result.value
      ensures r.Failure? ==> NoneAfter(StoppedAt(r.error))
      ensures r.Failure? ==> HoldsIn(0, StoppedAt(r.error), FromVertices(pre.value, buf[pre.next..]).reached)
    {
      // Only what each section yields matters here, not how its records decode.
      hide SectionAt, FaceSectionAt, VertexDecoder, TextureDecoder, MaterialDecoder, BoneDecoder, MorphDecoder, FrameDecoder, RigidBodyDecoder, JointDecoder;
      r := SectionsFromVertices(buf, pre.next, pre.value);
      if r.Success? {
        HeldWhole(FromVertices(pre.value, buf[pre.next..]).reached);
      }
    }

    /** `pmx_parse`: checks the signature and the additional-UV count, copies
        the header, reads the info block and then the nine sections.  It stops
        at the first failure; whatever was allocated by then stays owned by
        the model, for `Free` to release. */
    method Parse(buf: seq<byte>) returns (r: Result<(), ParseError>)
      requires Valid() && Empty()
      modifies this
      ensures Valid()
      ensures r.Success? <==> ModelAt(buf).Success?
      ensures r.Failure? ==> r.error == ModelAt(buf).error
      ensures r.Success? ==> Complete() && Data() == ModelAt(buf).value
      ensures |buf| >= HEADER_SIZE && buf[..4] == MAGIC ==> header == HeaderOf(buf)
      ensures r.Failure? && !r.error.SectionFailed? ==> Empty()
      ensures r.Failure? ==> NoneAfter(StoppedAt(r.error))
      ensures r.Failure? && StoppedAt(r.error) >= 0 ==> PreambleAt(buf).Success? && HoldsIn(0, StoppedAt(r.error), ReachedAt(buf))
    {
      // Only what each section yields matters here, not how its records decode.
      hide SectionAt, FaceSectionAt, VertexDecoder, TextureDecoder, MaterialDecoder, BoneDecoder, MorphDecoder, FrameDecoder, RigidBodyDecoder, JointDecoder, InfoAt;
      var pre := ReadPreamble(buf);
      if pre.Failure? {
        return Failure(pre.error);
      }
      r := ReadSections(buf, pre.value);
      ModelAfterPreamble(buf, Parsed(pre.value.value, buf[pre.value.next..]));
      ReachedAfterPreamble(buf, Parsed(pre.value.value, buf[pre.value.next..]));
    }

    /** The link loop of `pmx_free`: releases the nested list of every
        record that has one. */
    method FreeLinks()
      requires bones != null && bones.Length == boneCount as int
      requires forall b :: NestedOwned(bones[..], BoneSection, HasLinks, b) ==> b in live
      modifies this`live
      ensures forall b :: b in live <==> b in old(live) && !NestedOwned(bones[..], BoneSection, HasLinks, b)
    {
      for i := 0 to boneCount as int
        invariant forall b :: NestedOwned(bones[..], BoneSection, HasLinks, b) && b.index >= i ==> b in live
        invariant forall b :: b in live <==> b in old(live) && !(NestedOwned(bones[..], BoneSection, HasLinks, b) && b.index < i)
      {
        if HasLinks(bones[i]) {
          Release(NestedBlock(BoneSection, i));
        }
      }
    }

    /** The offset loop of `pmx_free`: releases the nested list of every
        record that has one. */
    method FreeOffsets()
      requires morphs != null && morphs.Length == morphCount as int
      requires forall b :: NestedOwned(morphs[..], MorphSection, HasOffsets, b) ==> b in live
      modifies this`live
      ensures forall b :: b in live <==> b in old(live) && !NestedOwned(morphs[..], MorphSection, HasOffsets, b)
    {
      for i := 0 to morphCount as int
        invariant forall b :: NestedOwned(morphs[..], MorphSection, HasOffsets, b) && b.index >= i ==> b in live
        invariant forall b :: b in live <==> b in old(live) && !(NestedOwned(morphs[..], MorphSection, HasOffsets, b) && b.index < i)
      {
        if HasOffsets(morphs[i]) {
          Release(NestedBlock(MorphSection, i));
        }
      }
    }

    /** The element loop of `pmx_free`: releases the nested list of every
        record that has one. */
    method FreeElems()
      requires frames != null && frames.Length == frameCount as int
      requires forall b :: NestedOwned(frames[..], FrameSection, HasElems, b) ==> b in live
      modifies this`live
      ensures forall b :: b in live <==> b in old(live) && !NestedOwned(frames[..], FrameSection, HasElems, b)
    {
      for i := 0 to frameCount as int
        invariant forall b :: NestedOwned(frames[..], FrameSection, HasElems, b) && b.index >= i ==> b in live
        invariant forall b :: b in live <==> b in old(live) && !(NestedOwned(frames[..], FrameSection, HasElems, b) && b.index < i)
      {
        if HasElems(frames[i]) {
          Release(NestedBlock(FrameSection, i));
        }
      }
    }

    /** One block of `pmx_free`: releases the vertices array and nulls the pointer. */
    method FreeVertices()
      requires Valid()
      modifies this`vertices, this`live
      ensures Valid() && vertices == null
    {
      if vertices != null {
        Release(SectionBlock(VertexSection));
        vertices := null;
      }
    }

    /** One block of `pmx_free`: releases the faces array and nulls the pointer. */
    method FreeFaces()
      requires Valid()
      modifies this`faces, this`live
      ensures Valid() && faces == null
    {
      if faces != null {
        Release(SectionBlock(FaceSection));
        faces := null;
      }
    }

    /** One block of `pmx_free`: releases the textures array and nulls the pointer. */
    method FreeTextures()
      requires Valid()
      modifies this`textures, this`live
      ensures Valid() && textures == null
    {
      if textures != null {
        Release(SectionBlock(TextureSection));
        textures := null;
      }
    }

    /** One block of `pmx_free`: releases the materials array and nulls the pointer. */
    method FreeMaterials()
      requires Valid()
      modifies this`materials, this`live
      ensures Valid() && materials == null
    {
      if materials != null {
        Release(SectionBlock(MaterialSection));
        materials := null;
      }
    }

    /** One block of `pmx_free`: releases the bones array after the nested lists of its records and nulls the pointer. */
    method FreeBones()
      requires Valid()
      modifies this`bones, this`live
      ensures Valid() && bones == null
    {
      if bones != null {
        FreeLinks();
        Release(SectionBlock(BoneSection));
        bones := null;
      }
    }

    /** One block of `pmx_free`: releases the morphs array after the nested lists of its records and nulls the pointer. */
    method FreeMorphs()
      requires Valid()
      modifies this`morphs, this`live
      ensures Valid() && morphs == null
    {
      if morphs != null {
        FreeOffsets();
        Release(SectionBlock(MorphSection));
        morphs := null;
      }
    }

    /** One block of `pmx_free`: releases the frames array after the nested lists of its records and nulls the pointer. */
    method FreeFrames()
      requires Valid()
      modifies this`frames, this`live
      ensures Valid() && frames == null
    {
      if frames != null {
        FreeElems();
        Release(SectionBlock(FrameSection));
        frames := null;
      }
    }

    /** One block of `pmx_free`: releases the rigidBodies array and nulls the pointer. */
    method FreeRigidBodies()
      requires Valid()
      modifies this`rigidBodies, this`live
      ensures Valid() && rigidBodies == null
    {
      if rigidBodies != null {
        Release(SectionBlock(RigidBodySection));
        rigidBodies := null;
      }
    }

    /** One block of `pmx_free`: releases the joints array and nulls the pointer. */
    method FreeJoints()
      requires Valid()
      modifies this`joints, this`live
      ensures Valid() && joints == null
    {
      if joints != null {
        Release(SectionBlock(JointSection));
        joints := null;
      }
    }

    /** `pmx_free`: releases every allocated array, the nested lists of bones,
        morphs and frames first, and sets each pointer to null.  Only owned
        blocks are released, each once, and nothing owned is left behind; on
        a model that owns nothing it changes nothing, so a second call is
        harmless. */
    method Free()
      requires Valid()
      modifies this`vertices, this`faces, this`textures, this`materials, this`bones
      modifies this`morphs, this`frames, this`rigidBodies, this`joints, this`live
      ensures Valid() && Empty() && live == {}
    {
      FreeVertices();
      FreeFaces();
      FreeTextures();
      FreeMaterials();
      FreeBones();
      FreeMorphs();
      FreeFrames();
      FreeRigidBodies();
      FreeJoints();
    }
  }
}
