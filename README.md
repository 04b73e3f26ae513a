# PMX model decoder, modelled and verified in Dafny

This project models the deserializer for PMX, the MikuMikuDance model
format, as `pmx_model.c` and `pmx_model.h` implement it. The C code
decodes a PMX file held in memory:

- it checks the `"PMX "` signature;
- it copies the packed 17-byte header and refuses models with additional UV
  sets;
- it reads the four info texts;
- it reads nine sections in a fixed order: vertices, faces, textures,
  materials, bones, morphs, display frames, rigid bodies and joints.

Each section is a 32-bit count followed by that many records. The section
arrays are allocated with `calloc`. Bones, morphs and frames may own nested
lists. `pmx_free` releases all of it.

The model has five modules:

- `Wire` (wire.dfy) models the primitive reads `get_field` and
  `get_field2`. These are little-endian loads of width 1, 2 or 4, over a byte
  sequence that carries its own length. It also has the encoders used for
  round trips.
- `Layout` (layout.dfy) holds the records, tag enumerations, bone flag bits
  and constants of `pmx_model.h`. A C union selected by a tag or a flag
  becomes a sum type or an `Option`. Floats are kept as 32-bit patterns
  (`F32`).
- `Grammar` (grammar.dfy) is the specification. It has one pure function
  per decoder. Each function takes the unread bytes (the C `src` pointer)
  and yields the value and the bytes after it, or an error. Each record
  function states how many bytes it consumes through a size function of the
  header and the decoded value. `ModelAt` is all of `pmx_parse`.
- `Decoder` (decoder.dfy) holds the imperative decoders. They use the C
  loops over a buffer and a cursor, and fill caller-supplied arrays. Each is
  proved to agree with its grammar function: the same value, the cursor at
  the grammar's remainder, or the same error.
- `Model` (model.dfy) holds the class `PmxModel` with the fields of
  `PMXModel`. `Parse` allocates and fills the section arrays in place, and
  is proved to compute `ModelAt`. `Free` releases what the model owns. A
  ghost set `live` stands for the heap blocks the model owns. `Valid` says
  that `live` is exactly the set of blocks its pointers reach.

The C code never bounds-checks its input pointer. The model adds the buffer
length, and every read that would pass the end fails with `Eof`. This is a
guarantee the C code does not give.

Four behaviours of the C code are reproduced, not corrected:

- Group and flip morph offsets read their index at the rigid-body width and
  their rate as one byte copied into the low byte of the float slot
  (pmx_model.c:216-217). The model takes the other three bytes as 0.
- A declared index width outside {1, 2, 4} consumes no bytes and writes
  nothing into its slot (pmx_model.c:8-24, 33-46). The model takes that
  slot as 0. That is what the `calloc`ed section records hold, but not
  what the `malloc`ed offset and element lists hold (see "Left out").
- The face count is divided by 3 with truncation, and leftover indices are
  not read (pmx_model.c:398).
- `data_count` is copied but never consulted.

One behaviour is corrected. When a nested offset or element list fails
(`NULL` from pmx_model.c:275 or 312), the C loop goes on and calls
`get_text(NULL, ...)`. The model stops the whole section at that failure.

## Model

| member | source | states |
|---|---|---|
| `Wire.CopyAt` | pmx_model.c:5-28 | `get_field` copies exactly `count` fields of the declared width; the copy followed by what is left is the input; it fails with `Eof` exactly when fewer bytes remain |
| `Wire.IndexAt` | pmx_model.c:30-51 | one field of `get_field2` consumes `Width(size)` bytes (0 for a width outside {1, 2, 4}) and gives a value that fits that many bytes; it fails exactly when the input is too short |
| `Wire.WidenAt` | pmx_model.c:30-51 | `get_field2` yields `count` slots, each fitting its width, and consumes exactly `count × Width(size)` bytes; it fails with `Eof` exactly when fewer remain |
| `Wire.WidenAtSlots` | pmx_model.c:30-51 | slot k holds the little-endian value of the k-th group of `size` bytes |
| `Wire.StrideIsProduct` | pmx_model.c:5-51 | the bytes consumed by `count` fields of width `w` are `count × w` |
| `Wire.Le` | pmx_model.c:14-23 | a little-endian load of n bytes is below 256^n |
| `Wire.LeBytes` | pmx_model.c:14-23 | encoding a value in n little-endian bytes gives n bytes that load back as the value |
| `Wire.LeBytesOfLe` | pmx_model.c:14-23 | encoding a loaded value gives back the bytes, so load and encoding are inverse |
| `Wire.LeOfTwo` | pmx_model.c:14-18 | a 2-byte load is `b0 + 256·b1` (little-endian host) |
| `Wire.LeOfFour` | pmx_model.c:19-23 | a 4-byte load is `b0 + 256·b1 + 65536·b2 + 16777216·b3` |
| `Wire.Width` | pmx_model.c:8-24 | the bytes one field consumes: the width itself for 1, 2 or 4, else 0 |
| `Wire.EncIndex` | pmx_model.c:30-51 | one index field written at declared width `w` takes `Width(w)` bytes before what follows |
| `Wire.IndexRoundTrip` | pmx_model.c:30-51 | reading an encoded index back gives the value and the bytes after it |
| `Wire.EncIndices` | pmx_model.c:30-51 | the indices `vs` written at width `w` take `Width(w)` bytes each before what follows |
| `Wire.IndicesRoundTrip` | pmx_model.c:30-51 | reading `|vs|` encoded indices back gives `vs` and the bytes after them |
| `Wire.CopyRoundTrip` | pmx_model.c:5-28 | copying a field block back out of the block followed by more bytes gives the block and the rest |
| `Layout.WeightTypeOf` | pmx_model.h:58-64 | exactly the tags 0..3 name a weight type, and each names the type whose code it is |
| `Layout.MorphTypeOf` | pmx_model.h:182-195 | exactly the tags 0..10 name a morph type; the UV morphs are exactly the tags 3..7 |
| `Layout.FrameElemTypeOf` | pmx_model.h:246-250 | exactly the tags 0 (bone) and 1 (morph) name a frame element type |
| `Layout.GatingFlagsAreDistinctBits` | pmx_model.h:137-149 | the seven flags that gate bone fields are bits 0, 5, 8, 9, 10, 11 and 13, each a single bit and no two alike |
| `Grammar.U8At` | pmx_model.c:5-28 | a 1-byte field consumes 1 byte and holds that byte; it fails exactly on empty input |
| `Grammar.U16At` | pmx_model.c:5-28 | a 2-byte field consumes 2 bytes and holds their little-endian value; it fails exactly when fewer remain |
| `Grammar.U32At` | pmx_model.c:5-28 | a 4-byte field consumes 4 bytes and holds their little-endian value; it fails exactly when fewer remain |
| `Grammar.F32At` | pmx_model.c:129 | one float consumes 4 bytes and is the bit pattern of those bytes; it fails exactly when fewer remain |
| `Grammar.Vec2At` | pmx_model.c:78 | two floats consume 8 bytes and are the bit patterns of bytes 0..3 and 4..7; it fails exactly when fewer remain |
| `Grammar.Vec3At` | pmx_model.c:76-77 | three floats consume 12 bytes and are the bit patterns of bytes 0..3, 4..7 and 8..11; it fails exactly when fewer remain |
| `Grammar.Vec4At` | pmx_model.c:127 | four floats consume 16 bytes and are the bit patterns of the four 4-byte groups in order; it fails exactly when fewer remain |
| `Grammar.LimitsAt` | pmx_model.c:153-154 | a lower and an upper 3-vector consume 24 bytes and are the floats at offsets 0 and 12; it fails exactly when fewer remain |
| `Grammar.TextAt` | pmx_model.c:53-62 | `get_text` consumes 4 + `len` bytes for any `len`, keeps `len` and stores exactly the first min(`len`, 64) bytes of the body; it fails exactly when the length or the body is cut short |
| `Grammar.EncText` | pmx_model.c:53-62 | a text field is its 4-byte length, then the body, then what follows |
| `Grammar.TextRoundTrip` | pmx_model.c:53-62 | reading an encoded text back gives its full length, the first min(len, 64) body bytes and exactly the bytes after the body |
| `Grammar.InfoAt` | pmx_model.c:64-71 | the info block consumes exactly its four texts |
| `Grammar.Many` | pmx_model.c:73-106 | a record loop yields exactly `count` records or the first record's failure |
| `Grammar.ManyStep` | pmx_model.c:73-106 | one record decoded at the loop cursor keeps the loop invariant, or its failure is the failure of the whole list |
| `Grammar.ManyDone` | pmx_model.c:73-106 | at the end of a record loop the list is exactly the records decoded, with the cursor at the rest |
| `Grammar.ManyTook` | pmx_model.c:73-106 | a decoded list consumes exactly the sum of its records' sizes |
| `Grammar.ManyAll` | pmx_model.c:73-106 | every record of a decoded list has each property that every single decoded record has |
| `Grammar.ManyFailsEof` | pmx_model.c:73-106 | a list of records that can only run out of input fails only with `Eof` |
| `Grammar.Bdef1At` | pmx_model.c:83-85 | BDEF1 consumes b bytes (b = bone index width) |
| `Grammar.Bdef2At` | pmx_model.c:86-89 | BDEF2 consumes 2b + 4 bytes |
| `Grammar.Bdef4At` | pmx_model.c:90-93 | BDEF4 consumes 4b + 16 bytes |
| `Grammar.SdefAt` | pmx_model.c:94-98 | SDEF consumes 2b + 40 bytes |
| `Grammar.WeightAt` | pmx_model.c:82-101 | the weight payload takes the size of its type, the type is the one the tag names, a tag above 3 fails with `BadTag` before anything is read, and tags 0..3 fail only with `Eof` |
| `Grammar.VertexAt` | pmx_model.c:73-106 | a vertex consumes 32 + 1 + payload + 4 bytes, its weight type is the tag byte at offset 32, and a tag above 3 fails with `BadTag` |
| `Grammar.FaceAt` | pmx_model.c:108-113 | a face consumes three vertex indices; it fails exactly when fewer bytes remain |
| `Grammar.TextureAt` | pmx_model.c:115-120 | a texture consumes exactly its name text and fails exactly when the text does |
| `Grammar.SurfaceAt` | pmx_model.c:127-133 | diffuse to edge size consume 65 bytes; it fails with `Eof` exactly when fewer remain |
| `Grammar.SurfaceFields` | pmx_model.c:127-133 | each field is what its own read yields at its fixed offset: diffuse at 0, specular at 16, power at 28, ambient at 32, draw mode at 44, edge colour at 45, edge size at 61 |
| `Grammar.MapsAt` | pmx_model.c:134-139 | two texture indices and two mode bytes, then a toon index that is `tex_idx_size` wide for TOON_TEX and 1 byte for any other mode read from the toon-mode byte |
| `Grammar.MaterialAt` | pmx_model.c:122-145 | a material consumes exactly `MaterialSize`: its texts, the fixed fields and the header- and toon-mode-dependent index widths |
| `Grammar.IkLinkAt` | pmx_model.c:147-159 | an IK link consumes b + 1 bytes plus 24 exactly when `has_limit` ≠ 0, and holds a limit exactly then |
| `Grammar.ManyIkLinks` | pmx_model.c:147-159 | the link list consumes the sum of its links' sizes and fails only with `Eof` |
| `Grammar.TipAt` | pmx_model.c:171-175 | the tip is a bone index (b bytes) exactly when CONNECTED is set, else a 12-byte offset |
| `Grammar.LinkAt` | pmx_model.c:177-180 | an index and a 4-byte rate are read exactly when LINK_ROTATION or LINK_MOVE is set, and nothing otherwise |
| `Grammar.FixedAxisAt` | pmx_model.c:182-183 | 12 bytes are read exactly when FIXED_AXIS is set |
| `Grammar.LocalAxisAt` | pmx_model.c:185-188 | 24 bytes are read exactly when LOCAL_AXIS is set |
| `Grammar.ExtParentAt` | pmx_model.c:190-191 | 4 bytes are read exactly when EXT_PARENT_TRANSFORM is set |
| `Grammar.IkAt` | pmx_model.c:193-204 | with IK set the block takes b + 12 bytes and then exactly `link_count` links; no link list exists without the flag or with count 0 |
| `Grammar.BoneAt` | pmx_model.c:161-208 | a bone consumes exactly `BoneSize`, and each optional field is present exactly when its flag says so, with `link_count` links in its IK block |
| `Grammar.TintsAt` | pmx_model.c:239-247 | the colour part of a material offset consumes 112 bytes; it fails with `Eof` exactly when fewer remain |
| `Grammar.TintsFields` | pmx_model.c:239-247 | each field is what its own read yields at its fixed offset: diffuse at 0, specular at 16, power at 28, ambient at 32, edge colour at 44, edge size at 60, texture, sphere and toon tints at 64, 80 and 96 |
| `Grammar.GroupFlipAt` | pmx_model.c:214-218 | a group or flip offset reads its index at the rigid-body width and a 1-byte rate |
| `Grammar.VertexOffsetAt` | pmx_model.c:219-222 | a vertex offset consumes a vertex index and 12 bytes |
| `Grammar.BoneOffsetAt` | pmx_model.c:223-227 | a bone offset consumes a bone index and 28 bytes |
| `Grammar.UvOffsetAt` | pmx_model.c:228-235 | a UV offset consumes a vertex index and 16 bytes |
| `Grammar.MaterialOffsetAt` | pmx_model.c:236-248 | a material offset consumes a material index and 113 bytes |
| `Grammar.ImpulseOffsetAt` | pmx_model.c:249-254 | an impulse offset consumes a rigid-body index and 25 bytes |
| `Grammar.OffsetOfTypeAt` | pmx_model.c:213-254 | each morph type reads its own layout: group shares with flip, the five UV types share one |
| `Grammar.MorphOffsetAt` | pmx_model.c:210-261 | an offset has the layout the tag names; a tag above 10 fails with `BadTag`, other tags fail only with `Eof` |
| `Grammar.ManyOffsets` | pmx_model.c:210-261 | the offset list consumes the sum of its offsets' sizes, every offset has the tag's layout, and a non-empty list under a tag above 10 fails with `BadTag` |
| `Grammar.MorphAt` | pmx_model.c:263-280 | a morph consumes exactly `MorphSize`, holds `offset_count` offsets, and any offsets all have the layout its type byte names |
| `Grammar.MorphWithoutOffsets` | pmx_model.c:271-275 | a morph with `offset_count` 0 reads no offset and succeeds with an empty list whatever its type byte |
| `Grammar.MorphBadTag` | pmx_model.c:213-275 | a morph with `offset_count` > 0 and a type byte above 10 fails with `BadTag` naming that byte |
| `Grammar.FrameElementAt` | pmx_model.c:282-299 | an element consumes its tag byte and an index of the bone width (tag 0) or the morph width (tag 1); any other tag fails with `BadTag` |
| `Grammar.ManyElems` | pmx_model.c:282-299 | the element list consumes the sum of its elements' sizes |
| `Grammar.FrameAt` | pmx_model.c:301-317 | a frame consumes exactly `FrameSize` and holds `elem_count` elements |
| `Grammar.FrameWithoutElems` | pmx_model.c:308-313 | a frame with `elem_count` 0 reads no element and succeeds with an empty list |
| `Grammar.FrameBadTag` | pmx_model.c:282-313 | a frame with `elem_count` > 0 whose first element has a tag byte above 1 fails with `BadTag` naming that byte |
| `Grammar.RigidBodyAt` | pmx_model.c:319-340 | a rigid body consumes its texts, a bone index and 61 fixed bytes; it fails only with `Eof` |
| `Grammar.JointAt` | pmx_model.c:342-361 | a joint consumes its texts, two rigid-body indices and 97 fixed bytes; it fails only with `Eof` |
| `Grammar.SectionAt` | pmx_model.c:388-391 | a section holds exactly as many records as its 32-bit count says |
| `Grammar.FaceSectionAt` | pmx_model.c:397-401 | the face section holds count / 3 faces, truncated |
| `Grammar.Within` | pmx_model.c:392-395 | a decoder's failure becomes the failure of the section being read, and its success is unchanged |
| `Grammar.VerticesStep` | pmx_model.c:388-395 | it fails exactly when the vertex section does, with that failure attributed to the vertex section; otherwise the vertex list becomes exactly the section's records, nothing else in the model changes, and the cursor moves to the section's remainder |
| `Grammar.FacesStep` | pmx_model.c:397-405 | it fails exactly when the face section does, with that failure attributed to the face section; otherwise the face list becomes exactly the section's records, nothing else in the model changes, and the cursor moves to the section's remainder |
| `Grammar.TexturesStep` | pmx_model.c:407-414 | it fails exactly when the texture section does, with that failure attributed to the texture section; otherwise the texture list becomes exactly the section's records, nothing else in the model changes, and the cursor moves to the section's remainder |
| `Grammar.MaterialsStep` | pmx_model.c:416-423 | it fails exactly when the material section does, with that failure attributed to the material section; otherwise the material list becomes exactly the section's records, nothing else in the model changes, and the cursor moves to the section's remainder |
| `Grammar.BonesStep` | pmx_model.c:425-432 | it fails exactly when the bone section does, with that failure attributed to the bone section; otherwise the bone list becomes exactly the section's records, nothing else in the model changes, and the cursor moves to the section's remainder |
| `Grammar.MorphsStep` | pmx_model.c:434-441 | it fails exactly when the morph section does, with that failure attributed to the morph section; otherwise the morph list becomes exactly the section's records, nothing else in the model changes, and the cursor moves to the section's remainder |
| `Grammar.FramesStep` | pmx_model.c:443-450 | it fails exactly when the frame section does, with that failure attributed to the frame section; otherwise the frame list becomes exactly the section's records, nothing else in the model changes, and the cursor moves to the section's remainder |
| `Grammar.RigidBodiesStep` | pmx_model.c:452-459 | it fails exactly when the rigid-body section does, with that failure attributed to the rigid-body section; otherwise the rigid-body list becomes exactly the section's records, nothing else in the model changes, and the cursor moves to the section's remainder |
| `Grammar.JointsStep` | pmx_model.c:461-468 | it fails exactly when the joint section does, with that failure attributed to the joint section; otherwise the joint list becomes exactly the section's records, nothing else in the model changes, and the cursor moves to the section's remainder |
| `Grammar.FromVertices` | pmx_model.c:388-471 | the sections from the vertices on keep the header and info, fail only as a section failure, leave every earlier section as it was, and on success reach exactly the model they return |
| `Grammar.FromFaces` | pmx_model.c:397-471 | the sections from the faces on keep the header and info, fail only as a section failure, leave every earlier section as it was, and on success reach exactly the model they return |
| `Grammar.FromTextures` | pmx_model.c:407-471 | the sections from the textures on keep the header and info, fail only as a section failure, leave every earlier section as it was, and on success reach exactly the model they return |
| `Grammar.FromMaterials` | pmx_model.c:416-471 | the sections from the materials on keep the header and info, fail only as a section failure, leave every earlier section as it was, and on success reach exactly the model they return |
| `Grammar.FromBones` | pmx_model.c:425-471 | the sections from the bones on keep the header and info, fail only as a section failure, leave every earlier section as it was, and on success reach exactly the model they return |
| `Grammar.FromMorphs` | pmx_model.c:434-471 | the sections from the morphs on keep the header and info, fail only as a section failure, leave every earlier section as it was, and on success reach exactly the model they return |
| `Grammar.FromFrames` | pmx_model.c:443-471 | the sections from the frames on keep the header and info, fail only as a section failure, leave every earlier section as it was, and on success reach exactly the model they return |
| `Grammar.FromRigidBodies` | pmx_model.c:452-471 | the sections from the rigid bodies on keep the header and info, fail only as a section failure, leave every earlier section as it was, and on success reach exactly the model they return |
| `Grammar.FromJoints` | pmx_model.c:461-471 | the sections from the joints on keep the header and info, fail only as a section failure, leave every earlier section as it was, and on success reach exactly the model they return |
| `Grammar.HeaderOf` | pmx_model.h:29-42 | the header's signature is bytes 0..3 and its `uv_count` is byte 10 of the input |
| `Grammar.EncHeader` | pmx_model.h:29-42 | the packed PMXHeader layout is 17 bytes |
| `Grammar.HeaderCopy` | pmx_model.c:370 | the `memcpy` of the header is verbatim: writing the decoded header back out gives exactly the first 17 bytes |
| `Grammar.HeaderAt` | pmx_model.c:366-374 | `MagicMismatch` exactly when the first 4 bytes are not "PMX "; `Eof` on the header exactly when the signature matches but fewer than 17 bytes exist; `AdditionalUv` when byte 10 is positive; success exactly when byte 10 is 0, with the header copied from the first 17 bytes |
| `Grammar.PreambleAt` | pmx_model.c:366-376 | it fails with `MagicMismatch` exactly when the first 4 bytes are not "PMX "; with the signature and uv_count > 0 it fails with `AdditionalUv`; on success the header is the first 17 bytes, uv_count is 0, and the info is decoded from offset 17 |
| `Grammar.ModelAt` | pmx_model.c:363-472 | `pmx_parse` as a whole: the same signature, additional-UV, header and info facts as the preamble, followed by the nine sections in order, stopping at the first failure |
| `Grammar.ModelAfterPreamble` | pmx_model.c:375-388 | once the preamble is read, the model is what the nine sections make of it |
| `Grammar.ReachedAfterPreamble` | pmx_model.c:375-388 | what `pmx_parse` has read when it stops is what the sections after the preamble reached |
| `Decoder.CopySlot` | pmx_model.c:8-24 | one pass of the `get_field` switch copies `Width(size)` bytes and moves the cursor past them |
| `Decoder.GetField` | pmx_model.c:5-28 | the `get_field` loop computes `CopyAt`: the same bytes and the cursor at its remainder, or `Eof` |
| `Decoder.SlotAt` | pmx_model.c:33-46 | a width matching no case of the switch writes nothing; the slot is taken as 0 |
| `Decoder.LoadSlot` | pmx_model.c:33-46 | one pass of the `get_field2` switch loads the slot and moves the cursor by `Width(size)` |
| `Decoder.WidenAtCursor` | pmx_model.c:32-48 | a widening read at a cursor splits into the slot at the cursor and the read after it |
| `Decoder.WidenStep` | pmx_model.c:32-48 | one pass of the `get_field2` loop keeps its invariant |
| `Decoder.NextSlot` | pmx_model.c:33-47 | one pass of the `get_field2` loop loads the next slot and keeps the relation to `WidenAt` |
| `Decoder.GetField2` | pmx_model.c:30-51 | the `get_field2` loop computes `WidenAt`: the same slots and the cursor at its remainder, or `Eof` |
| `Decoder.WidenSlots` | pmx_model.c:32-48 | once the run fits, the loop fills exactly the slots of `WidenAt` |
| `Decoder.ReadU8` | pmx_model.c:79 | agrees with `U8At` |
| `Decoder.ReadU16` | pmx_model.c:169 | agrees with `U16At` |
| `Decoder.ReadU32` | pmx_model.c:57 | agrees with `U32At` |
| `Decoder.ReadVec2` | pmx_model.c:78 | agrees with `Vec2At` |
| `Decoder.ReadVec3` | pmx_model.c:76 | agrees with `Vec3At` |
| `Decoder.ReadVec4` | pmx_model.c:127 | agrees with `Vec4At` |
| `Decoder.ReadF32` | pmx_model.c:129 | agrees with `F32At` |
| `Decoder.ReadIndex` | pmx_model.c:134 | agrees with `IndexAt` |
| `Decoder.ReadLimits` | pmx_model.c:153-154 | agrees with `LimitsAt` |
| `Decoder.GetText` | pmx_model.c:53-62 | `get_text` agrees with `TextAt` |
| `Decoder.ReadInfo` | pmx_model.c:64-71 | `pmx_parse_info` agrees with `InfoAt` |
| `Decoder.ReadWeight` | pmx_model.c:81-101 | the weight `switch` agrees with `WeightAt`, including the `BadTag` failure |
| `Decoder.ReadVertex` | pmx_model.c:76-102 | one pass of the vertex loop agrees with `VertexAt` |
| `Decoder.ParseVertices` | pmx_model.c:73-106 | `pmx_parse_vert` fills its array with exactly the records of `Many(VertexAt)` and stops at the remainder, or fails as the list does |
| `Decoder.ReadFace` | pmx_model.c:111 | one pass of the face loop agrees with `FaceAt` |
| `Decoder.ParseFaces` | pmx_model.c:108-113 | `pmx_parse_face` fills its array as `Many(FaceAt)` says |
| `Decoder.ReadTexture` | pmx_model.c:118 | one pass of the texture loop agrees with `TextureAt` |
| `Decoder.ParseTextures` | pmx_model.c:115-120 | `pmx_parse_tex` fills its array as `Many(TextureAt)` says |
| `Decoder.ReadSurface` | pmx_model.c:127-133 | agrees with `SurfaceAt` |
| `Decoder.ReadMaps` | pmx_model.c:134-139 | agrees with `MapsAt`, including the toon-mode-dependent width |
| `Decoder.ReadMaterial` | pmx_model.c:125-141 | one pass of the material loop agrees with `MaterialAt` |
| `Decoder.ParseMaterials` | pmx_model.c:122-145 | `pmx_parse_mat` fills its array as `Many(MaterialAt)` says |
| `Decoder.ReadIkLink` | pmx_model.c:150-155 | one pass of the IK link loop agrees with `IkLinkAt` |
| `Decoder.ParseIkLinks` | pmx_model.c:147-159 | `pmx_parse_ik` fills its array as `Many(IkLinkAt)` says |
| `Decoder.ReadTip` | pmx_model.c:171-175 | agrees with `TipAt` |
| `Decoder.ReadLink` | pmx_model.c:177-180 | agrees with `LinkAt` |
| `Decoder.ReadFixedAxis` | pmx_model.c:182-183 | agrees with `FixedAxisAt` |
| `Decoder.ReadLocalAxis` | pmx_model.c:185-188 | agrees with `LocalAxisAt` |
| `Decoder.ReadExtParent` | pmx_model.c:190-191 | agrees with `ExtParentAt` |
| `Decoder.ReadIkLinkList` | pmx_model.c:199-203 | allocates and fills a link list only when `link_count` > 0, agreeing with `ManyIkLinks` |
| `Decoder.ReadIk` | pmx_model.c:193-204 | agrees with `IkAt` |
| `Decoder.ReadBone` | pmx_model.c:164-204 | one pass of the bone loop agrees with `BoneAt` |
| `Decoder.ParseBones` | pmx_model.c:161-208 | `pmx_parse_bone` fills its array as `Many(BoneAt)` says |
| `Decoder.ReadGroupFlip` | pmx_model.c:216-217 | agrees with `GroupFlipAt` |
| `Decoder.ReadVertexOffset` | pmx_model.c:220-221 | agrees with `VertexOffsetAt` |
| `Decoder.ReadBoneOffset` | pmx_model.c:224-226 | agrees with `BoneOffsetAt` |
| `Decoder.ReadUvOffset` | pmx_model.c:233-234 | agrees with `UvOffsetAt` |
| `Decoder.ReadTints` | pmx_model.c:239-247 | agrees with `TintsAt` |
| `Decoder.ReadMaterialOffset` | pmx_model.c:237-247 | agrees with `MaterialOffsetAt` |
| `Decoder.ReadImpulseOffset` | pmx_model.c:250-253 | agrees with `ImpulseOffsetAt` |
| `Decoder.ReadOffsetOfType` | pmx_model.c:213-254 | the morph-type `switch` agrees with `OffsetOfTypeAt` |
| `Decoder.ReadMorphOffset` | pmx_model.c:213-257 | one pass of the offset loop agrees with `MorphOffsetAt`, including the `BadTag` failure |
| `Decoder.ParseMorphOffsets` | pmx_model.c:210-261 | `pmx_parse_morph_offset` fills its array as `Many(MorphOffsetAt)` says |
| `Decoder.ReadOffsetList` | pmx_model.c:271-276 | allocates and fills an offset list only when `offset_count` > 0, agreeing with `ManyOffsets` |
| `Decoder.ReadMorph` | pmx_model.c:266-276 | one pass of the morph loop agrees with `MorphAt` |
| `Decoder.ParseMorphs` | pmx_model.c:263-280 | `pmx_parse_morph` fills its array as `Many(MorphAt)` says |
| `Decoder.ReadFrameElement` | pmx_model.c:285-295 | one pass of the element loop agrees with `FrameElementAt`, including the `BadTag` failure |
| `Decoder.ParseFrameElements` | pmx_model.c:282-299 | `pmx_parse_frame_elem` fills its array as `Many(FrameElementAt)` says |
| `Decoder.ReadElementList` | pmx_model.c:308-313 | allocates and fills an element list only when `elem_count` > 0, agreeing with `ManyElems` |
| `Decoder.ReadFrame` | pmx_model.c:304-313 | one pass of the frame loop agrees with `FrameAt` |
| `Decoder.ParseFrames` | pmx_model.c:301-317 | `pmx_parse_frame` fills its array as `Many(FrameAt)` says |
| `Decoder.ReadRigidBody` | pmx_model.c:322-336 | one pass of the rigid-body loop agrees with `RigidBodyAt` |
| `Decoder.ParseRigidBodies` | pmx_model.c:319-340 | `pmx_parse_rigidbody` fills its array as `Many(RigidBodyAt)` says |
| `Decoder.ReadJoint` | pmx_model.c:345-357 | one pass of the joint loop agrees with `JointAt` |
| `Decoder.ParseJoints` | pmx_model.c:342-361 | `pmx_parse_joint` fills its array as `Many(JointAt)` says |
| `Model.NestedIn` | pmx_model.c:497-517 | the nested blocks of a record list are exactly those of the records that own one |
| `Model.ReadVertexSection` | pmx_model.c:388-391 | the count is read, then a fresh array of exactly that length is allocated and filled as `SectionAt` says; no array exists when the count cannot be read |
| `Model.ReadFaceSection` | pmx_model.c:397-401 | the face count is read, then a fresh array of count / 3 faces is allocated and filled as `FaceSectionAt` says |
| `Model.ReadTextureSection` | pmx_model.c:407-410 | as for vertices, for the textures |
| `Model.ReadMaterialSection` | pmx_model.c:416-419 | as for vertices, for the materials |
| `Model.ReadBoneSection` | pmx_model.c:425-428 | as for vertices, for the bones |
| `Model.ReadMorphSection` | pmx_model.c:434-437 | as for vertices, for the morphs |
| `Model.ReadFrameSection` | pmx_model.c:443-446 | as for vertices, for the frames |
| `Model.ReadRigidBodySection` | pmx_model.c:452-455 | as for vertices, for the rigid bodies |
| `Model.ReadJointSection` | pmx_model.c:461-464 | as for vertices, for the joints |
| `Model.PmxModel.constructor` | pmx_model.c:378-386 | a new model is valid, has every section pointer null and owns nothing |
| `Model.PmxModel.EmptyOwnsNothing` | pmx_model.c:474-529 | a valid model with no section array owns no block, so `pmx_free` has nothing to release |
| `Model.PmxModel.HoldVertices` | pmx_model.c:390 | storing an allocated array keeps `Valid`: the model now owns it |
| `Model.PmxModel.HoldFaces` | pmx_model.c:400 | storing an allocated array keeps `Valid`: the model now owns it |
| `Model.PmxModel.HoldTextures` | pmx_model.c:409 | storing an allocated array keeps `Valid`: the model now owns it |
| `Model.PmxModel.HoldMaterials` | pmx_model.c:418 | storing an allocated array keeps `Valid`: the model now owns it |
| `Model.PmxModel.HoldBones` | pmx_model.c:427 | storing an allocated array keeps `Valid`: the model now owns it; the model then also owns every bone's link list |
| `Model.PmxModel.HoldMorphs` | pmx_model.c:436 | storing an allocated array keeps `Valid`: the model now owns it; the model then also owns every morph's offset list |
| `Model.PmxModel.HoldFrames` | pmx_model.c:445 | storing an allocated array keeps `Valid`: the model now owns it; the model then also owns every frame's element list |
| `Model.PmxModel.HoldRigidBodies` | pmx_model.c:454 | storing an allocated array keeps `Valid`: the model now owns it |
| `Model.PmxModel.HoldJoints` | pmx_model.c:463 | storing an allocated array keeps `Valid`: the model now owns it |
| `Model.PmxModel.TakeVertices` | pmx_model.c:388-395 | the vertices section is stored as `SectionAt` says, or its failure is reported as a vertex-section failure |
| `Model.PmxModel.TakeFaces` | pmx_model.c:397-405 | the same, for the faces |
| `Model.PmxModel.TakeTextures` | pmx_model.c:407-414 | the same, for the textures |
| `Model.PmxModel.TakeMaterials` | pmx_model.c:416-423 | the same, for the materials |
| `Model.PmxModel.TakeBones` | pmx_model.c:425-432 | the same, for the bones; the model then owns each bone's link list |
| `Model.PmxModel.TakeMorphs` | pmx_model.c:434-441 | the same, for the morphs; the model then owns each morph's offset list |
| `Model.PmxModel.TakeFrames` | pmx_model.c:443-450 | the same, for the frames; the model then owns each frame's element list |
| `Model.PmxModel.TakeRigidBodies` | pmx_model.c:452-459 | the same, for the rigid bodies |
| `Model.PmxModel.TakeJoints` | pmx_model.c:461-468 | the same, for the joints |
| `Model.PmxModel.SectionsFromVertices` | pmx_model.c:388-471 | succeeds exactly when `FromVertices` does and fails with its error; on failure the sections before the failing one hold exactly their records and no later section has an array; on success every section holds exactly its records |
| `Model.PmxModel.SectionsFromFaces` | pmx_model.c:397-471 | succeeds exactly when `FromFaces` does and fails with its error; on failure the sections before the failing one hold exactly their records and no later section has an array; on success every section holds exactly its records |
| `Model.PmxModel.SectionsFromTextures` | pmx_model.c:407-471 | succeeds exactly when `FromTextures` does and fails with its error; on failure the sections before the failing one hold exactly their records and no later section has an array; on success every section holds exactly its records |
| `Model.PmxModel.SectionsFromMaterials` | pmx_model.c:416-471 | succeeds exactly when `FromMaterials` does and fails with its error; on failure the sections before the failing one hold exactly their records and no later section has an array; on success every section holds exactly its records |
| `Model.PmxModel.SectionsFromBones` | pmx_model.c:425-471 | succeeds exactly when `FromBones` does and fails with its error; on failure the sections before the failing one hold exactly their records and no later section has an array; on success every section holds exactly its records |
| `Model.PmxModel.SectionsFromMorphs` | pmx_model.c:434-471 | succeeds exactly when `FromMorphs` does and fails with its error; on failure the sections before the failing one hold exactly their records and no later section has an array; on success every section holds exactly its records |
| `Model.PmxModel.SectionsFromFrames` | pmx_model.c:443-471 | succeeds exactly when `FromFrames` does and fails with its error; on failure the sections before the failing one hold exactly their records and no later section has an array; on success every section holds exactly its records |
| `Model.PmxModel.SectionsFromRigidBodies` | pmx_model.c:452-471 | succeeds exactly when `FromRigidBodies` does and fails with its error; on failure the sections before the failing one hold exactly their records and no later section has an array; on success every section holds exactly its records |
| `Model.PmxModel.SectionsFromJoints` | pmx_model.c:461-471 | succeeds exactly when `FromJoints` does and fails with its error; on failure the sections before the failing one hold exactly their records and no later section has an array; on success every section holds exactly its records |
| `Model.PmxModel.ReadPreamble` | pmx_model.c:366-376 | agrees with `PreambleAt`; the header is copied whenever the signature matches and 17 bytes exist, even when the UV check then fails |
| `Model.PmxModel.ReadSections` | pmx_model.c:378-471 | after the preamble, the nine sections succeed exactly when `FromVertices` does and fail with its error; on success the model holds exactly its contents; on failure every section before the failing one holds exactly its records and no later section has an array |
| `Model.PmxModel.Parse` | pmx_model.c:363-472 | `pmx_parse` succeeds exactly when `ModelAt` does and fails with its error; on success the model holds exactly `ModelAt`'s contents; a failure before the sections leaves no array; a failing section leaves the sections before it holding exactly their records and no array after it; `Valid` is kept |
| `Model.PmxModel.Release` | pmx_model.c:474-529 | one `free` of an owned block removes exactly that block from what the model owns |
| `Model.PmxModel.FreeLinks` | pmx_model.c:497-499 | releases exactly the link lists the bones own |
| `Model.PmxModel.FreeOffsets` | pmx_model.c:505-507 | releases exactly the offset lists the morphs own |
| `Model.PmxModel.FreeElems` | pmx_model.c:513-515 | releases exactly the element lists the frames own |
| `Model.PmxModel.FreeVertices` | pmx_model.c:476-479 | releases the vertex array if there is one and nulls the pointer |
| `Model.PmxModel.FreeFaces` | pmx_model.c:481-484 | the same for the faces |
| `Model.PmxModel.FreeTextures` | pmx_model.c:486-489 | the same for the textures |
| `Model.PmxModel.FreeMaterials` | pmx_model.c:491-494 | the same for the materials |
| `Model.PmxModel.FreeBones` | pmx_model.c:496-502 | releases every bone's link list, then the bone array, and nulls the pointer |
| `Model.PmxModel.FreeMorphs` | pmx_model.c:504-510 | releases every morph's offset list, then the morph array, and nulls the pointer |
| `Model.PmxModel.FreeFrames` | pmx_model.c:512-518 | releases every frame's element list, then the frame array, and nulls the pointer |
| `Model.PmxModel.FreeRigidBodies` | pmx_model.c:520-523 | the same for the rigid bodies |
| `Model.PmxModel.FreeJoints` | pmx_model.c:525-528 | the same for the joints |
| `Model.PmxModel.HeldWhole` | pmx_model.c:378-471 | when every section holds its records, the model is complete and its contents are exactly the decoded model |
| `Model.PmxModel.Free` | pmx_model.c:474-529 | `pmx_free` leaves every pointer null and the model owning nothing; it changes no count |

## Left out

- File reading, size probing and exit codes (main.c, parser.c) are not part of this model. They are I/O around the decoder.
- `TRACE` logging, the `error_msg` buffer and `pmx_get_error_msg` are left out. Failures are the datatype `ParseError` instead, which names the section and the cause.
- Floating-point meaning is left out. Floats are only copied, so they are kept as 32-bit patterns.
- Text encodings (UTF-16LE or UTF-8) are left out. Texts are raw bytes, as in the C code.
- `malloc`/`calloc` failure and the `assert`s at pmx_model.c:274 and 311 are left out. Allocation always succeeds here.
- Index ranges are not checked against section counts, because the C code does not check them.
- The host is taken to be little-endian, as the C loads through `uint16_t*` and `uint32_t*` assume.
- A record whose decoding fails part-way is not stored. The C code may leave a half-written record in its array, and the model stores only whole records. After a failure the failing section's array holds every whole record decoded before the failing one, as in C, followed by the zeroed records `calloc` handed out.
- This includes a morph or frame whose nested offset or element list fails. The C code has already stored the `malloc`ed list in `dst[i].offsets` or `dst[i].elems` (pmx_model.c:273, 310), so `pmx_free` would release it. The model allocates the list, then drops it together with the failing record, and the model does not own it.
- A header shorter than 17 bytes after a valid signature fails with `Eof`. The C `memcpy` would read past the end instead.
- The crash after a failing nested list is not modelled. When `pmx_parse_morph_offset` or `pmx_parse_frame_elem` returns `NULL` (pmx_model.c:275, 312), the C loop calls `get_text(NULL, ...)`. The model fails the section at once.
- Model.PmxModel.Parse: requires an empty model with every section pointer null. The C code also overwrites a used model, which leaks the old arrays; that case is not modelled. The C code nulls the pointers only after the preamble (pmx_model.c:378-386). After `MagicMismatch` or `AdditionalUv` they keep whatever the caller left, and `pmx_free` on such a model is undefined. The model starts from the constructor's null pointers instead.
- Decoder.ReadOffsetList: the offset list is `malloc`ed (pmx_model.c:273), so C leaves bytes indeterminate that the model fixes at 0. These are the upper bytes of an index narrower than 4 bytes, every byte of an index whose width is outside {1, 2, 4}, and the upper three bytes of a group or flip rate.
- Decoder.ReadElementList: the element list is `malloc`ed too (pmx_model.c:310). The upper bytes of an index narrower than 4 bytes, and every byte of an index whose width is outside {1, 2, 4}, are indeterminate in C and fixed at 0 in the model.
- Model.PmxModel.Parse: the section counts of vertices, faces, textures, materials, rigid bodies and joints are stored but `Valid` does not tie them to the array lengths. Only the bone, morph and frame counts, which `pmx_free` walks, are tied.
- Grammar.FromVertices: the straight-line sequence of nine sections in `pmx_parse` is a chain of nine functions, one per section, each reading its section and calling the next. `Model` mirrors it with one method per section.
- Model.PmxModel.Free: the model does not show that freeing is idempotent as a separate statement. That follows from `EmptyOwnsNothing`: after one call the model is empty and owns nothing.
