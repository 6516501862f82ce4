# glTF mesh loader — a Dafny model

This project models the mesh-loading core of the glTF viewer (`src/gltf_loader.cpp`) and proves properties of that model. The core has five parts:

- **Quantization.** `packNormUint8` and `unpackNormUint8` map a signed unit float to a byte code (0..254) and back. The colour and weight packing uses `(uint8_t)(x * 255 + 0.5)`.
- **BufferReader.** A strided view of one glTF accessor's bytes: `isValid`, `getByIndex` (the byte position of element `i`) and `getAsFloat` (float32 values as stored, normalized 8/16-bit values divided by 255/65535).
- **getDrawcallDesc.** Decides whether a primitive is drawable (indexed triangles, no morph targets, scalar u16/u32 indices, a vec3 float position). A mis-shaped attribute is dropped; a broken one trips an assert. The result is a descriptor of accessors and counts.
- **loadMesh.** For each accepted primitive, appends faces and packed vertices to a `MeshData` and overwrites its capability flags.
- **loadFile.** The status codes: 1 parse failure, 2 buffer failure, 4 no meshes, 0 after every node's mesh is loaded.

Modules, in dependency order:

| file | module | contents |
|---|---|---|
| `base.dfy` | `Base` | bytes, `Option`, `Result`, and the `Fault` of every assert |
| `quantize.dfy` | `Quantize` | the `(uint8_t)` cast, clamp, pack/unpack |
| `document.dfy` | `Document` | the cgltf structures the loader reads |
| `reader.dfy` | `Reader` | `BufferReader`, `getBufferReader`, `getByIndex`, `getAsFloat` |
| `resolver.dfy` | `Resolver` | `DrawCallDesc`, `getDrawcallDesc` as a method and as a fold over the attributes |
| `assembler.dfy` | `Assembler` | `Vertex`, `Face`, the `MeshData` class, `loadMesh` |
| `loader.dfy` | `Loader` | the status logic of `loadFile` |

## Modelling decisions

- **Asserts.** Every `assert` of the source becomes an explicit `Fail(fault)` outcome: what a debug build does is abort at that point. Examples are a missing accessor, disagreeing vertex counts, a second position, an index count that is not a multiple of 3, a bad tangent sign, a bad joints type, an out-of-range `getByIndex`, and an unsupported `getAsFloat` component type. Methods return `Result` and stop at the first fault.
- **Buffer bounds.** The source never checks that an accessor's elements lie inside its buffer; reading outside it is undefined behaviour. The model *requires* that every accessor of every primitive fits its buffer (`AccessorFits`, `PrimitiveFits`, `MeshFits`, `GltfFits`), which glTF 2.0 itself demands of a valid document. This is more than the loader reads: an accessor of a dropped attribute or of a rejected primitive is only inspected for its count and type, yet it must fit too. It is the one precondition the model adds.
- **Float32.** A float32 is decoded from its four bytes by a function the caller supplies (`f32: F32Decode`). Arithmetic on floats is exact arithmetic on `real`. Integers are read little-endian.
- **The `(uint8_t)` cast.** It truncates toward zero and is defined only when the value lies in (-1, 256). `ToUint8` models exactly that. A colour or weight outside the cast's domain is reported as the fault `ConversionUndefined` rather than given a value.
- **Zero-initialised vertex fields.** `emplace_back()` value-initialises the new `Vertex`. Its fields without a default member initialiser (uv, tangent, colour, joints, weights) therefore start at zero, not at an unspecified value, and the model uses zero. Joint indices are read and checked but never written, so `joint` is always zero.
- **The vertex count.** It is taken from the first attribute whose count is non-zero, because 0 doubles as "not yet set". A zero-count attribute before it passes the check. Reading such an attribute later goes out of range, which is the fault `IndexOutOfRange`.

## Model

| member | source | states |
|---|---|---|
| Quantize.ToUint8 | src/gltf_loader.cpp:35 | the cast truncates toward zero: the result is the integer part of a non-negative value and 0 for a value in (-1, 0) |
| Quantize.Clamp | src/gltf_loader.cpp:33-34 | the result lies in [-1, 1], equals the input inside that range and the nearer bound outside it |
| Quantize.UnpackNormUint8 | src/gltf_loader.cpp:30 | decoding a code gives at least -1, and at most 1 for every code the packer produces; PackUnpackRoundTrip and UnpackPackError make it the inverse of packNormUint8 |
| Quantize.PackNormUint8 | src/gltf_loader.cpp:31-36 | the code is at most 254 and is the nearest integer to 127 * clamp(v) + 127, halves rounding up |
| Quantize.PackNormUint8Monotone | src/gltf_loader.cpp:31-36 | packing is monotone |
| Quantize.PackNormUint8Saturates | src/gltf_loader.cpp:33-35 | values at or below -1 pack to 0, values at or above 1 pack to 254 |
| Quantize.UnitPointsRoundTrip | src/gltf_loader.cpp:13-36 | -1, 0 and 1 pack to 0, 127 and 254, and those codes unpack to exactly -1, 0 and 1 |
| Quantize.PackUnpackRoundTrip | src/gltf_loader.cpp:30-36 | every code 0..254 unpacks to a value in [-1, 1] that packs back to the same code |
| Quantize.UnpackPackError | src/gltf_loader.cpp:30-36 | unpacking a packed value is within 1/254 of the clamped input |
| Quantize.CanonicalEncodingMovesZero | src/gltf_loader.cpp:25-27 | the "canonical" unorm encoding maps 0 to 128, which does not decode back to 0 |
| Quantize.PackUnorm | src/gltf_loader.cpp:438-441 | the colour and weight cast, defined inside the cast's range; PackUnormNearest makes it round-to-nearest onto 0..255 for [0, 1] and PackUnormByteRoundTrip its inverse on c / 255 |
| Quantize.PackUnormNearest | src/gltf_loader.cpp:437-440 | for x in [0, 1] the colour cast is defined and rounds 255 * x to the nearest integer |
| Quantize.PackUnormByteRoundTrip | src/gltf_loader.cpp:139-143 | a normalized byte c read as c / 255 packs back to c |
| Document.U16Le | src/gltf_loader.cpp:147-149 | a 16-bit index read from two bytes is below 2^16 |
| Document.U32Le | src/gltf_loader.cpp:364-367 | a 32-bit index read from four bytes is below 2^32 |
| Reader.GetBufferReader | src/gltf_loader.cpp:163-179 | a null accessor gives an invalid reader; otherwise the view, buffer, data and stride > 0 asserts fail in that order, and on success the reader is valid, copies stride, count, type, component type and normalized, and addresses only bytes inside the buffer |
| Reader.BufferReader.IsValid | src/gltf_loader.cpp:119 | a reader is valid exactly when it has data; GetBufferReader makes it so exactly for a present accessor, and GetByIndex fails with the null-data fault otherwise |
| Reader.GetByIndex | src/gltf_loader.cpp:121-127 | succeeds exactly for a valid reader and index < count, with the null-data fault checked first; the element's bytes lie inside the buffer |
| Reader.ReadU8 | src/gltf_loader.cpp:121-127 | a byte component is read exactly when the reader is valid and the index is below count |
| Reader.ReadU16 | src/gltf_loader.cpp:121-127 | a 16-bit component is read exactly when the index is in range, and is below 2^16 |
| Reader.ReadU32 | src/gltf_loader.cpp:121-127 | a 32-bit component is read exactly when the index is in range, and is below 2^32 |
| Reader.ReadF32 | src/gltf_loader.cpp:121-127 | a float component is read exactly when the index is in range |
| Reader.GetAsFloat | src/gltf_loader.cpp:129-160 | succeeds exactly for float32 or normalized u8/u16 with an index in range; a non-normalized integer and any other type fail with their own faults; float32 is returned as stored, u8 and u16 as c/255 and c/65535 in [0, 1] |
| Reader.ElementAddress | src/gltf_loader.cpp:163-178 | element i of an accessor is at byte accessor offset + view offset + i * stride of its buffer |
| Reader.ReadIndexMatchesAccessor | src/gltf_loader.cpp:121-127 | an index read through the reader is the little-endian value stored in the accessor |
| Reader.ReadFloatMatchesAccessor | src/gltf_loader.cpp:129-137 | getAsFloat of a float32 accessor is the stored float |
| Reader.StoredFloat | src/gltf_loader.cpp:129-160 | a component getAsFloat can read, taken straight from the buffer; a normalized integer one lies in [0, 1] |
| Reader.ReadStoredFloat | src/gltf_loader.cpp:129-160 | getAsFloat through an accessor's reader returns the stored float32, or the stored u8 / u16 over 255 / 65535 |
| Resolver.Step | src/gltf_loader.cpp:224-285 | one attribute of the loop leaves the counts and index accessors unchanged, and stores only an accessor of the required shape that lies inside its buffer |
| Resolver.Scan | src/gltf_loader.cpp:222-286 | the attribute loop changes only the attribute fields of the descriptor, and keeps every stored accessor of its required shape and inside its buffer |
| Resolver.ScanFailureSticks | src/gltf_loader.cpp:222-286 | once an assert fails in the attribute loop, no later attribute changes the outcome |
| Resolver.DrawcallDescOf | src/gltf_loader.cpp:181-301 | a primitive failing the header checks is rejected; an accepted descriptor has exactly one of ind16/ind32 (the primitive's indices, by component type), a position, numIndices == index count, numIndices % 3 == 0, numTris == numIndices / 3, shaped accessors that fit their buffers |
| Resolver.GetDrawcallDesc | src/gltf_loader.cpp:181-301 | the loop over attributes computes exactly DrawcallDescOf |
| Resolver.ScanInvariant | src/gltf_loader.cpp:222-286 | after the loop each field holds the last accepted attribute of its semantic, every count is 0 or the vertex count, and the vertex count is 0 only when all counts are 0 |
| Resolver.ScanCharacterization | src/gltf_loader.cpp:224-238 | the attribute loop finishes exactly when every attribute has an accessor, every count after a non-zero one equals it, and no position follows an accepted position |
| Resolver.DescriptorOutcome | src/gltf_loader.cpp:181-301 | a primitive is accepted exactly when the header checks pass, the loop finishes, a position was accepted and the index count is a multiple of 3; it fails exactly when the header passes and an assert trips; an accepted descriptor holds the last accepted attribute per semantic and the common vertex count |
| Resolver.MisshapedAttributeDropped | src/gltf_loader.cpp:248-285 | appending a mis-shaped non-position attribute with the right count leaves the descriptor as it was |
| Resolver.SecondPositionFails | src/gltf_loader.cpp:236-237 | a position after an accepted position trips the duplicate-position assert, whatever its shape |
| Assembler.MeshData.constructor | src/gltf_loader.cpp:78-88 | a new MeshData has no vertices, no faces and every flag false |
| Assembler.GetReaders | src/gltf_loader.cpp:371-377 | each reader is valid exactly when its descriptor field is set; readers of an accepted descriptor keep the attribute shapes and fit their buffers |
| Assembler.PackUnorm4 | src/gltf_loader.cpp:437-440 | four channels are packed exactly when each lies in the cast's domain |
| Assembler.PackVertices | src/gltf_loader.cpp:386-485 | a successful vertex loop yields n vertices, vertex j being the packing of element j |
| Assembler.PackVerticesFailure | src/gltf_loader.cpp:386-485 | the vertex loop fails exactly when some vertex fails, and then with the fault of the first failing vertex |
| Assembler.PackVerticesFailureSticks | src/gltf_loader.cpp:386-485 | once a vertex fails, running more vertices does not change the outcome |
| Assembler.PackVertex | src/gltf_loader.cpp:388-485 | one vertex of the loop; PackVertexParts and PackedVertexFields give each of its fields in terms of the readers and the stored accessor values |
| Assembler.AppendPrimitive | src/gltf_loader.cpp:345-485 | an accepted primitive appended to a mesh state; AppendPrimitiveShape gives the appended faces, vertices and flags |
| Assembler.LoadPrimitive | src/gltf_loader.cpp:338-486 | one iteration of the primitive loop; LoadPrimitiveStep and RejectedPrimitiveSkipped say what it does to the state |
| Assembler.LoadPrimitives | src/gltf_loader.cpp:336-487 | the primitive loop as a fold; MeshTotals gives its totals and flags, LoadPrimitivesFailureSticks its failure, and LoadMesh is proved to compute it |
| Assembler.LoadPrimitivesFailureSticks | src/gltf_loader.cpp:336-487 | once a primitive fails, later primitives do not change the outcome |
| Assembler.AppendFaces | src/gltf_loader.cpp:345-369 | the triangle loop appends Faces(ind, n) to the faces and changes nothing else |
| Assembler.AppendIndexFaces | src/gltf_loader.cpp:345-369 | reading the index accessor and appending its faces succeeds and changes the faces exactly as IndexFaces says |
| Assembler.SetFlags | src/gltf_loader.cpp:380-384 | the capability flags are overwritten from this primitive's readers, skin weights needing both weights and joints |
| Assembler.AppendVertices | src/gltf_loader.cpp:386-485 | the vertex loop appends exactly PackVertices' vertices, or reports its fault |
| Assembler.AppendPrimitiveInto | src/gltf_loader.cpp:345-485 | an accepted primitive changes the MeshData exactly as AppendPrimitive says |
| Assembler.LoadPrimitiveInto | src/gltf_loader.cpp:338-486 | one primitive loop iteration changes the MeshData exactly as LoadPrimitive says |
| Assembler.LoadMesh | src/gltf_loader.cpp:334-487 | loadMesh leaves the MeshData holding LoadPrimitives of its old contents and the mesh's primitives, or reports the same fault |
| Assembler.AppendPrimitiveShape | src/gltf_loader.cpp:345-485 | an accepted primitive appends numTris faces and numVertices vertices after the old ones, vertex j being the packing of element j, with flags from its descriptor |
| Assembler.RejectedPrimitiveSkipped | src/gltf_loader.cpp:341-344 | a rejected primitive leaves the mesh unchanged |
| Assembler.FacesRepeatFirstCorner | src/gltf_loader.cpp:350-368 | face t of an accepted primitive has all three corners equal to the stored index at slot 3t (which is below the index count), not rebased by the vertices already present; earlier faces are untouched |
| Assembler.PackVertexParts | src/gltf_loader.cpp:388-485 | each field of a packed vertex comes from its reader when valid and is the default otherwise; joints are checked but not stored |
| Assembler.PositionFromAccessor | src/gltf_loader.cpp:391-395 | the position is the accessor's three stored floats |
| Assembler.Float3FromAccessor | src/gltf_loader.cpp:398-403 | the normal is the accessor's three stored floats |
| Assembler.Float2FromAccessor | src/gltf_loader.cpp:406-410 | the uv is the accessor's two stored floats |
| Assembler.TangentFromAccessor | src/gltf_loader.cpp:412-426 | a packed tangent has a stored sign w with abs(abs(w) - 1) < 1e-5 and is packNormUint8 of each stored component |
| Assembler.ColorFromAccessor | src/gltf_loader.cpp:428-442 | a packed colour is `(uint8_t)(x * 255 + 0.5)` of each stored component, alpha 255 for a vec3 colour; a normalized 8- or 16-bit colour always packs, never leaving the cast's range |
| Assembler.WeightsFromAccessor | src/gltf_loader.cpp:474-484 | packed weights are `(uint8_t)(x * 255 + 0.5)` of each stored component; normalized 8- or 16-bit weights always pack |
| Assembler.ColorBytesCopied | src/gltf_loader.cpp:428-442 | a normalized 8-bit RGBA colour is stored byte for byte, for every element of the accessor |
| Assembler.PackedVertexFloats | src/gltf_loader.cpp:388-426 | a packed vertex has the stored position; the stored normal or (0, 0, 1); the stored uv or zero; the packed, sign-checked tangent or zero |
| Assembler.PackedVertexUnorms | src/gltf_loader.cpp:428-485 | a packed vertex has the packed stored colour (alpha 255 for vec3) or zero, the packed stored weights or zero, and zero joints |
| Assembler.PackedVertexFields | src/gltf_loader.cpp:388-485 | a packed vertex has the stored position; the stored normal or (0, 0, 1); the stored uv or zero; the packed, sign-checked tangent or zero; the packed stored colour (alpha 255 for vec3) or zero; the packed stored weights or zero; zero joints |
| Assembler.LoadPrimitiveStep | src/gltf_loader.cpp:336-486 | a loaded primitive keeps the old vertices and faces as a prefix; a rejected one changes nothing; an accepted one adds numVertices vertices, numTris faces and sets the flags from its descriptor |
| Assembler.MeshTotals | src/gltf_loader.cpp:334-487 | over a mesh, the old contents remain a prefix, the vertex and face counts grow by the sums over accepted primitives, and the flags are those of the last accepted primitive |
| Assembler.RepeatedPrimitiveNotRebased | src/gltf_loader.cpp:350-368 | loading an accepted primitive twice gives two identical runs of faces, so the second run indexes the first copy's vertices |
| Loader.LoadFile | src/gltf_loader.cpp:490-540 | the method returns exactly LoadFileStatus, loading each node's mesh into a fresh MeshData |
| Loader.LoadNodes | src/gltf_loader.cpp:528-536 | the node loop as a fold; LoadNodesCompletes says it completes exactly when every node's mesh loads |
| Loader.LoadFileStatus | src/gltf_loader.cpp:490-540 | loadFile's status; StatusCodes characterises each of 1, 2, 4 and 0, and LoadFile is proved to compute it |
| Loader.LoadNodesCompletes | src/gltf_loader.cpp:528-536 | the node loop completes exactly when the mesh of every node that has one loads |
| Loader.StatusCodes | src/gltf_loader.cpp:490-540 | the status is one of 0, 1, 2, 4: 1 exactly on a parse failure, 2 exactly on a buffer failure, 4 exactly when there are no meshes, 0 exactly when every node's mesh loads |
| Loader.NoMeshesIgnoresNodes | src/gltf_loader.cpp:521-525 | a document without meshes returns 4 whatever its nodes |

## Left out

- Node transform and skin printing (src/gltf_loader.cpp:305-332) and the other `printf` calls: diagnostic output only.
- cgltf itself (`cgltf_parse_file`, `cgltf_load_buffers`, `cgltf_free`): foreign library calls. Their outcomes enter `LoadFile` as the parsed document (`None` on failure) and a "buffers loaded" flag. Memory release is not modelled.
- The commented-out `cgltf_validate` step (status 3): it is not part of the program.
- IEEE-754 float32: rounding, `1.0f / 127.0f`, `/ 255.0f` and `fabsf` are exact operations on reals. Decoding four bytes into a float is a caller-supplied function. Host endianness is fixed to little-endian.
- Accessors outside their buffers: only documents in which every accessor of every primitive fits its buffer are covered (the `AccessorFits` family of preconditions). That excludes the undefined out-of-buffer reads, and also documents whose out-of-bounds accessors the loader never reads, such as the accessor of a dropped attribute or of a rejected primitive.
- Release builds, where `assert` compiles away and execution continues past a failed check: the model stops at the first failed assert instead.
- `data->meshes` being null with a non-zero `meshes_count`: the document's meshes are a sequence, so "no meshes" is the empty sequence.
- `attr` being null (`assert(attr)` on line 225): it is the address of an array element and cannot be null, so no fault is modelled for it.
- The node and data arguments of `loadMesh` beyond `node->mesh`: only the mesh's primitives affect the result.
- Loaded meshes are discarded by `loadFile`. The model keeps them only as far as a failed assert is observable.
- src/viewer_main.cpp (window, event loop, renderer) is not part of this model.
