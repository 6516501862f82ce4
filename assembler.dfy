/**
  The vertex packer and mesh assembler, loadMesh (src/gltf_loader.cpp:38-88,
  303-488): for each primitive the resolver accepts, append one face per
  triangle and one packed vertex per vertex to a MeshData, and set its
  capability flags from that primitive.
 */
module Assembler {
  import opened Base
  import opened Document
  import opened Reader
  import opened Quantize
  import opened Resolver

  datatype Float2 = Float2(u: real, v: real)
  datatype Float3 = Float3(x: real, y: real, z: real)
  datatype Byte4 = Byte4(x: Byte, y: Byte, z: Byte, w: Byte)

  const ZeroByte4 := Byte4(0, 0, 0, 0)

  /** A packed vertex. `emplace_back()` value-initialises it, so the fields
      without a default member initialiser (uv, tangent, colour, joints,
      weights) start at zero. */
  datatype Vertex = Vertex(pos: Float3, normal: Float3, uv: Float2, tangent: Byte4, color: Byte4, joint: Byte4, weight: Byte4)

  const DefaultVertex := Vertex(Float3(0.0, 0.0, 0.0), Float3(0.0, 0.0, 1.0), Float2(0.0, 0.0), ZeroByte4, ZeroByte4, ZeroByte4, ZeroByte4)

  datatype Face = Face(a: nat, b: nat, c: nat)

  datatype Flags = Flags(hasNormals: bool, hasUVs: bool, hasTangents: bool, hasColors: bool, hasSkinWeights: bool)

  /** The contents of a MeshData. */
  datatype MeshState = MeshState(vertices: seq<Vertex>, faces: seq<Face>, flags: Flags)

  const EmptyMesh := MeshState([], [], Flags(false, false, false, false, false))

  class MeshData {
    var vertices: seq<Vertex>
    var faces: seq<Face>
    var hasNormals: bool
    var hasUVs: bool
    var hasTangents: bool
    var hasColors: bool
    var hasSkinWeights: bool

    /** A default-constructed MeshData: no vertices, no faces, every flag false. */
    constructor ()
      ensures State() == EmptyMesh
    {
      vertices, faces := [], [];
      hasNormals, hasUVs, hasTangents, hasColors, hasSkinWeights := false, false, false, false, false;
    }

    function State(): MeshState
      reads this
    {
      MeshState(vertices, faces, Flags(hasNormals, hasUVs, hasTangents, hasColors, hasSkinWeights))
    }
  }

  /** The seven attribute readers of lines 371-377. */
  datatype Readers = Readers(
    pos: BufferReader, nrm: BufferReader, uv: BufferReader, tangent: BufferReader,
    color: BufferReader, joints: BufferReader, weights: BufferReader)

  /** The readers of an accepted descriptor: each fits its buffer and, when
      valid, has the shape the resolver admitted. */
  predicate ReadersShaped(rs: Readers) {
    && rs.pos.Fits() && (rs.pos.IsValid() ==> rs.pos.atype == Vec3)
    && rs.nrm.Fits() && (rs.nrm.IsValid() ==> rs.nrm.atype == Vec3)
    && rs.uv.Fits() && (rs.uv.IsValid() ==> rs.uv.atype == Vec2)
    && rs.tangent.Fits() && (rs.tangent.IsValid() ==> rs.tangent.atype == Vec4)
    && rs.color.Fits() && (rs.color.IsValid() ==> rs.color.atype in {Vec3, Vec4})
    && rs.joints.Fits() && (rs.joints.IsValid() ==> rs.joints.atype == Vec4)
    && rs.weights.Fits() && (rs.weights.IsValid() ==> rs.weights.atype == Vec4)
  }

  /** The readers of lines 371-377, in that order. */
  function GetReaders(d: DrawCallDesc): (r: Result<Readers>)
    ensures r.Ok? && DescShaped(d) && AttrDescFits(d) ==> ReadersShaped(r.value)
    ensures r.Ok? ==>
      && r.value.pos.IsValid() == d.pos.Some? && r.value.nrm.IsValid() == d.nrm.Some?
      && r.value.uv.IsValid() == d.uv.Some? && r.value.tangent.IsValid() == d.tangent.Some?
      && r.value.color.IsValid() == d.color.Some? && r.value.joints.IsValid() == d.skinInd.Some?
      && r.value.weights.IsValid() == d.skinWgt.Some?
  {
    var pos :- GetBufferReader(d.pos);
    var nrm :- GetBufferReader(d.nrm);
    var uv :- GetBufferReader(d.uv);
    var tangent :- GetBufferReader(d.tangent);
    var color :- GetBufferReader(d.color);
    var joints :- GetBufferReader(d.skinInd);
    var weights :- GetBufferReader(d.skinWgt);
    Ok(Readers(pos, nrm, uv, tangent, color, joints, weights))
  }

  /** The capability flags of lines 380-384. */
  function FlagsOf(rs: Readers): Flags {
    Flags(rs.nrm.IsValid(), rs.uv.IsValid(), rs.tangent.IsValid(), rs.color.IsValid(),
          rs.weights.IsValid() && rs.joints.IsValid())
  }

  function ReadFloat3(r: BufferReader, i: nat, f32: F32Decode): Result<Float3>
    requires r.Fits() && NumComponents(r.atype) >= 3
  {
    var x :- GetAsFloat(r, i, 0, f32);
    var y :- GetAsFloat(r, i, 1, f32);
    var z :- GetAsFloat(r, i, 2, f32);
    Ok(Float3(x, y, z))
  }

  function ReadFloat2(r: BufferReader, i: nat, f32: F32Decode): Result<Float2>
    requires r.Fits() && NumComponents(r.atype) >= 2
  {
    var u :- GetAsFloat(r, i, 0, f32);
    var v :- GetAsFloat(r, i, 1, f32);
    Ok(Float2(u, v))
  }

  function Abs(x: real): real {
    if x < 0.0 then -x else x
  }

  /** The bitangent sign check of line 420: |w| is 1 within 1e-5. */
  predicate HandednessOk(w: real) {
    Abs(Abs(w) - 1.0) < 0.00001
  }

  /** Lines 414-425: read the four tangent floats, check the sign, pack each. */
  function PackTangent(r: BufferReader, i: nat, f32: F32Decode): Result<Byte4>
    requires r.Fits() && r.atype == Vec4
  {
    var tx :- GetAsFloat(r, i, 0, f32);
    var ty :- GetAsFloat(r, i, 1, f32);
    var tz :- GetAsFloat(r, i, 2, f32);
    var tw :- GetAsFloat(r, i, 3, f32);
    if !HandednessOk(tw) then Fail(TangentSignOutOfRange)
    else Ok(Byte4(PackNormUint8(tx), PackNormUint8(ty), PackNormUint8(tz), PackNormUint8(tw)))
  }

  /** `(uint8_t)(x * 255.0f + 0.5f)` on four channels; a value outside the
      cast's defined range is reported instead of packed. */
  function PackUnorm4(a: real, b: real, c: real, d: real): (q: Result<Byte4>)
    ensures q.Ok? <==> UnormConvertible(a) && UnormConvertible(b) && UnormConvertible(c) && UnormConvertible(d)
  {
    if UnormConvertible(a) && UnormConvertible(b) && UnormConvertible(c) && UnormConvertible(d)
    then Ok(Byte4(PackUnorm(a), PackUnorm(b), PackUnorm(c), PackUnorm(d)))
    else Fail(ConversionUndefined)
  }

  /** Lines 430-441: RGB, alpha from a fourth component or 1.0. */
  function PackColor(r: BufferReader, i: nat, f32: F32Decode): Result<Byte4>
    requires r.Fits() && r.atype in {Vec3, Vec4}
  {
    var cr :- GetAsFloat(r, i, 0, f32);
    var cg :- GetAsFloat(r, i, 1, f32);
    var cb :- GetAsFloat(r, i, 2, f32);
    var ca :- if r.atype == Vec4 then GetAsFloat(r, i, 3, f32) else Ok(1.0);
    PackUnorm4(cr, cg, cb, ca)
  }

  /** Lines 446-471: the joint indices are read (u8 or u16, not normalized) and then dropped. */
  function ReadJoints(r: BufferReader, i: nat): Result<(nat, nat, nat, nat)>
    requires r.Fits() && r.atype == Vec4
  {
    if r.componentType != U8 && r.componentType != U16 then Fail(JointsComponentType)
    else if r.normalized then Fail(JointsNormalized)
    else if r.componentType == U8 then
      var i0 :- ReadU8(r, i, 0);
      var i1 :- ReadU8(r, i, 1);
      var i2 :- ReadU8(r, i, 2);
      var i3 :- ReadU8(r, i, 3);
      Ok((i0 as nat, i1 as nat, i2 as nat, i3 as nat))
    else
      var i0 :- ReadU16(r, i, 0);
      var i1 :- ReadU16(r, i, 1);
      var i2 :- ReadU16(r, i, 2);
      var i3 :- ReadU16(r, i, 3);
      Ok((i0, i1, i2, i3))
  }

  /** Lines 476-484. */
  function PackWeights(r: BufferReader, i: nat, f32: F32Decode): Result<Byte4>
    requires r.Fits() && r.atype == Vec4
  {
    var w0 :- GetAsFloat(r, i, 0, f32);
    var w1 :- GetAsFloat(r, i, 1, f32);
    var w2 :- GetAsFloat(r, i, 2, f32);
    var w3 :- GetAsFloat(r, i, 3, f32);
    PackUnorm4(w0, w1, w2, w3)
  }

  /** Lines 390-395: the position assert and the three floats of vertex `i`. */
  function ReadPosition(r: BufferReader, i: nat, f32: F32Decode): Result<Float3>
    requires r.Fits() && (r.IsValid() ==> r.atype == Vec3)
  {
    if r.componentType != F32 then Fail(PositionNotFloat)
    else if !r.IsValid() then Fail(NullReaderData)
    else
      var px :- ReadF32(r, i, 0, f32);
      var py :- ReadF32(r, i, 1, f32);
      var pz :- ReadF32(r, i, 2, f32);
      Ok(Float3(px, py, pz))
  }

  /** Lines 398-403: the normal of vertex `i`, or the default (0, 0, 1). */
  function NormalOf(r: BufferReader, i: nat, f32: F32Decode): Result<Float3>
    requires r.Fits() && (r.IsValid() ==> r.atype == Vec3)
  {
    if r.IsValid() then ReadFloat3(r, i, f32) else Ok(DefaultVertex.normal)
  }

  /** Lines 406-410: the uv of vertex `i`, or zero. */
  function UvOf(r: BufferReader, i: nat, f32: F32Decode): Result<Float2>
    requires r.Fits() && (r.IsValid() ==> r.atype == Vec2)
  {
    if r.IsValid() then ReadFloat2(r, i, f32) else Ok(DefaultVertex.uv)
  }

  /** Lines 412-426: the packed tangent of vertex `i`, or zero. */
  function TangentOf(r: BufferReader, i: nat, f32: F32Decode): Result<Byte4>
    requires r.Fits() && (r.IsValid() ==> r.atype == Vec4)
  {
    if r.IsValid() then PackTangent(r, i, f32) else Ok(DefaultVertex.tangent)
  }

  /** Lines 428-442: the packed colour of vertex `i`, or zero. */
  function ColorOf(r: BufferReader, i: nat, f32: F32Decode): Result<Byte4>
    requires r.Fits() && (r.IsValid() ==> r.atype in {Vec3, Vec4})
  {
    if r.IsValid() then PackColor(r, i, f32) else Ok(DefaultVertex.color)
  }

  /** Lines 444-472: the joint asserts and reads of vertex `i`. */
  function JointsOf(r: BufferReader, i: nat): Result<(nat, nat, nat, nat)>
    requires r.Fits() && (r.IsValid() ==> r.atype == Vec4)
  {
    if r.IsValid() then ReadJoints(r, i) else Ok((0, 0, 0, 0))
  }

  /** Lines 474-484: the packed weights of vertex `i`, or zero. */
  function WeightsOf(r: BufferReader, i: nat, f32: F32Decode): Result<Byte4>
    requires r.Fits() && (r.IsValid() ==> r.atype == Vec4)
  {
    if r.IsValid() then PackWeights(r, i, f32) else Ok(DefaultVertex.weight)
  }

  /** The body of the vertex loop (lines 388-485) for vertex `i`. */
  function PackVertex(rs: Readers, i: nat, f32: F32Decode): Result<Vertex>
    requires ReadersShaped(rs)
  {
    var pos :- ReadPosition(rs.pos, i, f32);
    var normal :- NormalOf(rs.nrm, i, f32);
    var uv :- UvOf(rs.uv, i, f32);
    var tangent :- TangentOf(rs.tangent, i, f32);
    var color :- ColorOf(rs.color, i, f32);
    var _ :- JointsOf(rs.joints, i);
    var weight :- WeightsOf(rs.weights, i, f32);
    Ok(DefaultVertex.(pos := pos, normal := normal, uv := uv, tangent := tangent,
                      color := color, weight := weight))
  }

  /** The vertex loop over vertices 0 .. n-1: the vertices, or the first failed assert. */
  function PackVertices(rs: Readers, n: nat, f32: F32Decode): (r: Result<seq<Vertex>>)
    requires ReadersShaped(rs)
    ensures r.Ok? ==> |r.value| == n && forall j :: 0 <= j < n ==> PackVertex(rs, j, f32) == Ok(r.value[j])
  {
    if n == 0 then Ok([])
    else
      var vs :- PackVertices(rs, n - 1, f32);
      var v :- PackVertex(rs, n - 1, f32);
      Ok(vs + [v])
  }

  /** The vertex loop fails exactly when some vertex fails, and then with the
      fault of the first vertex that fails. */
  lemma {:induction false} PackVerticesFailure(rs: Readers, n: nat, f32: F32Decode)
    requires ReadersShaped(rs)
    ensures PackVertices(rs, n, f32).Ok? <==> forall j :: 0 <= j < n ==> PackVertex(rs, j, f32).Ok?
    ensures PackVertices(rs, n, f32).Fail? ==>
      exists j :: 0 <= j < n && (forall i :: 0 <= i < j ==> PackVertex(rs, i, f32).Ok?)
                  && PackVertex(rs, j, f32).Fail? && PackVertices(rs, n, f32).fault == PackVertex(rs, j, f32).fault
  {
    if n > 0 {
      PackVerticesFailure(rs, n - 1, f32);
      if PackVertices(rs, n - 1, f32).Ok? && PackVertex(rs, n - 1, f32).Fail? {
        assert forall i :: 0 <= i < n - 1 ==> PackVertex(rs, i, f32).Ok?;
      }
    }
  }

  lemma {:induction false} PackVerticesFailureSticks(rs: Readers, k: nat, n: nat, f32: F32Decode)
    requires ReadersShaped(rs) && k <= n && PackVertices(rs, k, f32).Fail?
    ensures PackVertices(rs, n, f32) == PackVertices(rs, k, f32)
  {
    if k < n {
      PackVerticesFailureSticks(rs, k, n - 1, f32);
    }
  }

  /** A reader of indices of the width the descriptor chose. */
  predicate IndexReaderOk(ir: BufferReader, is16: bool) {
    && ir.IsValid() && ir.Fits() && ir.atype == Scalar
    && ir.componentType == (if is16 then U16 else U32)
  }

  /** `ind.getByIndex<uint16_t>(k)` or `ind.getByIndex<uint32_t>(k)`. */
  function IndexAt(ir: BufferReader, k: nat, is16: bool): nat
    requires IndexReaderOk(ir, is16) && k < ir.count
  {
    if is16 then ReadU16(ir, k, 0).value else ReadU32(ir, k, 0).value
  }

  /** The faces the triangle loop of lines 350-356 / 362-368 appends for
      `n` triangles: every corner of face t reads index slot 3 * t. */
  function Faces(ir: BufferReader, n: nat, is16: bool): (fs: seq<Face>)
    requires IndexReaderOk(ir, is16) && 3 * n <= ir.count
  {
    seq(n, t requires 0 <= t < n => Face(IndexAt(ir, 3 * t, is16), IndexAt(ir, 3 * t, is16), IndexAt(ir, 3 * t, is16)))
  }

  /** The index accessor of a descriptor: the 16-bit one when set, else the 32-bit one. */
  function IndexField(d: DrawCallDesc): Option<Accessor> {
    if d.ind16.Some? then d.ind16 else d.ind32
  }

  /** What loadMesh relies on in a descriptor the resolver accepted. */
  predicate DescReady(d: DrawCallDesc) {
    && (d.ind16.Some? != d.ind32.Some?)
    && var ia := IndexField(d).value;
    && ia.atype == Scalar
    && ia.componentType == (if d.ind16.Some? then U16 else U32)
    && ia.count == d.numIndices == 3 * d.numTris
    && AccessorFits(ia)
    && d.pos.Some?
    && DescShaped(d)
    && AttrDescFits(d)
  }

  lemma AcceptedDescReady(p: Primitive)
    requires PrimitiveFits(p) && DrawcallDescOf(p).Ok? && DrawcallDescOf(p).value.Some?
    ensures DescReady(DrawcallDescOf(p).value.value)
  {
  }

  /** Lines 345-369: the faces read through the reader of the index accessor. */
  function IndexFaces(d: DrawCallDesc): Result<seq<Face>>
    requires DescReady(d)
  {
    var ir :- GetBufferReader(IndexField(d));
    Ok(Faces(ir, d.numTris, d.ind16.Some?))
  }

  /** Lines 345-485 for an accepted descriptor: faces, readers, flags, vertices. */
  function AppendPrimitive(s: MeshState, d: DrawCallDesc, f32: F32Decode): Result<MeshState>
    requires DescReady(d)
  {
    var faces :- IndexFaces(d);
    var rs :- GetReaders(d);
    var vs :- PackVertices(rs, d.numVertices, f32);
    Ok(MeshState(s.vertices + vs, s.faces + faces, FlagsOf(rs)))
  }

  /** One iteration of the primitive loop (lines 338-486) applied to `s`. */
  function LoadPrimitive(s: MeshState, p: Primitive, f32: F32Decode): Result<MeshState>
    requires PrimitiveFits(p)
  {
    var od :- DrawcallDescOf(p);
    if od.None? then Ok(s)
    else
      AcceptedDescReady(p);
      AppendPrimitive(s, od.value, f32)
  }

  predicate AllFit(prims: seq<Primitive>) {
    forall i :: 0 <= i < |prims| ==> PrimitiveFits(prims[i])
  }

  /** The primitive loop over `prims` from `s`. */
  function LoadPrimitives(s: MeshState, prims: seq<Primitive>, f32: F32Decode): Result<MeshState>
    requires AllFit(prims)
  {
    if |prims| == 0 then Ok(s)
    else
      var s' :- LoadPrimitives(s, prims[..|prims| - 1], f32);
      LoadPrimitive(s', prims[|prims| - 1], f32)
  }

  lemma {:induction false} LoadPrimitivesFailureSticks(s: MeshState, prims: seq<Primitive>, k: nat, f32: F32Decode)
    requires AllFit(prims) && k <= |prims| && LoadPrimitives(s, prims[..k], f32).Fail?
    ensures LoadPrimitives(s, prims, f32) == LoadPrimitives(s, prims[..k], f32)
  {
    if k < |prims| {
      assert prims[..|prims| - 1][..k] == prims[..k];
      LoadPrimitivesFailureSticks(s, prims[..|prims| - 1], k, f32);
    } else {
      assert prims[..k] == prims;
    }
  }

  /** The primitive loop runs one primitive more. */
  lemma LoadPrimitivesSnoc(s: MeshState, prims: seq<Primitive>, k: nat, mid: MeshState, f32: F32Decode)
    requires AllFit(prims) && k < |prims| && LoadPrimitives(s, prims[..k], f32) == Ok(mid)
    ensures AllFit(prims[..k + 1]) && PrimitiveFits(prims[k])
    ensures LoadPrimitives(s, prims[..k + 1], f32) == LoadPrimitive(mid, prims[k], f32)
  {
    assert prims[..k + 1][..k] == prims[..k];
  }

  /** The triangle loop of lines 350-356 / 362-368: append `n` faces read from `ind`. */
  method AppendFaces(ind: BufferReader, n: nat, is16: bool, res: MeshData)
    requires IndexReaderOk(ind, is16) && 3 * n <= ind.count
    modifies res
    ensures res.State() == old(res.State()).(faces := old(res.faces) + Faces(ind, n, is16))
  {
    ghost var faces0 := res.faces;
    for triIndex := 0 to n
      invariant res.State() == old(res.State()).(faces := faces0 + Faces(ind, triIndex, is16))
    {
      var a := IndexAt(ind, triIndex * 3 + 0, is16);
      var b := IndexAt(ind, triIndex * 3 + 0, is16);
      var c := IndexAt(ind, triIndex * 3 + 0, is16);
      res.faces := res.faces + [Face(a, b, c)];
      assert Faces(ind, triIndex + 1, is16) == Faces(ind, triIndex, is16) + [Face(a, b, c)];
    }
  }

  /** The vertex loop of lines 386-485: append `n` packed vertices, or stop at
      the first failed assert. */
  method AppendVertices(rs: Readers, n: nat, res: MeshData, f32: F32Decode) returns (status: Result<()>)
    requires ReadersShaped(rs)
    modifies res
    ensures var spec := PackVertices(rs, n, f32);
      && (status.Ok? <==> spec.Ok?)
      && (status.Ok? ==> res.State() == old(res.State()).(vertices := old(res.vertices) + spec.value))
      && (status.Fail? ==> status.fault == spec.fault)
  {
    ghost var vs: seq<Vertex> := [];
    for vIndex := 0 to n
      invariant PackVertices(rs, vIndex, f32) == Ok(vs)
      invariant res.State() == old(res.State()).(vertices := old(res.vertices) + vs)
    {
      if PackVertices(rs, vIndex + 1, f32).Fail? {
        PackVerticesFailureSticks(rs, vIndex + 1, n, f32);
      }
      var v :- PackVertex(rs, vIndex, f32);
      res.vertices := res.vertices + [v];
      vs := vs + [v];
    }
    return Ok(());
  }

  /** Lines 345-369 on `res`: read the index accessor and append its faces. */
  method AppendIndexFaces(d: DrawCallDesc, res: MeshData) returns (status: Result<()>)
    requires DescReady(d)
    modifies res
    ensures status.Ok? <==> IndexFaces(d).Ok?
    ensures status.Ok? ==> res.State() == old(res.State()).(faces := old(res.faces) + IndexFaces(d).value)
    ensures status.Fail? ==> status.fault == IndexFaces(d).fault
  {
    var is16 := d.ind16.Some?;
    var ind :- GetBufferReader(IndexField(d));
    AppendFaces(ind, d.numTris, is16, res);
    return Ok(());
  }

  /** Lines 380-384: the capability flags, overwritten from this primitive's readers. */
  method SetFlags(rs: Readers, res: MeshData)
    modifies res
    ensures res.State() == old(res.State()).(flags := FlagsOf(rs))
  {
    res.hasNormals := rs.nrm.IsValid();
    res.hasUVs := rs.uv.IsValid();
    res.hasTangents := rs.tangent.IsValid();
    res.hasColors := rs.color.IsValid();
    res.hasSkinWeights := rs.weights.IsValid() && rs.joints.IsValid();
  }

  /** Lines 345-485 on `res` for an accepted descriptor. */
  method AppendPrimitiveInto(d: DrawCallDesc, res: MeshData, f32: F32Decode) returns (status: Result<()>)
    requires DescReady(d)
    modifies res
    ensures var spec := AppendPrimitive(old(res.State()), d, f32);
      && (status.Ok? <==> spec.Ok?)
      && (status.Ok? ==> res.State() == spec.value)
      && (status.Fail? ==> status.fault == spec.fault)
  {
    var _ :- AppendIndexFaces(d, res);
    var rs :- GetReaders(d);

    SetFlags(rs, res);
    status := AppendVertices(rs, d.numVertices, res, f32);
  }

  /** One iteration of the primitive loop (lines 338-486) on `res`. */
  method LoadPrimitiveInto(dc: Primitive, res: MeshData, f32: F32Decode) returns (status: Result<()>)
    requires PrimitiveFits(dc)
    modifies res
    ensures var spec := LoadPrimitive(old(res.State()), dc, f32);
      && (status.Ok? <==> spec.Ok?)
      && (status.Ok? ==> res.State() == spec.value)
      && (status.Fail? ==> status.fault == spec.fault)
  {
    var desc :- GetDrawcallDesc(dc);
    if desc.None? {
      return Ok(());
    }
    AcceptedDescReady(dc);
    status := AppendPrimitiveInto(desc.value, res, f32);
  }

  /** loadMesh: run every primitive of `mesh` into `res`. On success `res`
      holds what LoadPrimitives computes from its old contents; a failed
      assert is reported as the same fault. */
  method LoadMesh(mesh: Mesh, res: MeshData, f32: F32Decode) returns (status: Result<()>)
    requires MeshFits(mesh)
    modifies res
    ensures var spec := LoadPrimitives(old(res.State()), mesh.primitives, f32);
      && (status.Ok? <==> spec.Ok?)
      && (status.Ok? ==> res.State() == spec.value)
      && (status.Fail? ==> status.fault == spec.fault)
  {
    ghost var s0 := res.State();
    var numDrawCalls := |mesh.primitives|;
    for dcIndex := 0 to numDrawCalls
      invariant LoadPrimitives(s0, mesh.primitives[..dcIndex], f32) == Ok(res.State())
    {
      LoadPrimitivesSnoc(s0, mesh.primitives, dcIndex, res.State(), f32);
      var step := LoadPrimitiveInto(mesh.primitives[dcIndex], res, f32);
      if step.Fail? {
        LoadPrimitivesFailureSticks(s0, mesh.primitives, dcIndex + 1, f32);
        return step;
      }
    }
    assert mesh.primitives[..numDrawCalls] == mesh.primitives;
    return Ok(());
  }

  /** The flags an accepted descriptor gives its mesh. */
  function DescFlags(d: DrawCallDesc): Flags {
    Flags(d.nrm.Some?, d.uv.Some?, d.tangent.Some?, d.color.Some?, d.skinWgt.Some? && d.skinInd.Some?)
  }

  /** What one accepted primitive appends, in terms of its descriptor's accessors. */
  lemma AppendPrimitiveShape(s: MeshState, d: DrawCallDesc, f32: F32Decode)
    requires DescReady(d) && AppendPrimitive(s, d, f32).Ok?
    ensures var r := AppendPrimitive(s, d, f32).value;
      var ia := IndexField(d).value;
      && BytesOf(ia).Some? && 3 * d.numTris <= ia.count
      && |r.faces| == |s.faces| + d.numTris
      && r.faces[..|s.faces|] == s.faces
      && (forall t :: 0 <= t < |r.faces[|s.faces|..]| ==>
            var x := IndexValueOf(ia, 3 * t); r.faces[|s.faces|..][t] == Face(x, x, x))
      && GetReaders(d).Ok?
      && |r.vertices| == |s.vertices| + d.numVertices
      && r.vertices[..|s.vertices|] == s.vertices
      && (forall j :: 0 <= j < |r.vertices[|s.vertices|..]| ==>
            PackVertex(GetReaders(d).value, j, f32) == Ok(r.vertices[|s.vertices|..][j]))
      && r.flags == DescFlags(d)
  {
    var ia := IndexField(d).value;
    var is16 := d.ind16.Some?;
    var ir := GetBufferReader(IndexField(d)).value;
    var r := AppendPrimitive(s, d, f32).value;
    var fs := Faces(ir, d.numTris, is16);
    assert IndexFaces(d) == Ok(fs);
    assert r.faces[|s.faces|..] == fs;
    forall t | 0 <= t < d.numTris
      ensures var x := IndexValueOf(ia, 3 * t); fs[t] == Face(x, x, x)
    {
      ReadIndexMatchesAccessor(ia, 3 * t);
    }
    assert r.vertices[|s.vertices|..] == PackVertices(GetReaders(d).value, d.numVertices, f32).value;
  }

  /** A primitive the resolver rejects leaves the mesh as it was. */
  lemma RejectedPrimitiveSkipped(s: MeshState, p: Primitive, f32: F32Decode)
    requires PrimitiveFits(p) && DrawcallDescOf(p) == Ok(None)
    ensures LoadPrimitive(s, p, f32) == Ok(s)
  {
  }

  /** The face quirk: face t of an accepted primitive repeats index slot 3 * t
      in all three corners, and the index is the accessor's value as stored,
      not offset by the vertices already in the mesh. */
  lemma FacesRepeatFirstCorner(s: MeshState, p: Primitive, f32: F32Decode)
    requires PrimitiveFits(p) && DrawcallDescOf(p).Ok? && DrawcallDescOf(p).value.Some?
    requires LoadPrimitive(s, p, f32).Ok?
    ensures var d := DrawcallDescOf(p).value.value;
      var r := LoadPrimitive(s, p, f32).value;
      var ia := p.indices.value;
      && BytesOf(ia).Some? && ia.count == 3 * d.numTris
      && |r.faces| == |s.faces| + d.numTris
      && r.faces[..|s.faces|] == s.faces
      && forall t :: 0 <= t < |r.faces[|s.faces|..]| ==>
           var x := IndexValueOf(ia, 3 * t); r.faces[|s.faces|..][t] == Face(x, x, x)
  {
    var d := DrawcallDescOf(p).value.value;
    AcceptedDescReady(p);
    AppendPrimitiveShape(s, d, f32);
  }

  /** `x` holds the first three components of element `j` of float32 accessor `a`, as stored. */
  predicate StoredFloat3(a: Accessor, j: nat, f32: F32Decode, x: Float3) {
    && BytesOf(a).Some? && j < a.count && AccessorFits(a)
    && a.componentType == F32 && NumComponents(a.atype) >= 3
    && x == Float3(F32Of(a, j, 0, f32), F32Of(a, j, 1, f32), F32Of(a, j, 2, f32))
  }

  /** `x` holds the first two components of element `j` of float32 accessor `a`, as stored. */
  predicate StoredFloat2(a: Accessor, j: nat, f32: F32Decode, x: Float2) {
    && BytesOf(a).Some? && j < a.count && AccessorFits(a)
    && a.componentType == F32 && NumComponents(a.atype) >= 2
    && x == Float2(F32Of(a, j, 0, f32), F32Of(a, j, 1, f32))
  }

  /** `t` is element `j` of float32 vec4 accessor `a` packed with PackNormUint8,
      and the stored sign passed the handedness check. */
  predicate StoredTangent(a: Accessor, j: nat, f32: F32Decode, t: Byte4) {
    && BytesOf(a).Some? && j < a.count && AccessorFits(a)
    && a.componentType == F32 && NumComponents(a.atype) >= 4
    && HandednessOk(F32Of(a, j, 3, f32))
    && t == Byte4(PackNormUint8(F32Of(a, j, 0, f32)), PackNormUint8(F32Of(a, j, 1, f32)),
                  PackNormUint8(F32Of(a, j, 2, f32)), PackNormUint8(F32Of(a, j, 3, f32)))
  }

  /** `t` is element `j` of accessor `a` packed with `(uint8_t)(x * 255 + 0.5)`
      on each stored component, every one inside the cast's range; a vec3 has
      alpha 1.0, which packs to 255. */
  predicate StoredUnorm4(a: Accessor, j: nat, f32: F32Decode, t: Byte4) {
    && BytesOf(a).Some? && j < a.count && AccessorFits(a)
    && FloatReadable(a) && (a.atype == Vec3 || a.atype == Vec4)
    && UnormConvertible(StoredFloat(a, j, 0, f32)) && t.x == PackUnorm(StoredFloat(a, j, 0, f32))
    && UnormConvertible(StoredFloat(a, j, 1, f32)) && t.y == PackUnorm(StoredFloat(a, j, 1, f32))
    && UnormConvertible(StoredFloat(a, j, 2, f32)) && t.z == PackUnorm(StoredFloat(a, j, 2, f32))
    && (if a.atype == Vec4 then UnormConvertible(StoredFloat(a, j, 3, f32)) && t.w == PackUnorm(StoredFloat(a, j, 3, f32))
        else t.w == 255)
  }

  /** Where each field of a packed vertex comes from: its reader when valid,
      the default otherwise; the joints are never stored. */
  lemma PackVertexParts(rs: Readers, i: nat, f32: F32Decode)
    requires ReadersShaped(rs) && PackVertex(rs, i, f32).Ok?
    ensures var v := PackVertex(rs, i, f32).value;
      && ReadPosition(rs.pos, i, f32) == Ok(v.pos)
      && (if rs.nrm.IsValid() then ReadFloat3(rs.nrm, i, f32) == Ok(v.normal) else v.normal == Float3(0.0, 0.0, 1.0))
      && (if rs.uv.IsValid() then ReadFloat2(rs.uv, i, f32) == Ok(v.uv) else v.uv == Float2(0.0, 0.0))
      && (if rs.tangent.IsValid() then PackTangent(rs.tangent, i, f32) == Ok(v.tangent) else v.tangent == ZeroByte4)
      && (if rs.color.IsValid() then PackColor(rs.color, i, f32) == Ok(v.color) else v.color == ZeroByte4)
      && (if rs.weights.IsValid() then PackWeights(rs.weights, i, f32) == Ok(v.weight) else v.weight == ZeroByte4)
      && (rs.joints.IsValid() ==> ReadJoints(rs.joints, i).Ok?)
      && v.joint == ZeroByte4
  {
  }

  /** A position read through the reader of a float32 vec3 accessor is the accessor's stored value. */
  lemma PositionFromAccessor(a: Accessor, j: nat, f32: F32Decode)
    requires GetBufferReader(Some(a)).Ok? && AccessorFits(a) && IsFloatVec(a, Vec3)
    requires ReadPosition(GetBufferReader(Some(a)).value, j, f32).Ok?
    ensures StoredFloat3(a, j, f32, ReadPosition(GetBufferReader(Some(a)).value, j, f32).value)
  {
    ReadFloatMatchesAccessor(a, j, 0, f32);
    ReadFloatMatchesAccessor(a, j, 1, f32);
    ReadFloatMatchesAccessor(a, j, 2, f32);
  }

  /** Three floats read through the reader of a float32 accessor are its stored values. */
  lemma Float3FromAccessor(a: Accessor, j: nat, f32: F32Decode)
    requires GetBufferReader(Some(a)).Ok? && AccessorFits(a) && IsFloatVec(a, Vec3)
    requires ReadFloat3(GetBufferReader(Some(a)).value, j, f32).Ok?
    ensures StoredFloat3(a, j, f32, ReadFloat3(GetBufferReader(Some(a)).value, j, f32).value)
  {
    ReadFloatMatchesAccessor(a, j, 0, f32);
    ReadFloatMatchesAccessor(a, j, 1, f32);
    ReadFloatMatchesAccessor(a, j, 2, f32);
  }

  /** Two floats read through the reader of a float32 accessor are its stored values. */
  lemma Float2FromAccessor(a: Accessor, j: nat, f32: F32Decode)
    requires GetBufferReader(Some(a)).Ok? && AccessorFits(a) && IsFloatVec(a, Vec2)
    requires ReadFloat2(GetBufferReader(Some(a)).value, j, f32).Ok?
    ensures StoredFloat2(a, j, f32, ReadFloat2(GetBufferReader(Some(a)).value, j, f32).value)
  {
    ReadFloatMatchesAccessor(a, j, 0, f32);
    ReadFloatMatchesAccessor(a, j, 1, f32);
  }

  /** A packed tangent of a float32 vec4 accessor: the stored sign passed the
      handedness check, and each stored component is packed with PackNormUint8. */
  lemma TangentFromAccessor(a: Accessor, j: nat, f32: F32Decode)
    requires GetBufferReader(Some(a)).Ok? && AccessorFits(a) && IsFloatVec(a, Vec4)
    requires PackTangent(GetBufferReader(Some(a)).value, j, f32).Ok?
    ensures StoredTangent(a, j, f32, PackTangent(GetBufferReader(Some(a)).value, j, f32).value)
  {
    ReadFloatMatchesAccessor(a, j, 0, f32);
    ReadFloatMatchesAccessor(a, j, 1, f32);
    ReadFloatMatchesAccessor(a, j, 2, f32);
    ReadFloatMatchesAccessor(a, j, 3, f32);
  }

  /** A packed colour of a vec3 or vec4 accessor is its stored components
      packed with `(uint8_t)(x * 255 + 0.5)`, alpha 255 for a vec3; a
      normalized 8- or 16-bit colour never leaves the cast's range. */
  lemma ColorFromAccessor(a: Accessor, j: nat, f32: F32Decode)
    requires GetBufferReader(Some(a)).Ok? && AccessorFits(a) && (a.atype == Vec3 || a.atype == Vec4)
    ensures j < a.count && (a.componentType == U8 || a.componentType == U16) && a.normalized ==>
      PackColor(GetBufferReader(Some(a)).value, j, f32).Ok?
    ensures PackColor(GetBufferReader(Some(a)).value, j, f32).Ok? ==>
      StoredUnorm4(a, j, f32, PackColor(GetBufferReader(Some(a)).value, j, f32).value)
  {
    if j < a.count && FloatReadable(a) {
      ReadStoredFloat(a, j, 0, f32);
      ReadStoredFloat(a, j, 1, f32);
      ReadStoredFloat(a, j, 2, f32);
      if a.atype == Vec4 {
        ReadStoredFloat(a, j, 3, f32);
      }
      if a.componentType != F32 {
        PackUnormNearest(StoredFloat(a, j, 0, f32));
        PackUnormNearest(StoredFloat(a, j, 1, f32));
        PackUnormNearest(StoredFloat(a, j, 2, f32));
        if a.atype == Vec4 {
          PackUnormNearest(StoredFloat(a, j, 3, f32));
        }
      }
    }
    PackUnormNearest(1.0);
  }

  /** Packed weights of a vec4 accessor are its stored components packed with
      `(uint8_t)(x * 255 + 0.5)`; normalized 8- or 16-bit weights never leave
      the cast's range. */
  lemma WeightsFromAccessor(a: Accessor, j: nat, f32: F32Decode)
    requires GetBufferReader(Some(a)).Ok? && AccessorFits(a) && a.atype == Vec4
    ensures j < a.count && (a.componentType == U8 || a.componentType == U16) && a.normalized ==>
      PackWeights(GetBufferReader(Some(a)).value, j, f32).Ok?
    ensures PackWeights(GetBufferReader(Some(a)).value, j, f32).Ok? ==>
      StoredUnorm4(a, j, f32, PackWeights(GetBufferReader(Some(a)).value, j, f32).value)
  {
    if j < a.count && FloatReadable(a) {
      ReadStoredFloat(a, j, 0, f32);
      ReadStoredFloat(a, j, 1, f32);
      ReadStoredFloat(a, j, 2, f32);
      ReadStoredFloat(a, j, 3, f32);
      if a.componentType != F32 {
        PackUnormNearest(StoredFloat(a, j, 0, f32));
        PackUnormNearest(StoredFloat(a, j, 1, f32));
        PackUnormNearest(StoredFloat(a, j, 2, f32));
        PackUnormNearest(StoredFloat(a, j, 3, f32));
      }
    }
  }

  /** A normalized 8-bit colour is copied byte for byte: reading c / 255 and
      packing with `x * 255 + 0.5` returns c. */
  lemma ColorBytesCopied(a: Accessor, j: nat, f32: F32Decode)
    requires GetBufferReader(Some(a)).Ok? && AccessorFits(a)
    requires a.atype == Vec4 && a.componentType == U8 && a.normalized
    requires j < a.count
    ensures BytesOf(a).Some?
    ensures PackColor(GetBufferReader(Some(a)).value, j, f32) ==
      Ok(Byte4(AccessorByte(a, j, 0), AccessorByte(a, j, 1), AccessorByte(a, j, 2), AccessorByte(a, j, 3)))
  {
    ColorFromAccessor(a, j, f32);
    PackUnormByteRoundTrip(AccessorByte(a, j, 0));
    PackUnormByteRoundTrip(AccessorByte(a, j, 1));
    PackUnormByteRoundTrip(AccessorByte(a, j, 2));
    PackUnormByteRoundTrip(AccessorByte(a, j, 3));
  }

  /** The float fields of a packed vertex: position, normal and uv copied from
      their accessors, the tangent packed after the sign check, and the
      defaults when absent. */
  lemma PackedVertexFloats(d: DrawCallDesc, rs: Readers, j: nat, f32: F32Decode)
    requires DescReady(d) && GetReaders(d) == Ok(rs) && PackVertex(rs, j, f32).Ok?
    ensures var v := PackVertex(rs, j, f32).value;
      && StoredFloat3(d.pos.value, j, f32, v.pos)
      && (if d.nrm.Some? then StoredFloat3(d.nrm.value, j, f32, v.normal) else v.normal == Float3(0.0, 0.0, 1.0))
      && (if d.uv.Some? then StoredFloat2(d.uv.value, j, f32, v.uv) else v.uv == Float2(0.0, 0.0))
      && (if d.tangent.Some? then StoredTangent(d.tangent.value, j, f32, v.tangent) else v.tangent == ZeroByte4)
  {
    PackVertexParts(rs, j, f32);
    PositionFromAccessor(d.pos.value, j, f32);
    if d.nrm.Some? {
      Float3FromAccessor(d.nrm.value, j, f32);
    }
    if d.uv.Some? {
      Float2FromAccessor(d.uv.value, j, f32);
    }
    if d.tangent.Some? {
      TangentFromAccessor(d.tangent.value, j, f32);
    }
  }

  /** The byte fields of a packed vertex: colour and weights packed from their
      stored components (alpha 255 for a vec3 colour), zero when absent; the
      joints are never stored. */
  lemma PackedVertexUnorms(d: DrawCallDesc, rs: Readers, j: nat, f32: F32Decode)
    requires DescReady(d) && GetReaders(d) == Ok(rs) && PackVertex(rs, j, f32).Ok?
    ensures var v := PackVertex(rs, j, f32).value;
      && (if d.color.Some? then StoredUnorm4(d.color.value, j, f32, v.color) else v.color == ZeroByte4)
      && (if d.skinWgt.Some? then StoredUnorm4(d.skinWgt.value, j, f32, v.weight) else v.weight == ZeroByte4)
      && v.joint == ZeroByte4
  {
    PackVertexParts(rs, j, f32);
    if d.color.Some? {
      ColorFromAccessor(d.color.value, j, f32);
    }
    if d.skinWgt.Some? {
      WeightsFromAccessor(d.skinWgt.value, j, f32);
    }
  }

  /** The fields of a vertex the packer builds from accessors of the shapes the
      resolver admits: positions, normals and uvs copied, tangents packed after
      the sign check, colours and weights packed from their stored components,
      absent attributes at their defaults, joints never stored. */
  lemma PackedVertexFields(d: DrawCallDesc, rs: Readers, j: nat, f32: F32Decode)
    requires DescReady(d) && GetReaders(d) == Ok(rs) && PackVertex(rs, j, f32).Ok?
    ensures var v := PackVertex(rs, j, f32).value;
      && StoredFloat3(d.pos.value, j, f32, v.pos)
      && (if d.nrm.Some? then StoredFloat3(d.nrm.value, j, f32, v.normal) else v.normal == Float3(0.0, 0.0, 1.0))
      && (if d.uv.Some? then StoredFloat2(d.uv.value, j, f32, v.uv) else v.uv == Float2(0.0, 0.0))
      && (if d.tangent.Some? then StoredTangent(d.tangent.value, j, f32, v.tangent) else v.tangent == ZeroByte4)
      && (if d.color.Some? then StoredUnorm4(d.color.value, j, f32, v.color) else v.color == ZeroByte4)
      && (if d.skinWgt.Some? then StoredUnorm4(d.skinWgt.value, j, f32, v.weight) else v.weight == ZeroByte4)
      && v.joint == ZeroByte4
  {
    PackedVertexFloats(d, rs, j, f32);
    PackedVertexUnorms(d, rs, j, f32);
  }

  /** The flags of the last primitive in `prims` the resolver accepts, or `fallback`. */
  function LastAcceptedFlags(prims: seq<Primitive>, fallback: Flags): Flags {
    if |prims| == 0 then fallback
    else
      var dd := DrawcallDescOf(prims[|prims| - 1]);
      if dd.Ok? && dd.value.Some? then DescFlags(dd.value.value)
      else LastAcceptedFlags(prims[..|prims| - 1], fallback)
  }

  /** Vertices the accepted primitives of `prims` contribute. */
  function AcceptedVertices(prims: seq<Primitive>): nat {
    if |prims| == 0 then 0
    else
      var dd := DrawcallDescOf(prims[|prims| - 1]);
      AcceptedVertices(prims[..|prims| - 1]) + (if dd.Ok? && dd.value.Some? then dd.value.value.numVertices else 0)
  }

  /** Triangles the accepted primitives of `prims` contribute. */
  function AcceptedTris(prims: seq<Primitive>): nat {
    if |prims| == 0 then 0
    else
      var dd := DrawcallDescOf(prims[|prims| - 1]);
      AcceptedTris(prims[..|prims| - 1]) + (if dd.Ok? && dd.value.Some? then dd.value.value.numTris else 0)
  }

  /** One step of the primitive loop: what a primitive that loads does to the state. */
  lemma LoadPrimitiveStep(s: MeshState, p: Primitive, f32: F32Decode)
    requires PrimitiveFits(p) && LoadPrimitive(s, p, f32).Ok?
    ensures var r := LoadPrimitive(s, p, f32).value;
      var dd := DrawcallDescOf(p);
      && dd.Ok?
      && r.vertices[..|s.vertices|] == s.vertices
      && r.faces[..|s.faces|] == s.faces
      && (dd.value.None? ==> r == s)
      && (dd.value.Some? ==>
            && |r.vertices| == |s.vertices| + dd.value.value.numVertices
            && |r.faces| == |s.faces| + dd.value.value.numTris
            && r.flags == DescFlags(dd.value.value))
  {
    var dd := DrawcallDescOf(p);
    if dd.value.Some? {
      AcceptedDescReady(p);
      AppendPrimitiveShape(s, dd.value.value, f32);
    }
  }

  /** Over a whole mesh: the old contents stay as a prefix, every accepted
      primitive adds its vertices and triangles, and the flags are those of the
      last accepted primitive (each overwrites the previous one's). */
  lemma {:induction false} MeshTotals(s: MeshState, prims: seq<Primitive>, f32: F32Decode)
    requires AllFit(prims) && LoadPrimitives(s, prims, f32).Ok?
    ensures var r := LoadPrimitives(s, prims, f32).value;
      && |r.vertices| == |s.vertices| + AcceptedVertices(prims)
      && |r.faces| == |s.faces| + AcceptedTris(prims)
      && r.vertices[..|s.vertices|] == s.vertices
      && r.faces[..|s.faces|] == s.faces
      && r.flags == LastAcceptedFlags(prims, s.flags)
  {
    if |prims| > 0 {
      var init, last := prims[..|prims| - 1], prims[|prims| - 1];
      assert AllFit(init);
      var mid := LoadPrimitives(s, init, f32).value;
      assert LoadPrimitives(s, prims, f32) == LoadPrimitive(mid, last, f32);
      MeshTotals(s, init, f32);
      LoadPrimitiveStep(mid, last, f32);
      var r := LoadPrimitives(s, prims, f32).value;
      assert r.vertices[..|s.vertices|] == r.vertices[..|mid.vertices|][..|s.vertices|];
      assert r.faces[..|s.faces|] == r.faces[..|mid.faces|][..|s.faces|];
    }
  }

  /** No rebasing: loading the same accepted primitive twice gives a second
      run of faces identical to the first, so they index the first copy's
      vertices rather than the second's. */
  lemma RepeatedPrimitiveNotRebased(p: Primitive, f32: F32Decode)
    requires PrimitiveFits(p) && DrawcallDescOf(p).Ok? && DrawcallDescOf(p).value.Some?
    requires LoadPrimitives(EmptyMesh, [p, p], f32).Ok?
    ensures var d := DrawcallDescOf(p).value.value;
      var r := LoadPrimitives(EmptyMesh, [p, p], f32).value;
      && |r.vertices| == 2 * d.numVertices
      && |r.faces| == 2 * d.numTris
      && r.faces[d.numTris..] == r.faces[..d.numTris]
  {
    var d := DrawcallDescOf(p).value.value;
    assert [p, p][..1] == [p];
    assert [p][..0] == [];
    var first := LoadPrimitive(EmptyMesh, p, f32).value;
    FacesRepeatFirstCorner(EmptyMesh, p, f32);
    LoadPrimitiveStep(EmptyMesh, p, f32);
    var r := LoadPrimitive(first, p, f32).value;
    FacesRepeatFirstCorner(first, p, f32);
    LoadPrimitiveStep(first, p, f32);
    assert LoadPrimitives(EmptyMesh, [p][..0], f32) == Ok(EmptyMesh);
    assert LoadPrimitives(EmptyMesh, [p], f32) == Ok(first);
    assert LoadPrimitives(EmptyMesh, [p, p], f32) == LoadPrimitive(first, p, f32);
    assert r.faces[..d.numTris] == first.faces;
    assert first.faces[0..] == first.faces;
  }
}
