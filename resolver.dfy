/**
  The primitive descriptor resolver, getDrawcallDesc
  (src/gltf_loader.cpp:90-107, 181-301). It rejects a primitive it cannot
  draw, or returns the accessors to read indices and each vertex attribute from.
 */
module Resolver {
  import opened Base
  import opened Document

  datatype DrawCallDesc = DrawCallDesc(
    numVertices: nat,
    numIndices: nat,
    numTris: nat,
    ind16: Option<Accessor>,
    ind32: Option<Accessor>,
    pos: Option<Accessor>,
    nrm: Option<Accessor>,
    uv: Option<Accessor>,
    tangent: Option<Accessor>,
    color: Option<Accessor>,
    skinWgt: Option<Accessor>,
    skinInd: Option<Accessor>)

  /** A default-constructed descriptor. */
  const EmptyDesc := DrawCallDesc(0, 0, 0, None, None, None, None, None, None, None, None, None)

  predicate IsFloatVec(a: Accessor, t: AccessorType) {
    a.atype == t && a.componentType == F32
  }

  /** Whether the attribute switch stores this attribute's accessor. */
  predicate Accepts(attr: Attribute) {
    && attr.data.Some?
    && var a := attr.data.value;
       match attr.semantic
       case Position => IsFloatVec(a, Vec3)
       case Normal => IsFloatVec(a, Vec3)
       case Tangent => IsFloatVec(a, Vec4)
       case Texcoord => attr.index == 0 && IsFloatVec(a, Vec2)
       case Color => attr.index == 0 && (a.atype == Vec3 || a.atype == Vec4)
       case Joints => attr.index == 0 && a.atype == Vec4
       case Weights => attr.index == 0 && a.atype == Vec4
       case _ => false
  }

  /** The descriptor field an attribute semantic is stored in. */
  function AttrField(d: DrawCallDesc, sem: Semantic): Option<Accessor> {
    match sem
    case Position => d.pos
    case Normal => d.nrm
    case Tangent => d.tangent
    case Texcoord => d.uv
    case Color => d.color
    case Joints => d.skinInd
    case Weights => d.skinWgt
    case _ => None
  }

  /** The counts and index accessors of two descriptors agree. */
  predicate SameHeader(d: DrawCallDesc, e: DrawCallDesc) {
    && d.numVertices == e.numVertices && d.numIndices == e.numIndices && d.numTris == e.numTris
    && d.ind16 == e.ind16 && d.ind32 == e.ind32
  }

  /** `d` with the field of `sem` set to `a`. */
  function Store(d: DrawCallDesc, sem: Semantic, a: Accessor): (r: DrawCallDesc)
    requires sem !in {InvalidSemantic, Custom}
    ensures AttrField(r, sem) == Some(a)
    ensures forall s :: s != sem ==> AttrField(r, s) == AttrField(d, s)
    ensures SameHeader(r, d)
  {
    match sem
    case Position => d.(pos := Some(a))
    case Normal => d.(nrm := Some(a))
    case Tangent => d.(tangent := Some(a))
    case Texcoord => d.(uv := Some(a))
    case Color => d.(color := Some(a))
    case Joints => d.(skinInd := Some(a))
    case Weights => d.(skinWgt := Some(a))
  }

  /** The shapes the switch admits, for each attribute field that is set. */
  predicate DescShaped(d: DrawCallDesc) {
    && (d.pos.Some? ==> IsFloatVec(d.pos.value, Vec3))
    && (d.nrm.Some? ==> IsFloatVec(d.nrm.value, Vec3))
    && (d.tangent.Some? ==> IsFloatVec(d.tangent.value, Vec4))
    && (d.uv.Some? ==> IsFloatVec(d.uv.value, Vec2))
    && (d.color.Some? ==> d.color.value.atype in {Vec3, Vec4})
    && (d.skinInd.Some? ==> d.skinInd.value.atype == Vec4)
    && (d.skinWgt.Some? ==> d.skinWgt.value.atype == Vec4)
  }

  predicate FieldFits(f: Option<Accessor>) {
    f.Some? ==> AccessorFits(f.value)
  }

  /** Every attribute accessor of the descriptor lies inside its buffer. */
  predicate AttrDescFits(d: DrawCallDesc) {
    FieldFits(d.pos) && FieldFits(d.nrm) && FieldFits(d.tangent) && FieldFits(d.uv)
    && FieldFits(d.color) && FieldFits(d.skinInd) && FieldFits(d.skinWgt)
  }

  predicate AttrsFit(attrs: seq<Attribute>) {
    forall i :: 0 <= i < |attrs| && attrs[i].data.Some? ==> AccessorFits(attrs[i].data.value)
  }

  /** The descriptor being built and the running vertex count of the attribute loop. */
  datatype ScanState = ScanState(desc: DrawCallDesc, numVertices: nat)

  /** One iteration of the attribute loop (src/gltf_loader.cpp:224-286). */
  function Step(s: ScanState, attr: Attribute): (r: Result<ScanState>)
    ensures r.Ok? ==> SameHeader(r.value.desc, s.desc)
    ensures r.Ok? && DescShaped(s.desc) ==> DescShaped(r.value.desc)
    ensures r.Ok? && AttrDescFits(s.desc) && (attr.data.Some? ==> AccessorFits(attr.data.value)) ==>
      AttrDescFits(r.value.desc)
  {
    if attr.data.None? then Fail(NullAttributeData)
    else
      var a := attr.data.value;
      var nv := if s.numVertices == 0 then a.count else s.numVertices;
      if a.count != nv then Fail(VertexCountMismatch)
      else if attr.semantic == Position && s.desc.pos.Some? then Fail(DuplicatePosition)
      else if Accepts(attr) then Ok(ScanState(Store(s.desc, attr.semantic, a), nv))
      else Ok(ScanState(s.desc, nv))
  }

  /** The attribute loop run over `attrs` from `init`. */
  function Scan(init: ScanState, attrs: seq<Attribute>): (r: Result<ScanState>)
    ensures r.Ok? ==> SameHeader(r.value.desc, init.desc)
    ensures r.Ok? && DescShaped(init.desc) ==> DescShaped(r.value.desc)
    ensures r.Ok? && AttrDescFits(init.desc) && AttrsFit(attrs) ==> AttrDescFits(r.value.desc)
  {
    if |attrs| == 0 then Ok(init)
    else
      var s :- Scan(init, attrs[..|attrs| - 1]);
      Step(s, attrs[|attrs| - 1])
  }

  /** The attribute loop runs one attribute more. */
  lemma ScanSnoc(init: ScanState, attrs: seq<Attribute>, k: nat, s: ScanState)
    requires k < |attrs| && Scan(init, attrs[..k]) == Ok(s)
    ensures Scan(init, attrs[..k + 1]) == Step(s, attrs[k])
  {
    assert attrs[..k + 1][..k] == attrs[..k];
  }

  /** Once the loop has hit an assertion, the rest of the attributes never run. */
  lemma {:induction false} ScanFailureSticks(init: ScanState, attrs: seq<Attribute>, k: nat)
    requires k <= |attrs| && Scan(init, attrs[..k]).Fail?
    ensures Scan(init, attrs) == Scan(init, attrs[..k])
  {
    if k < |attrs| {
      assert attrs[..|attrs| - 1][..k] == attrs[..k];
      ScanFailureSticks(init, attrs[..|attrs| - 1], k);
    } else {
      assert attrs[..k] == attrs;
    }
  }

  /** What lines 183-199 and 204-218 demand before any attribute is read. */
  predicate HeaderOk(p: Primitive) {
    && p.targetsCount == 0
    && p.ptype == Triangles
    && p.indices.Some?
    && p.indices.value.atype == Scalar
    && p.indices.value.componentType in {U16, U32}
  }

  /** What an accepted descriptor says about its primitive. */
  predicate Accepted(p: Primitive, d: DrawCallDesc) {
    && p.indices.Some?
    && (d.ind16.Some? <==> p.indices.value.componentType == U16)
    && (d.ind32.Some? <==> p.indices.value.componentType == U32)
    && (d.ind16.Some? != d.ind32.Some?)
    && (d.ind16.Some? ==> d.ind16 == p.indices)
    && (d.ind32.Some? ==> d.ind32 == p.indices)
    && d.pos.Some?
    && d.numIndices == p.indices.value.count
    && d.numIndices % 3 == 0
    && d.numTris == d.numIndices / 3
    && DescShaped(d)
  }

  /** The descriptor after the index checks, before the attribute loop. */
  function IndexDesc(ia: Accessor): DrawCallDesc {
    EmptyDesc.(ind16 := if ia.componentType == U16 then Some(ia) else None,
               ind32 := if ia.componentType == U32 then Some(ia) else None,
               numIndices := ia.count)
  }

  /** getDrawcallDesc as a function: Ok(None) rejects the primitive. */
  function DrawcallDescOf(p: Primitive): (r: Result<Option<DrawCallDesc>>)
    ensures !HeaderOk(p) ==> r == Ok(None)
    ensures r.Ok? && r.value.Some? ==> HeaderOk(p) && Accepted(p, r.value.value)
    ensures r.Ok? && r.value.Some? && PrimitiveFits(p) ==> AttrDescFits(r.value.value)
  {
    if p.targetsCount != 0 then Ok(None)
    else if p.ptype != Triangles || p.indices.None? then Ok(None)
    else if p.indices.value.atype != Scalar then Ok(None)
    else if p.indices.value.componentType !in {U16, U32} then Ok(None)
    else
      var s :- Scan(ScanState(IndexDesc(p.indices.value), 0), p.attributes);
      if s.desc.pos.None? then Ok(None)
      else if s.desc.numIndices % 3 != 0 then Fail(IndexCountNotTriangles)
      else Ok(Some(s.desc.(numTris := s.desc.numIndices / 3, numVertices := s.numVertices)))
  }

  /** getDrawcallDesc, statement by statement. */
  method GetDrawcallDesc(dc: Primitive) returns (r: Result<Option<DrawCallDesc>>)
    ensures r == DrawcallDescOf(dc)
  {
    if dc.targetsCount != 0 {
      return Ok(None);
    }
    if dc.ptype != Triangles || dc.indices.None? {
      return Ok(None);
    }
    var indices := dc.indices.value;
    if indices.atype != Scalar {
      return Ok(None);
    }
    var numVertices := 0;
    var desc := EmptyDesc;
    if indices.componentType == U16 {
      desc := desc.(ind16 := dc.indices);
    }
    if indices.componentType == U32 {
      desc := desc.(ind32 := dc.indices);
    }
    if desc.ind32.None? && desc.ind16.None? {
      return Ok(None);
    }
    desc := desc.(numIndices := indices.count);
    ghost var init := ScanState(desc, 0);
    assert init.desc == IndexDesc(indices);
    for attrIndex := 0 to |dc.attributes|
      invariant Scan(init, dc.attributes[..attrIndex]) == Ok(ScanState(desc, numVertices))
    {
      ScanSnoc(init, dc.attributes, attrIndex, ScanState(desc, numVertices));
      var attr := dc.attributes[attrIndex];
      ghost var step := Step(ScanState(desc, numVertices), attr);
      if step.Fail? {
        ScanFailureSticks(init, dc.attributes, attrIndex + 1);
      }
      if attr.data.None? {
        return Fail(NullAttributeData);
      }
      var vertexAttrData := attr.data.value;
      if numVertices == 0 {
        numVertices := vertexAttrData.count;
      }
      if vertexAttrData.count != numVertices {
        return Fail(VertexCountMismatch);
      }
      match attr.semantic {
        case Position =>
          if desc.pos.Some? {
            return Fail(DuplicatePosition);
          }
          if vertexAttrData.atype != Vec3 || vertexAttrData.componentType != F32 {
            continue;
          }
          desc := desc.(pos := Some(vertexAttrData));
        case Normal =>
          if vertexAttrData.atype != Vec3 || vertexAttrData.componentType != F32 {
            continue;
          }
          desc := desc.(nrm := Some(vertexAttrData));
        case Tangent =>
          if vertexAttrData.atype != Vec4 || vertexAttrData.componentType != F32 {
            continue;
          }
          desc := desc.(tangent := Some(vertexAttrData));
        case Texcoord =>
          if attr.index != 0 || vertexAttrData.atype != Vec2 || vertexAttrData.componentType != F32 {
            continue;
          }
          desc := desc.(uv := Some(vertexAttrData));
        case Color =>
          if attr.index != 0 || (vertexAttrData.atype != Vec3 && vertexAttrData.atype != Vec4) {
            continue;
          }
          desc := desc.(color := Some(vertexAttrData));
        case Joints =>
          if attr.index != 0 || vertexAttrData.atype != Vec4 {
            continue;
          }
          desc := desc.(skinInd := Some(vertexAttrData));
        case Weights =>
          if attr.index != 0 || vertexAttrData.atype != Vec4 {
            continue;
          }
          desc := desc.(skinWgt := Some(vertexAttrData));
        case _ =>
      }
    }
    assert dc.attributes[..|dc.attributes|] == dc.attributes;
    if desc.pos.None? {
      return Ok(None);
    }
    if desc.numIndices % 3 != 0 {
      return Fail(IndexCountNotTriangles);
    }
    var numTris := desc.numIndices / 3;
    desc := desc.(numTris := numTris, numVertices := numVertices);
    return Ok(Some(desc));
  }

  // Reference definitions of what the attribute loop computes.

  /** The count of an attribute's accessor (0 when it has none). */
  function Count(attr: Attribute): nat {
    if attr.data.Some? then attr.data.value.count else 0
  }

  /** The last attribute of `attrs` with semantic `sem` that the switch accepts. */
  function LastAccepted(attrs: seq<Attribute>, sem: Semantic): Option<Accessor> {
    if |attrs| == 0 then None
    else if attrs[|attrs| - 1].semantic == sem && Accepts(attrs[|attrs| - 1]) then attrs[|attrs| - 1].data
    else LastAccepted(attrs[..|attrs| - 1], sem)
  }

  predicate AllPresent(attrs: seq<Attribute>) {
    forall i :: 0 <= i < |attrs| ==> attrs[i].data.Some?
  }

  /** After an attribute with a non-zero count, every later attribute has that count. */
  predicate CountsAgree(attrs: seq<Attribute>) {
    forall i, j :: 0 <= i < j < |attrs| && Count(attrs[i]) != 0 ==> Count(attrs[j]) == Count(attrs[i])
  }

  /** No position attribute follows an accepted one. */
  predicate NoDuplicatePosition(attrs: seq<Attribute>) {
    forall i, j :: 0 <= i < j < |attrs| && attrs[i].semantic == Position && Accepts(attrs[i]) ==> attrs[j].semantic != Position
  }

  /** The attribute loop runs to the end without an assertion failing. */
  predicate ScanOk(attrs: seq<Attribute>) {
    AllPresent(attrs) && CountsAgree(attrs) && NoDuplicatePosition(attrs)
  }

  predicate NoAttrFields(d: DrawCallDesc) {
    forall sem :: AttrField(d, sem) == None
  }

  lemma {:induction false} LastAcceptedSome(attrs: seq<Attribute>, sem: Semantic)
    ensures LastAccepted(attrs, sem).Some? <==> exists i :: 0 <= i < |attrs| && attrs[i].semantic == sem && Accepts(attrs[i])
  {
    if |attrs| > 0 {
      var pre := attrs[..|attrs| - 1];
      LastAcceptedSome(pre, sem);
      assert forall i :: 0 <= i < |pre| ==> pre[i] == attrs[i];
    }
  }

  /** What a successful attribute loop holds, stated without the loop: each
      field holds the last accepted attribute of its semantic and the vertex
      count is the common non-zero count. */
  lemma {:induction false} ScanInvariant(init: ScanState, attrs: seq<Attribute>)
    requires init.numVertices == 0 && NoAttrFields(init.desc) && Scan(init, attrs).Ok?
    ensures var s := Scan(init, attrs).value;
      && (forall sem :: AttrField(s.desc, sem) == LastAccepted(attrs, sem))
      && (forall i :: 0 <= i < |attrs| ==> Count(attrs[i]) == 0 || Count(attrs[i]) == s.numVertices)
      && (s.numVertices == 0 <==> forall i :: 0 <= i < |attrs| ==> Count(attrs[i]) == 0)
  {
    if |attrs| == 0 {
      return;
    }
    var n := |attrs|;
    var pre, last := attrs[..n - 1], attrs[n - 1];
    assert forall i :: 0 <= i < n - 1 ==> pre[i] == attrs[i];
    ScanInvariant(init, pre);
    var s := Scan(init, pre).value;
    assert Scan(init, attrs) == Step(s, last);
    assert last.data.Some?;
  }

  /** The attribute loop succeeds exactly when every attribute has an accessor,
      the counts agree and no position follows an accepted one. */
  lemma {:induction false} ScanCharacterization(init: ScanState, attrs: seq<Attribute>)
    requires init.numVertices == 0 && NoAttrFields(init.desc)
    ensures Scan(init, attrs).Ok? <==> ScanOk(attrs)
  {
    if |attrs| == 0 {
      return;
    }
    var n := |attrs|;
    var pre, last := attrs[..n - 1], attrs[n - 1];
    assert forall i :: 0 <= i < n - 1 ==> pre[i] == attrs[i];
    ScanCharacterization(init, pre);
    if Scan(init, pre).Fail? {
      assert !ScanOk(pre);
      return;
    }
    ScanInvariant(init, pre);
    var s := Scan(init, pre).value;
    assert Scan(init, attrs) == Step(s, last);
    LastAcceptedSome(pre, Position);
    assert s.desc.pos == LastAccepted(pre, Position) by {
      assert AttrField(s.desc, Position) == LastAccepted(pre, Position);
    }
    if Step(s, last).Ok? {
      assert last.data.Some?;
      assert s.numVertices != 0 ==> exists i :: 0 <= i < n - 1 && Count(pre[i]) != 0;
      assert CountsAgree(attrs) by {
        forall i, j | 0 <= i < j < n && Count(attrs[i]) != 0
          ensures Count(attrs[j]) == Count(attrs[i])
        {
          if j < n - 1 {
            assert Count(pre[i]) != 0;
          } else {
            assert Count(pre[i]) == s.numVertices;
          }
        }
      }
      assert NoDuplicatePosition(attrs) by {
        forall i, j | 0 <= i < j < n && attrs[i].semantic == Position && Accepts(attrs[i])
          ensures attrs[j].semantic != Position
        {
          if j == n - 1 {
            assert pre[i].semantic == Position && Accepts(pre[i]);
          }
        }
      }
    } else {
      if last.data.Some? && s.numVertices != 0 && Count(last) != s.numVertices {
        var i :| 0 <= i < n - 1 && Count(pre[i]) != 0;
        assert Count(attrs[i]) != 0 && Count(attrs[n - 1]) != Count(attrs[i]);
      } else if last.data.Some? && last.semantic == Position && s.desc.pos.Some? {
        var i :| 0 <= i < n - 1 && pre[i].semantic == Position && Accepts(pre[i]);
        assert attrs[i].semantic == Position && Accepts(attrs[i]);
      }
    }
  }

  /** Whether getDrawcallDesc rejects, fails or accepts a primitive, and what
      an accepted descriptor holds, in terms of the primitive alone. */
  lemma DescriptorOutcome(p: Primitive)
    ensures (DrawcallDescOf(p).Ok? && DrawcallDescOf(p).value.Some?) <==>
      HeaderOk(p) && ScanOk(p.attributes) && LastAccepted(p.attributes, Position).Some?
      && p.indices.value.count % 3 == 0
    ensures DrawcallDescOf(p).Fail? <==>
      HeaderOk(p) && (!ScanOk(p.attributes)
                      || (LastAccepted(p.attributes, Position).Some? && p.indices.value.count % 3 != 0))
    ensures DrawcallDescOf(p).Ok? && DrawcallDescOf(p).value.Some? ==>
      var d := DrawcallDescOf(p).value.value;
      && (forall sem :: AttrField(d, sem) == LastAccepted(p.attributes, sem))
      && (forall i :: 0 <= i < |p.attributes| ==> Count(p.attributes[i]) == 0 || Count(p.attributes[i]) == d.numVertices)
      && (d.numVertices == 0 <==> forall i :: 0 <= i < |p.attributes| ==> Count(p.attributes[i]) == 0)
  {
    if HeaderOk(p) {
      var init := ScanState(IndexDesc(p.indices.value), 0);
      assert NoAttrFields(init.desc) by {
        forall sem ensures AttrField(init.desc, sem) == None {
        }
      }
      ScanCharacterization(init, p.attributes);
      if Scan(init, p.attributes).Ok? {
        ScanInvariant(init, p.attributes);
        var s := Scan(init, p.attributes).value;
        assert s.desc.pos == LastAccepted(p.attributes, Position) by {
          assert AttrField(s.desc, Position) == LastAccepted(p.attributes, Position);
        }
        if DrawcallDescOf(p).Ok? && DrawcallDescOf(p).value.Some? {
          var d := DrawcallDescOf(p).value.value;
          forall sem ensures AttrField(d, sem) == LastAccepted(p.attributes, sem) {
            assert AttrField(d, sem) == AttrField(s.desc, sem);
          }
        }
      }
    }
  }

  /** A mis-shaped attribute other than a position is dropped on its own: with
      a matching count it leaves an accepted descriptor as it was. */
  lemma MisshapedAttributeDropped(p: Primitive, attr: Attribute)
    requires DrawcallDescOf(p).Ok? && DrawcallDescOf(p).value.Some?
    requires attr.data.Some? && attr.semantic != Position && !Accepts(attr)
    requires Count(attr) == DrawcallDescOf(p).value.value.numVertices
    ensures DrawcallDescOf(p.(attributes := p.attributes + [attr])) == DrawcallDescOf(p)
  {
    var attrs := p.attributes + [attr];
    assert attrs[..|attrs| - 1] == p.attributes;
  }

  /** A position attribute after an accepted one fails the assert, whatever its shape. */
  lemma SecondPositionFails(p: Primitive, attr: Attribute)
    requires DrawcallDescOf(p).Ok? && DrawcallDescOf(p).value.Some?
    requires attr.data.Some? && attr.semantic == Position
    requires Count(attr) == DrawcallDescOf(p).value.value.numVertices
    ensures DrawcallDescOf(p.(attributes := p.attributes + [attr])) == Fail(DuplicatePosition)
  {
    var attrs := p.attributes + [attr];
    assert attrs[..|attrs| - 1] == p.attributes;
  }
}
