/**
  The part of a parsed glTF 2.0 document the loader reads: accessors, buffer
  views, buffers, primitives with their attribute bindings, meshes and nodes
  (the cgltf structures of the same names). Pointers the loader tests for null
  are `Option`s; a pointer the loader follows without a test is a plain value.
 */
module Document {
  import opened Base

  datatype ComponentType = InvalidComponent | I8 | U8 | I16 | U16 | U32 | F32

  datatype AccessorType = InvalidType | Scalar | Vec2 | Vec3 | Vec4 | Mat2 | Mat3 | Mat4

  /** A buffer; `data` is None until its bytes are loaded. */
  datatype Buffer = Buffer(data: Option<seq<Byte>>)

  datatype BufferView = BufferView(offset: nat, buffer: Option<Buffer>)

  /** An accessor: `count` elements of `atype` with components of
      `componentType`, the first at byte `offset` of its view, `stride` bytes apart. */
  datatype Accessor = Accessor(
    componentType: ComponentType,
    normalized: bool,
    atype: AccessorType,
    offset: nat,
    count: nat,
    stride: nat,
    view: Option<BufferView>)

  datatype Semantic = InvalidSemantic | Position | Normal | Tangent | Texcoord | Color | Joints | Weights | Custom

  /** An attribute binding: semantic, set index (TEXCOORD_n, COLOR_n, ...) and accessor. */
  datatype Attribute = Attribute(semantic: Semantic, index: int, data: Option<Accessor>)

  datatype PrimitiveType = Points | Lines | LineLoop | LineStrip | Triangles | TriangleStrip | TriangleFan

  datatype Primitive = Primitive(
    ptype: PrimitiveType,
    indices: Option<Accessor>,
    attributes: seq<Attribute>,
    targetsCount: nat)

  datatype Mesh = Mesh(primitives: seq<Primitive>)

  /** A node; only its mesh reference matters to the loader. */
  datatype Node = Node(mesh: Option<Mesh>)

  datatype Gltf = Gltf(meshes: seq<Mesh>, nodes: seq<Node>)

  function NumComponents(t: AccessorType): nat {
    match t
    case InvalidType => 0
    case Scalar => 1
    case Vec2 => 2
    case Vec3 => 3
    case Vec4 => 4
    case Mat2 => 4
    case Mat3 => 9
    case Mat4 => 16
  }

  function ComponentSize(c: ComponentType): nat {
    match c
    case InvalidComponent => 0
    case I8 => 1
    case U8 => 1
    case I16 => 2
    case U16 => 2
    case U32 => 4
    case F32 => 4
  }

  /** Bytes one element occupies. */
  function ElementSize(t: AccessorType, c: ComponentType): nat {
    NumComponents(t) * ComponentSize(c)
  }

  /** The loaded bytes behind an accessor, when its view, buffer and data are all present. */
  function BytesOf(a: Accessor): Option<seq<Byte>> {
    if a.view.Some? && a.view.value.buffer.Some? then a.view.value.buffer.value.data else None
  }

  /** Byte position of element `i` of `a` in its buffer. */
  function ElementStart(a: Accessor, i: nat): nat
    requires a.view.Some?
  {
    a.offset + a.view.value.offset + i * a.stride
  }

  /** The last element of a loaded accessor lies inside its buffer. The loader
      never checks this; reading outside the buffer is undefined behaviour. */
  predicate AccessorFits(a: Accessor) {
    BytesOf(a).Some? && a.count > 0 ==>
      ElementStart(a, a.count - 1) + ElementSize(a.atype, a.componentType) <= |BytesOf(a).value|
  }

  predicate PrimitiveFits(p: Primitive) {
    && (p.indices.Some? ==> AccessorFits(p.indices.value))
    && forall i :: 0 <= i < |p.attributes| && p.attributes[i].data.Some? ==> AccessorFits(p.attributes[i].data.value)
  }

  predicate MeshFits(m: Mesh) {
    forall i :: 0 <= i < |m.primitives| ==> PrimitiveFits(m.primitives[i])
  }

  predicate GltfFits(g: Gltf) {
    forall i :: 0 <= i < |g.nodes| && g.nodes[i].mesh.Some? ==> MeshFits(g.nodes[i].mesh.value)
  }

  /** A little-endian unsigned 16-bit value. */
  function U16Le(b0: Byte, b1: Byte): (v: nat)
    ensures v < 0x1_0000
  {
    b0 + 0x100 * b1
  }

  /** A little-endian unsigned 32-bit value. */
  function U32Le(b0: Byte, b1: Byte, b2: Byte, b3: Byte): (v: nat)
    ensures v < 0x1_0000_0000
  {
    b0 + 0x100 * b1 + 0x1_0000 * b2 + 0x100_0000 * b3
  }
}
