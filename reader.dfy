/**
  BufferReader (src/gltf_loader.cpp:109-179): a strided view of one accessor's
  bytes. The C++ pointer `data` becomes a buffer together with the byte
  position of element 0; an absent accessor gives a reader without data.
 */
module Reader {
  import opened Base
  import opened Document

  /** The buffer a reader points into and the position of its element 0. */
  datatype Span = Span(bytes: seq<Byte>, base: nat)

  datatype BufferReader = BufferReader(
    data: Option<Span>,
    stride: nat,
    count: nat,
    acc: Option<Accessor>,
    atype: AccessorType,
    componentType: ComponentType,
    normalized: bool)
  {
    /** isValid: the reader has a data pointer. */
    predicate IsValid() {
      data.Some?
    }

    /** Every element the reader can address lies inside its buffer. */
    predicate Fits() {
      data.Some? && count > 0 ==>
        data.value.base + (count - 1) * stride + ElementSize(atype, componentType) <= |data.value.bytes|
    }
  }

  /** `BufferReader{}`: the reader of an absent accessor. */
  const NullReader := BufferReader(None, 0, 0, None, InvalidType, InvalidComponent, false)

  lemma MulMonotone(i: nat, j: nat, s: nat)
    requires i <= j
    ensures i * s <= j * s
  {
  }

  /** getBufferReader. */
  function GetBufferReader(acc: Option<Accessor>): (r: Result<BufferReader>)
    ensures acc.None? ==> r == Ok(NullReader) && !r.value.IsValid()
    ensures acc.Some? && r.Ok? ==>
      && r.value.IsValid()
      && r.value.stride == acc.value.stride > 0
      && r.value.count == acc.value.count
      && r.value.acc == acc
      && r.value.atype == acc.value.atype
      && r.value.componentType == acc.value.componentType
      && r.value.normalized == acc.value.normalized
    ensures acc.Some? ==> (r.Ok? <==> BytesOf(acc.value).Some? && acc.value.stride > 0)
    ensures acc.Some? && r.Ok? && AccessorFits(acc.value) ==> r.value.Fits()
    ensures acc.Some? && r.Fail? ==>
      var a := acc.value;
      r.fault == (if a.view.None? then MissingBufferView
                  else if a.view.value.buffer.None? then MissingBuffer
                  else if a.view.value.buffer.value.data.None? then MissingBufferData
                  else ZeroStride)
  {
    match acc
    case None => Ok(NullReader)
    case Some(a) =>
      if a.view.None? then Fail(MissingBufferView)
      else if a.view.value.buffer.None? then Fail(MissingBuffer)
      else if a.view.value.buffer.value.data.None? then Fail(MissingBufferData)
      else
        var byteOffset := a.offset + a.view.value.offset;
        if a.stride == 0 then Fail(ZeroStride)
        else Ok(BufferReader(Some(Span(a.view.value.buffer.value.data.value, byteOffset)),
                             a.stride, a.count, acc, a.atype, a.componentType, a.normalized))
  }

  /** getByIndex: the byte position of element `index`. Asserts a data
      pointer and `index < count`. */
  function GetByIndex(r: BufferReader, index: nat): (off: Result<nat>)
    ensures off.Ok? <==> r.IsValid() && index < r.count
    ensures off.Fail? ==> off.fault == (if r.IsValid() then IndexOutOfRange else NullReaderData)
    ensures off.Ok? && r.Fits() ==> off.value + ElementSize(r.atype, r.componentType) <= |r.data.value.bytes|
  {
    if r.data.None? then Fail(NullReaderData)
    else if index >= r.count then Fail(IndexOutOfRange)
    else
      MulMonotone(index, r.count - 1, r.stride);
      Ok(r.data.value.base + index * r.stride)
  }

  /** `getByIndex<uint8_t>(index)[c]`. */
  function ReadU8(r: BufferReader, index: nat, c: nat): (v: Result<Byte>)
    requires r.Fits() && r.componentType == U8 && c < NumComponents(r.atype)
    ensures v.Ok? <==> r.IsValid() && index < r.count
  {
    var off :- GetByIndex(r, index);
    Ok(r.data.value.bytes[off + c])
  }

  /** `getByIndex<uint16_t>(index)[c]`, little-endian. */
  function ReadU16(r: BufferReader, index: nat, c: nat): (v: Result<nat>)
    requires r.Fits() && r.componentType == U16 && c < NumComponents(r.atype)
    ensures v.Ok? <==> r.IsValid() && index < r.count
    ensures v.Ok? ==> v.value < 0x1_0000
  {
    var off :- GetByIndex(r, index);
    var b := r.data.value.bytes;
    Ok(U16Le(b[off + 2 * c], b[off + 2 * c + 1]))
  }

  /** `getByIndex<uint32_t>(index)[c]`, little-endian. */
  function ReadU32(r: BufferReader, index: nat, c: nat): (v: Result<nat>)
    requires r.Fits() && r.componentType == U32 && c < NumComponents(r.atype)
    ensures v.Ok? <==> r.IsValid() && index < r.count
    ensures v.Ok? ==> v.value < 0x1_0000_0000
  {
    var off :- GetByIndex(r, index);
    var b := r.data.value.bytes;
    Ok(U32Le(b[off + 4 * c], b[off + 4 * c + 1], b[off + 4 * c + 2], b[off + 4 * c + 3]))
  }

  /** `getByIndex<float>(index)[c]`. */
  function ReadF32(r: BufferReader, index: nat, c: nat, f32: F32Decode): (v: Result<real>)
    requires r.Fits() && r.componentType == F32 && c < NumComponents(r.atype)
    ensures v.Ok? <==> r.IsValid() && index < r.count
  {
    var off :- GetByIndex(r, index);
    var b := r.data.value.bytes;
    Ok(f32(b[off + 4 * c], b[off + 4 * c + 1], b[off + 4 * c + 2], b[off + 4 * c + 3]))
  }

  /** getAsFloat: component `c` of element `index` as a float. Float32 is
      returned as decoded; normalized u8 and u16 are divided by 255 and 65535;
      a non-normalized integer or any other component type fails its assert. */
  function GetAsFloat(r: BufferReader, index: nat, c: nat, f32: F32Decode): (v: Result<real>)
    requires r.Fits() && c < NumComponents(r.atype)
    ensures v.Ok? <==>
      && r.IsValid() && index < r.count
      && (r.componentType == F32 || ((r.componentType == U8 || r.componentType == U16) && r.normalized))
    ensures v.Fail? && (r.componentType == U8 || r.componentType == U16) && !r.normalized ==> v.fault == NotNormalized
    ensures v.Fail? && r.componentType !in {F32, U8, U16} ==> v.fault == UnsupportedComponentType
    ensures r.componentType == F32 ==> v == ReadF32(r, index, c, f32)
    ensures r.componentType == U8 && v.Ok? ==> 0.0 <= v.value <= 1.0 && v.value * 255.0 == ReadU8(r, index, c).value as real
    ensures r.componentType == U16 && v.Ok? ==> 0.0 <= v.value <= 1.0 && v.value * 65535.0 == ReadU16(r, index, c).value as real
  {
    match r.componentType
    case F32 => ReadF32(r, index, c, f32)
    case U8 =>
      if !r.normalized then Fail(NotNormalized)
      else
        var b :- ReadU8(r, index, c);
        Ok(b as real / 255.0)
    case U16 =>
      if !r.normalized then Fail(NotNormalized)
      else
        var h :- ReadU16(r, index, c);
        Ok(h as real / 65535.0)
    case _ => Fail(UnsupportedComponentType)
  }

  /** Byte `k` of element `i` of a loaded accessor, read straight from its buffer. */
  function AccessorByte(a: Accessor, i: nat, k: nat): Byte
    requires BytesOf(a).Some? && i < a.count && AccessorFits(a) && k < ElementSize(a.atype, a.componentType)
  {
    MulMonotone(i, a.count - 1, a.stride);
    BytesOf(a).value[ElementStart(a, i) + k]
  }

  /** Index value `k` of a scalar u16 or u32 index accessor, read straight from its buffer. */
  function IndexValueOf(a: Accessor, k: nat): nat
    requires BytesOf(a).Some? && k < a.count && AccessorFits(a)
    requires a.atype == Scalar && (a.componentType == U16 || a.componentType == U32)
  {
    if a.componentType == U16 then U16Le(AccessorByte(a, k, 0), AccessorByte(a, k, 1))
    else U32Le(AccessorByte(a, k, 0), AccessorByte(a, k, 1), AccessorByte(a, k, 2), AccessorByte(a, k, 3))
  }

  /** Float component `c` of element `i` of a float32 accessor, read straight from its buffer. */
  function F32Of(a: Accessor, i: nat, c: nat, f32: F32Decode): real
    requires BytesOf(a).Some? && i < a.count && AccessorFits(a)
    requires a.componentType == F32 && c < NumComponents(a.atype)
  {
    f32(AccessorByte(a, i, 4 * c), AccessorByte(a, i, 4 * c + 1), AccessorByte(a, i, 4 * c + 2), AccessorByte(a, i, 4 * c + 3))
  }

  /** Whether getAsFloat accepts the component type of `a`. */
  predicate FloatReadable(a: Accessor) {
    a.componentType == F32 || ((a.componentType == U8 || a.componentType == U16) && a.normalized)
  }

  /** Component `c` of element `i` of `a` as getAsFloat reads it, straight from
      the buffer: the stored float32, or the stored integer over 255 or 65535. */
  function StoredFloat(a: Accessor, i: nat, c: nat, f32: F32Decode): (v: real)
    requires BytesOf(a).Some? && i < a.count && AccessorFits(a)
    requires FloatReadable(a) && c < NumComponents(a.atype)
    ensures a.componentType != F32 ==> 0.0 <= v <= 1.0
  {
    if a.componentType == F32 then F32Of(a, i, c, f32)
    else if a.componentType == U8 then AccessorByte(a, i, c) as real / 255.0
    else U16Le(AccessorByte(a, i, 2 * c), AccessorByte(a, i, 2 * c + 1)) as real / 65535.0
  }

  /** The reader of an accessor addresses element `i` at byte
      `accessor offset + view offset + i * stride` of the buffer. */
  lemma ElementAddress(a: Accessor, i: nat)
    requires GetBufferReader(Some(a)).Ok? && i < a.count
    ensures GetByIndex(GetBufferReader(Some(a)).value, i) == Ok(ElementStart(a, i))
    ensures GetBufferReader(Some(a)).value.data.value.bytes == BytesOf(a).value
  {
  }

  /** Reading an index through the reader gives the value stored in the accessor. */
  lemma ReadIndexMatchesAccessor(a: Accessor, k: nat)
    requires GetBufferReader(Some(a)).Ok? && AccessorFits(a) && k < a.count
    requires a.atype == Scalar && (a.componentType == U16 || a.componentType == U32)
    ensures var r := GetBufferReader(Some(a)).value;
      if a.componentType == U16 then ReadU16(r, k, 0) == Ok(IndexValueOf(a, k))
      else ReadU32(r, k, 0) == Ok(IndexValueOf(a, k))
  {
    ElementAddress(a, k);
  }

  /** Reading a float through the reader gives the value stored in the accessor. */
  lemma ReadFloatMatchesAccessor(a: Accessor, i: nat, c: nat, f32: F32Decode)
    requires GetBufferReader(Some(a)).Ok? && AccessorFits(a) && i < a.count
    requires a.componentType == F32 && c < NumComponents(a.atype)
    ensures GetAsFloat(GetBufferReader(Some(a)).value, i, c, f32) == Ok(F32Of(a, i, c, f32))
  {
    ElementAddress(a, i);
  }

  /** getAsFloat through the reader of an accessor gives the value stored in it. */
  lemma ReadStoredFloat(a: Accessor, i: nat, c: nat, f32: F32Decode)
    requires GetBufferReader(Some(a)).Ok? && AccessorFits(a) && i < a.count
    requires FloatReadable(a) && c < NumComponents(a.atype)
    ensures GetAsFloat(GetBufferReader(Some(a)).value, i, c, f32) == Ok(StoredFloat(a, i, c, f32))
  {
    ElementAddress(a, i);
  }
}
