/**
  Shared vocabulary of the loader model: optional values, the outcome of an
  operation that can hit one of the loader's assertions, and raw bytes.
 */
module Base {

  /** A byte of a glTF buffer. */
  type Byte = x: int | 0 <= x < 256

  /** The reinterpretation of four little-endian bytes as an IEEE-754 float32.
      Its arithmetic is not modelled: every operation that decodes a float
      receives the decoding as a parameter. */
  type F32Decode = (Byte, Byte, Byte, Byte) -> real

  /** A pointer that may be null. */
  datatype Option<+T> = None | Some(value: T)

  /** Each `assert` of the loader that the input data can violate. In a debug
      build a violated assertion aborts the program; the model returns it. */
  datatype Fault =
    | NullAttributeData          // an attribute without an accessor
    | VertexCountMismatch        // attribute counts disagree
    | DuplicatePosition          // a second position after an accepted one
    | IndexCountNotTriangles     // index count is not a multiple of 3
    | MissingBufferView          // accessor without buffer view
    | MissingBuffer              // buffer view without buffer
    | MissingBufferData          // buffer whose bytes were not loaded
    | ZeroStride                 // accessor stride is 0
    | NullReaderData             // element read through an invalid reader
    | IndexOutOfRange            // element index not below the accessor count
    | NotNormalized              // integer component read as float without the normalized flag
    | UnsupportedComponentType   // component type other than f32, u8, u16 read as float
    | PositionNotFloat           // position reader not float32
    | TangentSignOutOfRange      // tangent w is not +1 or -1 within 1e-5
    | JointsComponentType        // joints neither u8 nor u16
    | JointsNormalized           // joints flagged as normalized
    | ConversionUndefined        // float converted to uint8_t outside its defined range

  /** The outcome of an operation whose assertions may fail. */
  datatype Result<+T> = Ok(value: T) | Fail(fault: Fault) {
    predicate IsFailure() { Fail? }
    function PropagateFailure<U>(): Result<U>
      requires Fail?
    {
      Fail(fault)
    }
    function Extract(): T
      requires Ok?
    {
      value
    }
  }
}
