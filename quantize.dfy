/**
  Quantization of floats into bytes (src/gltf_loader.cpp:13-36 and the colour
  and weight packing of loadMesh). Floats are modelled as reals; the C++ cast
  `(uint8_t)y` truncates toward zero and is defined only when the truncated
  value fits in 0..255.
 */
module Quantize {
  import opened Base

  /** The values of `y` for which `(uint8_t)y` is defined behaviour. */
  predicate ConvertibleToUint8(y: real) {
    -1.0 < y < 256.0
  }

  /** `(uint8_t)y`: truncation toward zero. */
  function ToUint8(y: real): (b: Byte)
    requires ConvertibleToUint8(y)
    ensures y >= 0.0 ==> b as real <= y < b as real + 1.0
    ensures y < 0.0 ==> b == 0
  {
    if y < 0.0 then 0 else y.Floor
  }

  /** The two conditional assignments that bound `v` to [-1, 1]. */
  function Clamp(v: real): (c: real)
    ensures -1.0 <= c <= 1.0
    ensures -1.0 <= v <= 1.0 ==> c == v
    ensures v < -1.0 ==> c == -1.0
    ensures v > 1.0 ==> c == 1.0
  {
    var low := if v < -1.0 then -1.0 else v;
    if low > 1.0 then 1.0 else low
  }

  /** unpackNormUint8: byte code back to a signed unit value. */
  function UnpackNormUint8(v: Byte): (r: real)
    ensures -1.0 <= r
    ensures v <= 254 ==> r <= 1.0
  {
    v as real * (1.0 / 127.0) - 1.0
  }

  /** packNormUint8: clamp, then `(uint8_t)(v * 127 + 127.5)`. The code is the
      nearest integer to 127 * clamp(v) + 127, halves rounding up. */
  function PackNormUint8(v: real): (b: Byte)
    ensures b <= 254
    ensures b as real <= Clamp(v) * 127.0 + 127.5 < b as real + 1.0
  {
    ToUint8(Clamp(v) * 127.0 + 127.5)
  }

  /** The values of `x` for which `(uint8_t)(x * 255 + 0.5)` is defined. */
  predicate UnormConvertible(x: real) {
    ConvertibleToUint8(x * 255.0 + 0.5)
  }

  /** `(uint8_t)(x * 255.0f + 0.5f)`, the colour and weight packing. */
  function PackUnorm(x: real): Byte
    requires UnormConvertible(x)
  {
    ToUint8(x * 255.0 + 0.5)
  }

  /** The "canonical" unorm encoding the comment at the top of the file compares against. */
  function CanonicalPack(v: real): int {
    ((v * 0.5 + 0.5) * 255.0 + 0.5).Floor
  }

  function CanonicalUnpack(b: int): real {
    (b as real / 255.0) * 2.0 - 1.0
  }

  lemma PackNormUint8Monotone(a: real, b: real)
    requires a <= b
    ensures PackNormUint8(a) <= PackNormUint8(b)
  {
  }

  /** Values outside [-1, 1] saturate to the end codes. */
  lemma PackNormUint8Saturates(v: real)
    ensures v <= -1.0 ==> PackNormUint8(v) == 0
    ensures v >= 1.0 ==> PackNormUint8(v) == 254
  {
  }

  /** The three points the encoding is designed to keep exactly. */
  lemma UnitPointsRoundTrip()
    ensures PackNormUint8(-1.0) == 0 && UnpackNormUint8(0) == -1.0
    ensures PackNormUint8(0.0) == 127 && UnpackNormUint8(127) == 0.0
    ensures PackNormUint8(1.0) == 254 && UnpackNormUint8(254) == 1.0
  {
  }

  /** Every code the packer can produce decodes to a value that packs back to it. */
  lemma PackUnpackRoundTrip(b: Byte)
    requires b <= 254
    ensures -1.0 <= UnpackNormUint8(b) <= 1.0
    ensures PackNormUint8(UnpackNormUint8(b)) == b
  {
    assert UnpackNormUint8(b) * 127.0 + 127.5 == b as real + 0.5;
  }

  /** Decoding a packed value is off by at most half a step of 1/127. */
  lemma UnpackPackError(v: real)
    ensures -1.0 / 254.0 <= UnpackNormUint8(PackNormUint8(v)) - Clamp(v) <= 1.0 / 254.0
  {
    var b := PackNormUint8(v);
    assert UnpackNormUint8(b) - Clamp(v) == (b as real - (Clamp(v) * 127.0 + 127.0)) / 127.0;
  }

  /** The canonical encoding maps 0.0 to code 128, which does not decode to 0.0. */
  lemma CanonicalEncodingMovesZero()
    ensures CanonicalPack(0.0) == 128
    ensures CanonicalUnpack(128) != 0.0
  {
  }

  /** For values in [0, 1] the unorm packing is round-to-nearest onto 0..255. */
  lemma PackUnormNearest(x: real)
    requires 0.0 <= x <= 1.0
    ensures UnormConvertible(x)
    ensures PackUnorm(x) as real <= x * 255.0 + 0.5 < PackUnorm(x) as real + 1.0
  {
  }

  /** A normalized 8-bit value read as c / 255 packs back to c. */
  lemma PackUnormByteRoundTrip(c: Byte)
    ensures UnormConvertible(c as real / 255.0)
    ensures PackUnorm(c as real / 255.0) == c
  {
    assert (c as real / 255.0) * 255.0 + 0.5 == c as real + 0.5;
  }
}
