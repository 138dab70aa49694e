/**
 * Machine integer ranges, the 32-bit float stand-in, and the failure values
 * that model the exceptions the viewer's loaders and renderers can throw.
 */
module Common {

  type byte = x: int | 0 <= x < 0x100
  type u16 = x: int | 0 <= x < 0x1_0000
  type i16 = x: int | -0x8000 <= x < 0x8000
  type u32 = x: int | 0 <= x < 0x1_0000_0000
  type i32 = x: int | -0x8000_0000 <= x < 0x8000_0000

  /**
   * A single-precision float. Values read from a file are kept as their bit
   * pattern; `FromInt(n)` is the float an integer-to-float conversion yields.
   * No floating-point arithmetic is modelled.
   */
  datatype Float32 = Bits(word: u32) | FromInt(n: int)

  /** The default value of a fresh float array, 0.0f. */
  const ZeroFloat: Float32 := Bits(0)

  datatype Vec3 = Vec3(x: Float32, y: Float32, z: Float32)
  datatype Vec2 = Vec2(x: Float32, y: Float32)

  const ZeroVec2: Vec2 := Vec2(ZeroFloat, ZeroFloat)

  /** The exceptions of the source, one constructor per throw site kind. */
  datatype Error =
    | UnsupportedVersion(version: int)     // DataException on the header version
    | InvalidLightmapSize                  // DataException when a lightmap block exceeds the tile
    | UnsupportedWadFormat                 // DataException on a bad WAD magic
    | CompressedWadEntry                   // DataException on a compressed WAD entry
    | IndexOutOfRange                      // checked array, list, span or split-part index
    | ArgumentOutOfRange                   // Span slice start outside the buffer; List indexer in the OBJ face parser
    | KeyNotFound                          // Dictionary indexer on a missing key
    | DuplicateKey                         // Dictionary.Add on a present key
    | NegativeArraySize                    // array allocation with a negative length
    | EmptySequence                        // Min/Max over no elements
    | MaterialIndexOutOfRange              // ArgumentException in the face parser
    | FaceNotTriangle                      // InvalidOperationException: face arity
    | FaceComponentCount                   // InvalidOperationException: face component count
    | MissingTexturePath                   // InvalidDataException: material without map_Kd
    | FormatError                          // number parse failure

  datatype Option<T> = None | Some(value: T)

  datatype Result<T> = Success(value: T) | Failure(error: Error) {
    predicate IsFailure() {
      Failure?
    }

    function PropagateFailure<U>(): Result<U>
      requires Failure?
    {
      Failure(error)
    }

    function Extract(): T
      requires Success?
    {
      value
    }
  }

  datatype Outcome = Pass | Fail(error: Error) {
    predicate IsFailure() {
      Fail?
    }

    function PropagateFailure<U>(): Result<U>
      requires Fail?
    {
      Failure(error)
    }
  }
}
