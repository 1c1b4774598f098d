/**
 * Shared value types: nullable references, results of operations that can
 * throw, and the exception kinds the shape code can raise.
 */
module Base {

  /** A Kotlin nullable value: `null` is None. */
  datatype Option<T> = None | Some(value: T)

  /** The JVM exceptions the modelled code can raise. */
  datatype Exception =
    | NullPointer
    | IndexOutOfBounds
    | IllegalArgument(message: string)
    | NumberFormat
    | StackOverflow
    | NegativeArraySize

  /** How a method without a result ended: normally, or by throwing. */
  datatype Outcome = Returned | Raised(error: Exception)

  /** The outcome of an operation that returns a value or throws. */
  datatype Result<T> = Ok(value: T) | Throws(error: Exception)

  /** A Kotlin Int: a signed 32-bit integer. */
  type Int32 = x: int | -0x8000_0000 <= x < 0x8000_0000

  /** A value in 0..255, one channel of a packed colour. */
  type Byte = x: int | 0 <= x < 256

  function Min(a: int, b: int): int { if a < b then a else b }
}
