/** Value types shared by the model: optional values, results with an error
    side, and the Java primitive ranges the dashboard record uses. */
module Base {

  /** A Java reference that may be null. */
  datatype Option<+T> = None | Some(value: T)

  /** The outcome of an operation that may raise a checked exception. */
  datatype Result<+R, +E> = Success(value: R) | Failure(error: E)

  /** The outcome of a `void` operation that may raise a checked exception. */
  datatype Outcome<+E> = Pass | Fail(error: E)

  /** A Java `byte`, held by its unsigned value: the bit pattern is what matters. */
  type Byte = b: int | 0 <= b < 0x100

  /** A Java `long` (64-bit two's complement). */
  type Long = x: int | -0x8000_0000_0000_0000 <= x < 0x8000_0000_0000_0000
}
