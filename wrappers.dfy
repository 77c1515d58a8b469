/** Option and Result values for the JavaScript `null`/`undefined` results and thrown errors of the source. */
module Wrappers {

  /** A value that may be absent (`null` or `undefined` in the source). */
  datatype Option<+T> = None | Some(value: T)

  /** The outcome of an operation that may throw: its value, or the message of the error it throws. */
  datatype Result<+T, +E> = Success(value: T) | Failure(error: E)
}
