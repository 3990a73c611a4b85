/** Option and Result, the optional value and the error-or-value outcome used throughout. */
module Wrappers {

  /** A value that may be absent: C#'s `T?` (Nullable) on the wire. */
  datatype Option<+T> = None | Some(value: T)

  /** The outcome of an operation that may throw: Success carries the value,
      Failure the exception that escaped. */
  datatype Result<+R, +E> = Success(value: R) | Failure(error: E)
}
