/** The optional value and the error-or-value types used across the model. */
module Wrappers {

  /** A value that may be absent: Python's `None` against a present value. */
  datatype Option<+T> = None | Some(value: T)

  /** The outcome of an operation that the source ends with an exception or an
      HTTP error status. */
  datatype Result<+T, +E> = Success(value: T) | Failure(error: E)
}
