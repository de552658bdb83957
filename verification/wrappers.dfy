/** Option and result types shared by the whole model. */
module Wrappers {

  /** A value that may be absent (Python's `None`). */
  datatype Option<+T> = None | Some(value: T)

  /** The outcome of an operation that can raise: either a value or the error it raised. */
  datatype Result<+R, +E> = Success(value: R) | Failure(error: E)
}
