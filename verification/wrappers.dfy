/** Failure-carrying result types shared by the other modules. */
module Wrappers {

  /** A value that may be absent; Python's `None` is `None` here. */
  datatype Option<+T> = None | Some(value: T)

  /** The value of an operation, or the error it raised. */
  datatype Result<+R, +E> = Success(value: R) | Failure(error: E)
}
