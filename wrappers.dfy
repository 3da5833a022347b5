/** Failure-carrying datatypes shared by the model, and the one exception
    kind the core raises itself. */
module Wrappers {

  datatype Option<+T> = None | Some(value: T)

  datatype Result<+R, +E> = Success(value: R) | Failure(error: E)

  datatype Outcome<+E> = Pass | Fail(error: E)

  /** Python's `ValueError`, with its message. */
  datatype Error = ValueError(message: string)
}
