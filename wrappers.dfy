/** Failure-carrying datatypes shared by the access-control and encryption models. */
module Wrappers {

  /** A value that may be absent (Python's `None`). */
  datatype Option<+T> = None | Some(value: T)

  /** A value or the error that replaced it (Python's raised exception). */
  datatype Result<+R, +E> = Success(value: R) | Failure(error: E)
}
