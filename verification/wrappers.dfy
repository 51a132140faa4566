/** Failure-carrying result types shared by every module of the model. */
module Wrappers {

  /** A value that may be missing: JavaScript's `undefined`, Python's `None`. */
  datatype Option<+T> = None | Some(value: T)

  /** The outcome of an operation that can raise an error. */
  datatype Result<+R, +E> = Success(value: R) | Failure(error: E)
}
