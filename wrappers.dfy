/** Failure-carrying results used where the repository throws. */
module Wrappers {

  datatype Option<+T> = None | Some(value: T)

  datatype Result<+R, +E> = Success(value: R) | Failure(error: E)

  /** The outcome of an operation that returns nothing on success (a `Promise<void>`). */
  datatype Outcome<+E> = Pass | Fail(error: E)
}
