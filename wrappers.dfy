/** Failure-carrying result types used in place of the source's raised exceptions. */
module Wrappers {

  datatype Option<+T> = None | Some(value: T)

  /** The outcome of an operation that yields a value or fails with an error. */
  datatype Result<+R, +E> = Success(value: R) | Failure(error: E)

  /** The outcome of an operation that only changes state: it passes or fails. */
  datatype Outcome<+E> = Pass | Fail(error: E)
}
