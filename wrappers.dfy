/** Failure-carrying result types shared by the modules of this project. */
module Wrappers {

  /** The outcome of an operation that either succeeds or fails with an error. */
  datatype Outcome<+E> = Pass | Fail(error: E)

  /** A value on success, an error on failure. */
  datatype Result<+T, +E> = Success(value: T) | Failure(error: E)
}
