/** Failure-carrying datatypes standing in for Python's exceptions. */
module Wrappers {

  /** A possibly missing value: `None` is pandas' NaN/None in a cell. */
  datatype Option<+T> = None | Some(value: T)

  /** The value of a computation, or the error it raised. */
  datatype Result<+T, +E> = Success(value: T) | Failure(error: E)

  /** The outcome of a check that returns nothing when it passes and raises when it fails. */
  datatype Outcome<+E> = Pass | Fail(error: E)
}
