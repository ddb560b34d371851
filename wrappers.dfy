/** Failure-carrying values standing in for the exceptions the system raises. */
module Wrappers {

  datatype Option<+T> = None | Some(value: T)

  /** A value or the error that the source would raise instead of returning it. */
  datatype Result<+T, +E> = Ok(value: T) | Err(error: E)

  /** The outcome of a check that returns nothing on success (a Python `-> None` that may raise). */
  datatype Outcome<+E> = Pass | Fail(error: E)
}
