/** Failure-carrying values used in place of the program's panics and `?` returns. */
module Wrappers {

  datatype Option<+T> = None | Some(value: T)

  /** A computation that yields a value or stops with an error. */
  datatype Result<+R, +E> = Success(value: R) | Failure(error: E)

  /** A check or a run that either passes or stops with an error, carrying no value. */
  datatype Outcome<+E> = Pass | Fail(error: E)
}
