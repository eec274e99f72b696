/** Failure-carrying values used in place of the C++ exceptions of the modelled code. */
module Wrappers {

  datatype Option<+T> = None | Some(value: T)

  /** An operation that returns a value or throws an error. */
  datatype Result<+R, +E> = Success(value: R) | Failure(error: E)

  /** An operation that returns nothing (`void`) or throws an error. */
  datatype Outcome<+E> = Pass | Fail(error: E)
}
