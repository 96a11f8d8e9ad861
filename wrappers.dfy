/** Option, Result and Outcome, standing for PHP's nullable values and thrown exceptions. */
module Wrappers {

  /** A nullable value: None is PHP's NULL (or an unset option). */
  datatype Option<+T> = None | Some(value: T)

  /** The outcome of an operation that may throw: Failure carries the exception. */
  datatype Result<+R, +E> = Success(value: R) | Failure(error: E)

  /** The outcome of a check that returns nothing or throws. */
  datatype Outcome<+E> = Pass | Fail(error: E)
}
