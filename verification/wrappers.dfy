/** The optional value and the success-or-error result the other modules share. */
module Wrappers {

  /** A value that may be absent: a file that could not be opened, a regex that did not match. */
  datatype Option<+T> = None | Some(value: T)

  /** The outcome of an operation that either produces a value or aborts with an error. */
  datatype Result<+R, +E> = Success(value: R) | Failure(error: E)
}
