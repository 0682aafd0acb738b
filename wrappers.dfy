/** Failure-carrying values used for the store's thrown errors. */
module Wrappers {

  datatype Option<+T> = None | Some(value: T)

  /** The value of a call that either returns `value` or throws `error`. */
  datatype Result<+T, +E> = Success(value: T) | Failure(error: E)

  /** The value of a call that returns nothing or throws `error`. */
  datatype Outcome<+E> = Pass | Fail(error: E)
}
