/** Failure-carrying wrappers shared by the store model. */
module Wrappers {

  /** A value that may be absent: a missing storage key, an unset hidden form field. */
  datatype Option<+T> = None | Some(value: T)

  /** The outcome of an operation that the page can refuse with a reason. */
  datatype Result<+T, +E> = Ok(value: T) | Err(error: E)
}
