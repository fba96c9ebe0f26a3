/** Failure-carrying return types: the JavaScript source signals errors by throwing. */
module Wrappers {

  datatype Option<+T> = None | Some(value: T)

  /** A value, or the error an operation of the source throws instead of returning. */
  datatype Result<+T, +E> = Ok(value: T) | Err(error: E)

  /** Normal completion of a statement-like operation, or the error it throws. */
  datatype Outcome<+E> = Pass | Fail(error: E)
}
