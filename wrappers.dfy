/** Option and Result values used throughout the model for Java's null and for exceptions. */
module Wrappers {

  /** A Java reference that may be null. */
  datatype Option<+T> = None | Some(value: T)

  /** A computation that either returns a value or throws. */
  datatype Result<+T, +E> = Ok(value: T) | Err(error: E)

  /** A void computation that either completes or throws. */
  datatype Outcome<+E> = Pass | Fail(error: E)
}
