/** The optional value and error-or-value types used throughout the model. */
module Wrappers {

  /** A value that may be absent: PHP's `null` for a field the parser did not find. */
  datatype Option<+T> = None | Some(value: T)

  /** A computation that either yields a value or fails with an error (a thrown exception). */
  datatype Result<+T, +E> = Ok(value: T) | Err(error: E)
}
