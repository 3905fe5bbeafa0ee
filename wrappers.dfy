/** Failure-carrying values used across the model. */
module Wrappers {

  /** A value that may be absent: a JavaScript `undefined`, a failed lookup. */
  datatype Option<+T> = None | Some(value: T)

  /** The outcome of an operation that either succeeds or reports why it did not. */
  datatype Result<+T, +E> = Ok(value: T) | Err(error: E)
}
