/** Failure-compatible wrappers used across the model. */
module Wrappers {

  /** A value that may be absent: the model's reading of a JavaScript `null`. */
  datatype Option<+T> = None | Some(value: T)

  /** The outcome of a store operation that either succeeds with a value or throws an error message. */
  datatype Result<+T> = Ok(value: T) | Err(message: string)
}
