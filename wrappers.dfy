/** Optional values and results that carry either a value or an error. */
module Wrappers {

  /** A value that may be absent (Rust's `Option`). */
  datatype Option<+T> = None | Some(value: T)

  /** A value, or the error an aborted transaction reports. */
  datatype Result<+T, +E> = Ok(value: T) | Err(error: E)
}
