/** Failure-compatible wrappers used across the model. */
module Wrappers {

  /** A value that may be absent: the `null` / `undefined` results of the source. */
  datatype Option<+T> = None | Some(value: T) {
    function GetOr(default: T): T {
      match this
      case Some(v) => v
      case None => default
    }
  }

  /** A computation that either yields a value or fails with an error code. */
  datatype Result<+T, +E> = Ok(value: T) | Err(error: E)
}
