/** Failure-carrying values that stand in for Rust's Option and Result. */
module Wrappers {

  datatype Option<+T> = None | Some(value: T) {
    /** The contained value, or `default` when there is none (`unwrap_or`). */
    function GetOr(default: T): T {
      match this
      case Some(v) => v
      case None => default
    }
  }

  datatype Result<+T, +E> = Ok(value: T) | Err(error: E)

  /** A Result whose success carries nothing (`Result<(), E>`). */
  datatype Outcome<+E> = Pass | Fail(error: E)
}
