/** Option and Result, the two wrappers every other module uses. */
module Wrappers {

  /** A value that may be absent: JavaScript's `null`/`undefined`, or `NaN` for a number. */
  datatype Option<+T> = None | Some(value: T) {
    function GetOr(default: T): T {
      match this
      case Some(v) => v
      case None => default
    }
  }

  /** The outcome of a call that either returns a value or throws an error. */
  datatype Result<+T, +E> = Ok(value: T) | Err(error: E)
}
