/** Optional values and error-or-value results used throughout the launcher model. */
module Wrappers {

  /** Python's `None` or a present value. */
  datatype Option<+T> = None | Some(value: T) {

    /** The value when present, `default` otherwise. */
    function GetOr(default: T): T {
      match this
      case Some(v) => v
      case None => default
    }
  }

  /** A computation that either produced a value or stopped with an error. */
  datatype Result<+T, +E> = Ok(value: T) | Err(error: E)
}
