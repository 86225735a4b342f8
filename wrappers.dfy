/** Optional values and results with an error, used for request arguments and for raised exceptions. */
module Wrappers {

  datatype Option<+T> = None | Some(value: T) {
    /** The value, or `default` when there is none (Python's `dict.get(key, default)`). */
    function GetOr(default: T): T {
      match this
      case Some(v) => v
      case None => default
    }
  }

  /** A computation that either returns a value or raises an exception of kind `E`. */
  datatype Result<+T, +E> = Ok(value: T) | Err(error: E)
}
