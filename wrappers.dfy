/** Optional values and results with an error, as used throughout the model. */
module Wrappers {

  /** A value that may be absent: a dictionary key that is not there, a parse that failed. */
  datatype Option<+T> = None | Some(value: T) {

    /** The value, or `default` when absent (Python's `dict.get(key, default)`). */
    function GetOr(default: T): T {
      match this
      case Some(v) => v
      case None => default
    }
  }

  /** Either a value or an error. */
  datatype Result<+T, +E> = Ok(value: T) | Err(error: E)
}
