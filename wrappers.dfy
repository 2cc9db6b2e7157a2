/** Optional values and error results shared by every module of the model. */
module Wrappers {

  /** A value that may be absent: Go's nil pointer or nil map, Rust's `Option`. */
  datatype Option<+T> = None | Some(value: T)
  {
    function GetOr(default: T): T
    {
      match this
      case Some(v) => v
      case None => default
    }
  }

  /** The outcome of an operation that can fail: Go's `(value, error)` pair, Rust's `Result`. */
  datatype Result<+T, +E> = Ok(value: T) | Err(error: E)
}
