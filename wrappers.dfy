/** Optional values and results: Go's nil pointers and (value, error) pairs. */
module Wrappers {

  /** An optional value; `None` stands for a nil pointer or a nil slice where nil is distinct. */
  datatype Option<+T> = None | Some(value: T) {

    /** The value, or `default` when there is none (Go's "if p != nil { x = *p }"). */
    function GetOr(default: T): T {
      match this
      case Some(v) => v
      case None => default
    }
  }

  /** A value or the error that was returned instead of it. */
  datatype Result<+T, +E> = Success(value: T) | Failure(error: E)
}
