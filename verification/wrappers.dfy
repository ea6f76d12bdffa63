/** Failure-compatible wrappers: `Option` for values that may be absent (a JSON key that
    is not there, a diff that produced nothing) and `Result` for operations that raise. */
module Wrappers {

  /** A value that may be missing; Python's `None` is `None` here. */
  datatype Option<+T> = None | Some(value: T) {

    /** The wrapped value, or `default` when there is none. */
    function GetOr(default: T): T {
      match this
      case Some(v) => v
      case None => default
    }
  }

  /** The outcome of an operation that either returns a value or raises an error. */
  datatype Result<+R, +E> = Success(value: R) | Failure(error: E)
}
