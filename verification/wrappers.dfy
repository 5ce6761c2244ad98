/** Failure-compatible wrappers shared by every module of the model. */
module Wrappers {

  /** A value that may be absent (Python's `None`). */
  datatype Option<+T> = None | Some(value: T) {

    /** The wrapped value, or `default` when absent. */
    function GetOr(default: T): T {
      match this
      case Some(v) => v
      case None => default
    }
  }

  /** The outcome of an operation that may raise: a value or an error. */
  datatype Result<+T, +E> = Ok(value: T) | Err(error: E) {

    /** The value, or `default` when the operation raised (an exception caught and logged). */
    function GetOrDefault(default: T): T {
      match this
      case Ok(v) => v
      case Err(_) => default
    }
  }
}
