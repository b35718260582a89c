/** Failure-compatible wrappers used throughout the model: an optional value
    (a missing JSON key, a regular expression that did not match) and a result
    that is either a value or the exception that aborted the computation. */
module Wrappers {

  datatype Option<+T> = None | Some(value: T) {

    /** The wrapped value, or `default` when there is none. */
    function GetOr(default: T): T {
      match this
      case Some(v) => v
      case None => default
    }
  }

  datatype Result<+R, +E> = Success(value: R) | Failure(error: E)
}
