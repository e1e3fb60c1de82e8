/** Option and Result, the failure-carrying values used throughout the model. */
module Wrappers {

  /** A value that may be absent, as Python's `None` or a missing XML child. */
  datatype Option<+T> = None | Some(value: T) {
    function GetOr(default: T): T {
      match this
      case Some(v) => v
      case None => default
    }
  }

  /** The outcome of an operation that the source can abort with an exception. */
  datatype Result<+T, +E> = Success(value: T) | Failure(error: E)
}
