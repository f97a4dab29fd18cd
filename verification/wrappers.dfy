/** Failure-carrying datatypes shared by the model. */
module Wrappers {

  /** A value that may be absent: a missing cookie, a missing session key. */
  datatype Option<+T> = None | Some(value: T) {
    function GetOr(default: T): T {
      match this
      case Some(v) => v
      case None => default
    }
  }

  /** The outcome of an operation that may raise, as Python's `int()` does. */
  datatype Result<+R, +E> = Success(value: R) | Failure(error: E)
}
