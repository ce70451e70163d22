/** Option and Result, the two failure-carrying datatypes the rest of the model uses. */
module Wrappers {

  /** A value that may be absent: JavaScript's `undefined`, C#'s `null`. */
  datatype Option<+T> = None | Some(value: T) {
    function GetOr(default: T): T {
      match this
      case Some(v) => v
      case None => default
    }
  }

  /** The outcome of an operation that may throw: `Failure` carries the error message. */
  datatype Result<+T> = Success(value: T) | Failure(error: string) {
    predicate IsFailure() {
      Failure?
    }
  }
}
