/** Option and Result: Java's nullable references and thrown exceptions, as values. */
module Wrappers {

  /** A value that Java may leave `null`. */
  datatype Option<+T> = None | Some(value: T) {

    /** The value, or `default` when absent (Java's `x == null ? default : x`). */
    function GetOr(default: T): T {
      match this
      case Some(v) => v
      case None => default
    }
  }

  /** The outcome of a Java call that either returns a value or throws. */
  datatype Result<+R, +E> = Success(value: R) | Failure(error: E) {

    predicate IsFailure() {
      Failure?
    }

    function PropagateFailure<U>(): Result<U, E>
      requires Failure?
    {
      Failure(error)
    }

    function Extract(): R
      requires Success?
    {
      value
    }
  }
}
