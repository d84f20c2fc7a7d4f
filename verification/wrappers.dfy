/** Failure-carrying wrappers used for JavaScript's `undefined` and for thrown errors. */
module Wrappers {

  /** A value that may be missing; `None` stands for JavaScript `undefined`. */
  datatype Option<+T> = None | Some(value: T) {

    /** The value, or `default` when it is missing (a destructuring default). */
    function GetOr(default: T): T {
      match this
      case Some(v) => v
      case None => default
    }
  }

  /** The outcome of a call that may throw. */
  datatype Result<+R, +E> = Success(value: R) | Failure(error: E)
}
