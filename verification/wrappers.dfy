/** Option and Result, the shapes used for the source's nullable values and error returns. */
module Wrappers {

  /** A value that may be absent: a TypeScript `null`/`undefined` or a Kotlin `null`. */
  datatype Option<+T> = None | Some(value: T) {

    /** The value, or `default` when absent (Kotlin's `?:`). */
    function GetOr(default: T): T {
      match this
      case Some(v) => v
      case None => default
    }
  }

  /** The outcome of an operation that can fail with an error value. */
  datatype Result<+R, +E> = Success(value: R) | Failure(error: E)
}
