/** Optional values and results with an error, used where the store answers
    "no row" (SQL NULL / `undefined`) or rejects an operation. */
module Wrappers {

  /** A value that may be absent: SQL NULL, JavaScript `undefined` or `null`. */
  datatype Option<+T> = None | Some(value: T) {

    /** Returns the value, or `default` when absent. */
    function GetOr(default: T): T {
      match this
      case Some(v) => v
      case None => default
    }
  }

  /** The outcome of an operation that either produces a value or fails with an error. */
  datatype Result<+R, +E> = Success(value: R) | Failure(error: E)
}
