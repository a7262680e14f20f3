/** Option and Result values standing in for JavaScript's null/undefined and thrown errors. */
module Wrappers {

  /** A value that may be absent (`null` / `undefined` on the JavaScript side). */
  datatype Option<+T> = None | Some(value: T) {

    /** The value, or `default` when absent (`x ?? default`). */
    function GetOr(default: T): T {
      match this
      case Some(v) => v
      case None => default
    }
  }

  /** The outcome of an operation that either returns a value or throws. */
  datatype Result<+R, +E> = Success(value: R) | Failure(error: E)
}
