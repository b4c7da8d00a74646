/** Option and Result: `null`/`undefined` values and thrown errors of the application. */
module Wrappers {

  /** A value that may be absent (`null` or `undefined` in the application). */
  datatype Option<+T> = None | Some(value: T) {
    function GetOr(default: T): T {
      match this
      case Some(v) => v
      case None => default
    }
  }

  /** The outcome of an action that either returns a value or throws an error. */
  datatype Result<+T, +E> = Success(value: T) | Failure(error: E)
}
