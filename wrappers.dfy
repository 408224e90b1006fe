/** Optional values and results with an error, the two shapes the planner's
    JavaScript expresses with `undefined`/`null` and early error responses. */
module Wrappers {

  datatype Option<+T> = None | Some(value: T) {

    /** The value, or the default when absent (JavaScript's `x || d` on a number field). */
    function GetOr(default: T): T {
      match this
      case Some(v) => v
      case None => default
    }
  }

  datatype Result<+T, +E> = Success(value: T) | Failure(error: E)
}
