/** Optional values and results with an error, as used throughout the items service. */
module Wrappers {

  /** A value that may be missing: JavaScript's `undefined` (and, where `??` is applied, `null`). */
  datatype Option<+T> = None | Some(value: T) {

    /** The value, or `default` when it is missing: the `??` operator. */
    function GetOr(default: T): T {
      match this
      case Some(v) => v
      case None => default
    }
  }

  /** A value, or the error that was thrown instead of returning it. */
  datatype Result<+R, +E> = Success(value: R) | Failure(error: E)
}
