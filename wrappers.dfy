/** Optional values and results, used for PHP's loosely present array keys and for construction errors. */
module Wrappers {

  /** A value that may be absent. PHP's `isset` and `??` treat a missing key and `null` alike: both are None. */
  datatype Option<+T> = None | Some(value: T) {
    /** The value, or `default` when absent (PHP's `$a ?? $default`). */
    function GetOr(default: T): T {
      match this
      case Some(v) => v
      case None => default
    }
  }

  /** The outcome of an operation that may throw. */
  datatype Result<+T, +E> = Success(value: T) | Failure(error: E)
}
