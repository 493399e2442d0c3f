/** Failure-carrying values: the model's stand-in for PHP's null defaults and exceptions. */
module Wrappers {

  /** An optional value: PHP's `null` default arguments become `None`. */
  datatype Option<+T> = None | Some(value: T) {
    /** The wrapped value, or `default` when there is none (PHP's `??`). */
    function GetOr(default: T): T {
      match this
      case Some(v) => v
      case None => default
    }
  }

  /** The result of an operation that may throw instead of returning. */
  datatype Result<+R, +E> = Success(value: R) | Failure(error: E)
}
