/** Failure-compatible wrappers used by the handler models: `Option` stands for
    a JavaScript value that may be `undefined`, `Result` for an async handler
    that either resolves with a value or rejects with an error. */
module Wrappers {

  /** A value that may be absent (`undefined` / `null` in the handlers). */
  datatype Option<+T> = None | Some(value: T) {

    /** The value, or `default` when absent (JavaScript's `??`). */
    function GetOr(default: T): T
    {
      match this
      case Some(v) => v
      case None => default
    }
  }

  /** The outcome of a handler invocation: resolved or rejected. */
  datatype Result<+R, +E> = Success(value: R) | Failure(error: E) {

    predicate IsFailure() {
      Failure?
    }

    function PropagateFailure<U>(): Result<U, E>
      requires Failure?
    {
      Failure(error)
    }

    function Extract(): R
      requires Success?
    {
      value
    }
  }
}
