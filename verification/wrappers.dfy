/** An optional value and a success-or-error result: `Option` for a value
    that may be absent (a missing JavaScript property, a walk that ran out
    of draws) and `Result` for an operation that can fail with an error
    value. */
module Wrappers {

  datatype Option<+T> = None | Some(value: T) {

    /** The wrapped value, or `default` when there is none. */
    function GetOr(default: T): T {
      match this
      case Some(v) => v
      case None => default
    }
  }

  datatype Result<+R, +E> = Success(value: R) | Failure(error: E)
}
