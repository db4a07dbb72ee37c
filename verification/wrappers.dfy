/** Wrappers shared by the whole model: an optional value
    (a JavaScript property that may be absent) and a success-or-error result
    (the `cb(err, value)` convention of the client's callbacks). */
module Wrappers {

  datatype Option<+T> = None | Some(value: T) {

    /** The wrapped value, or `default` when absent. */
    function GetOr(default: T): T {
      match this
      case Some(v) => v
      case None => default
    }
  }

  datatype Result<+R, +E> = Success(value: R) | Failure(error: E)
}
