/** Optional values and settled outcomes, the two shapes every layer of the
    client model returns. */
module Wrappers {

  /** A value that may be absent: JavaScript's `undefined`/`null`. */
  datatype Option<+T> = None | Some(value: T) {

    /** The wrapped value, or `default` when absent. */
    function GetOr(default: T): T {
      match this
      case Some(v) => v
      case None => default
    }
  }

  /** How a promise settles: resolved with a value or rejected with an error. */
  datatype Result<+V, +E> = Ok(value: V) | Err(error: E)
}
