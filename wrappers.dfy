/** Optional values and outcomes that may fail with a message. */
module Wrappers {

  /** A value that may be absent: JavaScript's `undefined`/`null` next to a real value. */
  datatype Option<+T> = None | Some(value: T) {

    /** The value, or `default` when there is none. */
    function GetOr(default: T): T {
      match this
      case Some(v) => v
      case None => default
    }
  }

  /** The result of an operation that either returns a value or throws an error message. */
  datatype Result<+R> = Success(value: R) | Failure(error: string)
}
