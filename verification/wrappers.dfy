/** Optional values and outcomes that may end in a thrown JavaScript error. */
module Wrappers {

  /** A value that may be absent: JavaScript's `undefined` / `null`. */
  datatype Option<+T> = None | Some(value: T) {

    /** The value, or `default` when absent (JavaScript's `x ?? default`). */
    function GetOr(default: T): T {
      match this
      case Some(v) => v
      case None => default
    }
  }

  /** The outcome of an event handler: a new state, or a thrown `TypeError`. */
  datatype Result<+T> = Ok(value: T) | Thrown(reason: string)
}
