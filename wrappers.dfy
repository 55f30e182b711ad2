/** Optional values and settled promises, used wherever the source returns null/undefined or throws. */
module Wrappers {

  /** `None` stands for JavaScript's `null` / `undefined`. */
  datatype Option<+T> = None | Some(value: T) {
    function GetOr(default: T): T {
      match this
      case Some(v) => v
      case None => default
    }
  }

  /** How an awaited promise settles: with its value, or rejected with the thrown error's message. */
  datatype Settled<+T> = Resolved(value: T) | Rejected(message: string)
}
