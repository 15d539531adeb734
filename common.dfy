/** Optional values and fallible results, the two shapes the components use
    for "may be undefined" props and for calls that can throw. */
module Common {

  /** A prop or field that may be `undefined`/`null`. */
  datatype Option<+T> = None | Some(value: T) {
    /** JavaScript's `x ?? d`. */
    function GetOr(default: T): T {
      match this
      case Some(v) => v
      case None => default
    }
  }

  /** The result of a call that either returns a value or throws. */
  datatype Result<+T> = Ok(value: T) | Err(message: string)
}
