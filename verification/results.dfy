/** Failure-carrying values used in place of JavaScript's `undefined` and thrown errors. */
module Results {

  /** An optional value: an absent field, a regex that did not match, a key not found. */
  datatype Option<+T> = None | Some(value: T) {

    /** The value when present, `default` otherwise (JavaScript's `x || default`). */
    function GetOr(default: T): T {
      match this
      case Some(v) => v
      case None => default
    }
  }

  /** The outcome of a call that may throw. */
  datatype Result<+R, +E> = Success(value: R) | Failure(error: E)
}
