/** Optional values: the model's stand-in for JavaScript's `undefined` / `null`. */
module Wrappers {

  /** `None` is an absent (undefined or null) value, `Some(v)` a present one. */
  datatype Option<+T> = None | Some(value: T) {

    /** The present value, or `default` when absent (JavaScript's `x ?? default`). */
    function GetOr(default: T): T
    {
      match this
      case Some(v) => v
      case None => default
    }
  }

  /** A settled promise: what an interceptor hands on to the next stage. */
  datatype Settled<+T, +E> = Fulfilled(value: T) | Rejected(reason: E)
}
