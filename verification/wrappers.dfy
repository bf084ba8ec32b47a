/** The optional-value type used for the store's "not found" sentinel. */
module Wrappers {

  /** `None` plays the part of JavaScript's `undefined` result. */
  datatype Option<+T> = None | Some(value: T) {

    /** The wrapped value, or `default` when there is none. */
    function GetOr(default: T): T {
      match this
      case Some(v) => v
      case None => default
    }
  }
}
