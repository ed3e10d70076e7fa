/** Optional values, standing for JavaScript's `undefined` (and, where the
    source cannot tell them apart, `null`). */
module Wrappers {

  datatype Option<+T> = None | Some(value: T) {

    /** The value held, or `default` when there is none. */
    function GetOr(default: T): T {
      match this
      case Some(v) => v
      case None => default
    }
  }
}
