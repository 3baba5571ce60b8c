/** Optional values: a request field that may be missing, a lookup that may find nothing. */
module Wrappers {

  datatype Option<T> = None | Some(value: T) {

    /** The value carried by Some, or `default` for None (JavaScript's `x || default`
        for a value that is either present or undefined). */
    function GetOr(default: T): T {
      match this
      case Some(v) => v
      case None => default
    }
  }
}
