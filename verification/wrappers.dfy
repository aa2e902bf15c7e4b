/** Optional values, standing in for TypeScript's `T | undefined` and `T | null`. */
module Wrappers {

  datatype Option<+T> = None | Some(value: T) {

    /** The value if present, otherwise `default`. */
    function GetOr(default: T): T {
      match this
      case Some(v) => v
      case None => default
    }
  }
}
