/** Optional values, standing in for Swift's `T?` (nil-able properties and
    failable initialisers such as `Int(String)`). */
module Wrappers {

  datatype Option<+T> = None | Some(value: T) {

    /** Swift's `x ?? default`. */
    function GetOr(default: T): T {
      match this
      case Some(v) => v
      case None => default
    }
  }
}
