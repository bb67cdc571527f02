/** Option type standing in for nullable pointers and for Python's `Optional`. */
module Wrappers {

  datatype Option<+T> = None | Some(value: T) {
    predicate IsFailure() { None? }

    function GetOr(default: T): T {
      match this
      case Some(v) => v
      case None => default
    }
  }
}
