/** Optional values and the outcome of a call that may raise, as the Python source does. */
module Wrappers {

  datatype Option<+T> = None | Some(value: T) {
    function GetOr(default: T): T {
      match this
      case Some(v) => v
      case None => default
    }
  }

  /** The Python exceptions the modelled methods can raise. */
  datatype PyError =
    | KeyError(key: string)            // a dictionary lookup of a missing key
    | UnboundLocalError(name: string)  // a local variable read before any assignment
    | ValueError                       // `int(...)` of a value that is not an integer literal

  /** What a Python call does: returns a value or raises. */
  datatype Outcome<+T> = Returned(value: T) | Raised(error: PyError)
}
