/** Option type shared by every module of the model. */
module Wrappers {

  /** A value that may be absent (an `undefined` field, a failed call). */
  datatype Option<+T> = None | Some(value: T) {

    /** The value if present, otherwise `default`. */
    function GetOr(default: T): T {
      match this
      case Some(v) => v
      case None => default
    }
  }
}
