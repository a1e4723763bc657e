/** The optional value used for JavaScript's `null`/`undefined` and Python's `None`. */
module Opt {

  datatype Option<+T> = None | Some(value: T) {

    /** JavaScript's `x ?? d` and Python's `x if x is not None else d`. */
    function GetOr(default: T): T {
      match this
      case Some(v) => v
      case None => default
    }
  }
}
