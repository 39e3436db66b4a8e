/** Small failure-carrying datatypes shared by every module of the model. */
module Wrappers {

  /** A value that may be absent; Python's `None` (or a `False` result) is `None`. */
  datatype Option<+T> = None | Some(value: T) {
    function GetOr(default: T): T {
      match this
      case Some(v) => v
      case None => default
    }
  }
}
