/** The Option type used for lookups that may miss and for operations whose
    Python counterpart raises an exception (None stands for "raised"). */
module Wrappers {

  datatype Option<+T> = None | Some(value: T) {

    /** The value when present, otherwise the given default (Python's `x or default`). */
    function GetOr(default: T): T {
      match this
      case Some(v) => v
      case None => default
    }
  }
}
