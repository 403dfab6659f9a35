/** The optional value used throughout the model: `None` stands for a Python
    call that raised (for operations on the file tree) or for an absent
    value (for lookups). */
module Wrappers {

  datatype Option<+T> = None | Some(value: T) {

    /** Returns the wrapped value, or `default` when there is none. */
    function GetOr(default: T): T {
      match this
      case Some(v) => v
      case None => default
    }
  }
}
