/** The optional-value datatype shared by the other modules. */
module Wrappers {

  /** `None` stands for an absent value (Python's `None`). */
  datatype Option<+T> = None | Some(value: T) {

    /** The value, or `default` when it is `None`. */
    function GetOr(default: T): T {
      match this
      case Some(v) => v
      case None => default
    }
  }
}
