/** Java's nullable references, made explicit. */
module Wrappers {

  /** `None` stands for a Java `null`; `Some(v)` for a present reference. */
  datatype Option<+T> = None | Some(value: T) {

    /** Returns the wrapped value, or `default` when absent. */
    function GetOr(default: T): T {
      match this
      case Some(v) => v
      case None => default
    }
  }
}
