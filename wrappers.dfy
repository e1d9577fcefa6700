/** Small value wrappers shared by the modules of the pearl bot model. */
module Wrappers {

  /** A value that may be absent: a Discord option that was not given, a JSON field that is missing. */
  datatype Option<+T> = None | Some(value: T) {

    /** The wrapped value, or `default` when there is none. */
    function GetOr(default: T): T {
      match this
      case Some(v) => v
      case None => default
    }
  }
}
