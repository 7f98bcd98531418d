/** The optional value used wherever the source returns or accepts `null`
    (a missing map entry, a missing snapshot, allocation without a match). */
module Wrappers {

  datatype Option<+T> = None | Some(value: T) {

    /** The value, or `default` when there is none. */
    function GetOr(default: T): T {
      match this
      case Some(v) => v
      case None => default
    }
  }
}
