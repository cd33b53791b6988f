/** The optional value used throughout the model.  `None` stands for a
    JavaScript value that is `undefined`, or for the number `NaN` where a
    numeric field failed to parse. */
module Wrappers {

  datatype Option<+T> = None | Some(value: T) {

    /** The value, or `default` when there is none. */
    function GetOr(default: T): T {
      match this
      case Some(v) => v
      case None => default
    }
  }
}
