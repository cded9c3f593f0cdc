/** Outcome types shared by the other modules. */
module Wrappers {

  /** A pointer or slice of the source that may be nil. */
  datatype Option<+T> = None | Some(value: T) {

    function GetOr(default: T): T {
      if Some? then value else default
    }
  }

  /** A value together with the possibility of an error return. */
  datatype Result<+T, +E> = Success(value: T) | Failure(error: E)
}
