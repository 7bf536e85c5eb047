/** The usual optional and fallible values. */
module Wrappers {

  datatype Option<+T> = None | Some(value: T) {

    /** The value held, or the given one when there is none. */
    function UnwrapOr(default: T): T {
      match this
      case Some(v) => v
      case None => default
    }
  }

  datatype Result<+T, +E> = Ok(value: T) | Err(error: E)
}
