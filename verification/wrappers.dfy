/** The wrappers used for the error paths of the model: a Python exception
    or an early `return False` becomes a `Failure` or `None` value instead
    of a precondition. */
module Wrappers {

  datatype Option<+T> = None | Some(value: T) {

    /** The value, or the default when there is none. */
    function GetOr(default: T): T {
      match this
      case Some(v) => v
      case None => default
    }
  }

  datatype Result<+R, +E> = Success(value: R) | Failure(error: E)
}
