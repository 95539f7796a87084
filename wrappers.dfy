/** Option and Result values shared by the modules of this model. */
module Wrappers {

  /** A value that may be absent (a Java reference that may be null). */
  datatype Option<+T> = None | Some(value: T) {
    function GetOr(default: T): T {
      match this
      case Some(v) => v
      case None => default
    }
  }

  /** The outcome of an operation that may throw instead of returning. */
  datatype Result<+T, +E> = Ok(value: T) | Err(error: E)
}
