/** Option and Result values: the model's stand-ins for null and for a call that throws. */
module Wrappers {

  /** A value that may be absent (a null reference, a nullable struct without a value). */
  datatype Option<+T> = None | Some(value: T) {

    /** The wrapped value, or `default` when there is none. */
    function GetOr(default: T): T {
      match this
      case Some(v) => v
      case None => default
    }
  }

  /** The outcome of a call that either returns a value or throws an error. */
  datatype Result<+T, +E> = Ok(value: T) | Err(error: E)
}
