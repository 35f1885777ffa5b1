/** Failure-carrying values shared by the other modules. */
module Wrappers {

  /** A value that may be absent (Python's `None`). */
  datatype Option<+T> = None | Some(value: T) {
    function GetOr(default: T): T {
      match this
      case Some(v) => v
      case None => default
    }
  }

  /** The outcome of an operation that can fail with a message. */
  datatype Result<+T> = Ok(value: T) | Err(error: string)
}
