/** Absent values (`undefined`/`null`) and thrown errors, as values. */
module Wrappers {

  datatype Option<+T> = None | Some(value: T) {
    /** `x ?? d` */
    function GetOr(default: T): T {
      match this
      case Some(v) => v
      case None => default
    }
  }

  /** The outcome of a call that may throw an `Error` with the given message. */
  datatype Result<+T> = Ok(value: T) | Err(message: string)

  /** The outcome of a call that returns nothing or throws. */
  datatype Outcome = Pass | Fail(message: string)
}
