/** Option and Result values used for the nullable fields and error responses of the planner. */
module Wrappers {

  /** A value that may be absent: JavaScript `null`/`undefined`, SQL NULL, or a NaN parse. */
  datatype Option<+T> = None | Some(value: T) {
    function GetOr(default: T): T {
      match this
      case Some(v) => v
      case None => default
    }
  }

  /** A route's answer: a value, or the error it reports to the caller. */
  datatype Result<+R, +E> = Ok(value: R) | Err(error: E)
}
