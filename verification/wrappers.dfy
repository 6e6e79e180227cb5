/** Failure-carrying results shared by every module of the wallet model. */
module Wrappers {

  /** A value that may be absent: JavaScript's `null`/`undefined` on one side,
      a present value on the other. */
  datatype Option<+T> = None | Some(value: T) {
    function GetOr(default: T): T {
      match this
      case Some(v) => v
      case None => default
    }
  }

  /** An operation that either produces a value or fails with the message of
      the `Error` the JavaScript code would throw. */
  datatype Result<+T> = Ok(value: T) | Err(message: string)
}
