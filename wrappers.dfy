/** Option and Result values shared by every chart model. */
module Wrappers {

  /** A value that may be absent: JavaScript's `null` / `undefined`. */
  datatype Option<+T> = None | Some(value: T)

  /** The outcome of an operation that may throw: `Err` carries the message of the thrown error. */
  datatype Result<+T> = Ok(value: T) | Err(message: string)
}
