/** Option and Result, the shapes every fallible operation of the extension returns. */
module Wrappers {

  /** `None` stands for JavaScript's `null`/`undefined` where a value may be absent. */
  datatype Option<+T> = None | Some(value: T)

  /** `Err` carries the message of an `Error` the source throws. */
  datatype Result<+T, +E> = Ok(value: T) | Err(error: E)
}
