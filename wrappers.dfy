/** Option and Result types shared by the model. An `Error` carries the text of a Go `error`. */
module Wrappers {

  datatype Option<+T> = None | Some(value: T)

  datatype Error = Error(msg: string)

  /** The `(value, error)` pair that Go functions return: exactly one side is meaningful. */
  datatype Result<+T> = Ok(value: T) | Err(error: Error)
}
