/** Option and Result values shared by every module of the model. */
module Wrappers {

  datatype Option<+T> = None | Some(value: T)

  /** A value, or the message of the error the program reports instead. */
  datatype Result<+T> = Ok(value: T) | Err(message: string)
}
