/** Option and Result: the nullable values and thrown errors of the PHP code. */
module Wrappers {

  /** A PHP `?T`: either null (None) or a value. */
  datatype Option<+T> = None | Some(value: T)

  /** A value, or the message of the exception thrown instead. */
  datatype Result<+T> = Ok(value: T) | Err(message: string)
}
