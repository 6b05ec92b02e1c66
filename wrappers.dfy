/** Option and Result, and the Python exceptions the core can raise. */
module Wrappers {

  datatype Option<+T> = None | Some(value: T)

  /** The exceptions that escape the core's operations. */
  datatype Error =
    | IOError     // the watermark file does not exist yet
    | ValueError  // int() of text that is not a decimal integer
    | IndexError  // a whitespace-separated token the line does not have

  /** The value an operation returns, or the exception it raises. */
  datatype Result<+T> = Ok(value: T) | Err(error: Error)
}
