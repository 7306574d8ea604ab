/** Option and Result, the two failure-carrying values the rest of the model uses. */
module Wrappers {

  /** A value that may be absent: JavaScript's undefined / Python's None. */
  datatype Option<+T> = None | Some(value: T)

  /** Either a value or the error (thrown message, raised exception) that replaced it. */
  datatype Result<+T, +E> = Ok(value: T) | Err(error: E)
}
