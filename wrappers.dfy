/** Option and Result, used where the Python code returns None or raises. */
module Wrappers {

  datatype Option<T> = None | Some(value: T)

  /** `Err` carries the exception the Python code raises. */
  datatype Result<T, E> = Ok(value: T) | Err(error: E)
}
