/** Option and Result values standing in for Java's null returns and thrown exceptions. */
module Wrappers {

  datatype Option<+T> = None | Some(value: T)

  /** A computation that either produces a value or stops with an error, as a Java
      method that returns normally or throws. */
  datatype Result<+T, +E> = Ok(value: T) | Err(error: E)
}
