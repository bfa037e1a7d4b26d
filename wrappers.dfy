/** Option and Result wrappers shared by the other modules. */
module Wrappers {

  /** An optional value: Java's nullable references. */
  datatype Option<+T> = None | Some(value: T)

  /** Either a value or the exception the source raises instead. */
  datatype Result<+T, +E> = Ok(value: T) | Err(error: E)
}
