/** Option and Result, the two failure-carrying wrappers the wiki model uses. */
module Wrappers {

  datatype Option<+T> = None | Some(value: T)

  /** Either a value or the error that prevented computing it (Go's `(value, error)` pair). */
  datatype Result<+T, +E> = Ok(value: T) | Err(error: E)
}
