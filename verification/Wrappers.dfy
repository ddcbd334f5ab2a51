/** The two result types every component of the model shares. */
module Wrappers {

  /** A nullable column or an optional argument. */
  datatype Option<+T> = None | Some(value: T)

  /** A returned value, or the exception that ended the call. */
  datatype Result<+T, +E> = Ok(value: T) | Err(error: E)
}
