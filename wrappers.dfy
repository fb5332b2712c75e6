/** Option and Result values shared by the modules of this model. */
module Wrappers {

  /** A value that may be missing, as Python's None. */
  datatype Option<+T> = None | Some(value: T)

  /** The outcome of an operation that the source may end by raising an exception. */
  datatype Result<+T, +E> = Ok(value: T) | Err(error: E)
}
