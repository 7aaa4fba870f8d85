/** Optional values and results shared by every module of the model. */
module Wrappers {

  /** A value that may be absent (Python's None, JavaScript's undefined). */
  datatype Option<+T> = None | Some(value: T)

  /** The outcome of a validator: the cleaned value, or the error it raises. */
  datatype Result<+T, +E> = Ok(value: T) | Err(error: E)
}
