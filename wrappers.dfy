/** Optional values and results shared by the modules of this model. */
module Wrappers {

  datatype Option<T> = None | Some(value: T)

  /** A value, or the error message the script reports instead of it. */
  datatype Result<T> = Ok(value: T) | Err(message: string)

  /** How a call ends: with a value, or with an exception that reaches its caller. */
  datatype Outcome<T> = Returned(value: T) | Raised(exception: string)
}
