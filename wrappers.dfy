/** Option, Result and the Python exceptions the diff engine raises. */
module Wrappers {

  /** A value that Python would represent as either an object or `None`. */
  datatype Option<+T> = None | Some(value: T)

  /** The exception classes raised by the modelled code, with their messages. */
  datatype Error =
    | ValueError(message: string)
    | TypeError(message: string)
    | KeyError(key: string)

  /** A computation that returns a value or raises one of the exceptions above. */
  datatype Result<+T> = Ok(value: T) | Err(error: Error)
}
