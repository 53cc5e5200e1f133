/** Option and Result types shared by every module, and the exceptions the
    pipeline raises. */
module Wrappers {

  datatype Option<+T> = None | Some(value: T)

  /** The Python exceptions the core raises, by class. */
  datatype Error =
    | KeyError(key: string)
    | TypeError(what: string)
    | ValueError(message: string)
    | RuntimeError(message: string)

  /** The outcome of a call that either returns a value or raises. */
  datatype Result<+T> = Ok(value: T) | Err(error: Error)
}
