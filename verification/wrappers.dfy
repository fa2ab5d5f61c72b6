/** Optional values, results, and the exception classes the modelled code raises. */
module Wrappers {

  /** Python's `None` versus a present value. */
  datatype Option<+T> = None | Some(value: T)

  /** The exception classes raised by the modelled code, without their messages. */
  datatype Error =
    | ValueError
    | KeyError
    | NotImplementedError
    | DoesNotExist          // `Model.DoesNotExist` from `.get()` / `.latest()`
    | IntegrityError        // a database constraint rejected a write

  /** A value, or the exception that was raised instead of producing it. */
  datatype Result<+R> = Ok(value: R) | Err(error: Error)
}
