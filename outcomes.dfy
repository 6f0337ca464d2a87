/** Return values standing in for the Python exceptions the core can raise. */
module Outcomes {

  datatype Option<T> = None | Some(value: T)

  /** The Python exception kinds that the modelled code can raise, with their key or message. */
  datatype Error =
    | KeyError(key: string)
    | ValueError(message: string)
    | IndexError(message: string)

  datatype Result<T> = Ok(value: T) | Err(error: Error)
}
