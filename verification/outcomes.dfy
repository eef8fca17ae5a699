/** Result and Option values used for the contracts' error returns. */
module Outcomes {

  datatype Option<T> = None | Some(value: T)

  /** The value of a contract entry point: `Ok` or the error it returned. */
  datatype Result<T, E> = Ok(value: T) | Err(error: E)
}
