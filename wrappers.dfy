/** Option and Result: the absent value and the thrown error of the modelled code. */
module Wrappers {

  datatype Option<+T> = None | Some(value: T)

  /** A computation that either yields a value or throws (or rejects) with an error. */
  datatype Result<+T, +E> = Ok(value: T) | Err(error: E)
}
