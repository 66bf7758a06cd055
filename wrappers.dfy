/** The optional value used wherever the program yields `undefined`, `null` or `NaN`. */
module Wrappers {

  datatype Option<+T> = None | Some(value: T)

  /** A computation that either yields a value or stops with the reason it failed. */
  datatype Result<+T, +E> = Ok(value: T) | Err(error: E)
}
