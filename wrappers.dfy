/** Option and Result values that stand for the source's nullable results and thrown exceptions. */
module Wrappers {

  /** `null` or a value. */
  datatype Option<+T> = None | Some(value: T)

  /** A computed value, or the error the source would have thrown. */
  datatype Result<+T, +E> = Ok(value: T) | Err(error: E)
}
