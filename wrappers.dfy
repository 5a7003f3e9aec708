/** Option and Result, used for lookups that may miss and for the error
    paths of the views. */
module Wrappers {

  datatype Option<+T> = None | Some(value: T)

  datatype Result<+T, +E> = Ok(value: T) | Err(error: E)
}
