/** Option and Result values used for the optional fields of an artifact and
    for the outcomes of the external adapters. */
module Wrappers {

  datatype Option<+T> = None | Some(value: T)

  datatype Result<+T, +E> = Ok(value: T) | Err(error: E)
}
