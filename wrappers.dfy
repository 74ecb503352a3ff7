/** Option and Result, used wherever the scripts return `undefined`, throw or exit early. */
module Wrappers {

  datatype Option<+T> = None | Some(value: T)

  datatype Result<+T, +E> = Ok(value: T) | Err(error: E)
}
