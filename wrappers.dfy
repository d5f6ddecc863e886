/** Option and Result values for the absent values (`None`) and the raised exceptions of the plugin. */
module Wrappers {

  datatype Option<+T> = None | Some(value: T)

  datatype Result<+R, +E> = Ok(value: R) | Err(error: E)
}
