/** Option and Result values shared by the modules of the model. */
module Wrappers {

  datatype Option<+T> = None | Some(value: T)

  /** The outcome of a step that can raise: a value, or the error that ends the step. */
  datatype Result<+T, +E> = Ok(value: T) | Err(error: E)

}
