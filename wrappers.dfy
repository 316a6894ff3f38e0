/** Option and Result values shared by the modules of this project. */
module Wrappers {

  /** Python's `None` or a present value. */
  datatype Option<+T> = None | Some(value: T)

  /** A value, or the exception the source would raise instead. */
  datatype Result<+R, +E> = Ok(value: R) | Err(error: E)
}
