/** Option and Result, standing for JavaScript's absent values and thrown errors. */
module Wrappers {

  /** `None` stands for `null` or `undefined` where the source accepts or returns either. */
  datatype Option<+T> = None | Some(value: T)

  /** `Err` stands for an exception thrown by the source; it carries the error message. */
  datatype Result<+T, +E> = Ok(value: T) | Err(error: E)
}
