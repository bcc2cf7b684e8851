/** Small failure-carrying wrappers shared by the other modules. */
module Wrappers {

  /** `None` stands for Python's `None` result (a row that was not found). */
  datatype Option<+T> = None | Some(value: T)

  /** The outcome of an operation that either yields a value or fails with an error. */
  datatype Result<+T, +E> = Ok(value: T) | Err(error: E)
}
