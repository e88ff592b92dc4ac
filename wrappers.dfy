/** The two failure-carrying datatypes the model uses for Python's `None` and exceptions. */
module Wrappers {

  datatype Option<+T> = None | Some(value: T)

  /** `Err` stands for an exception the script raises or catches. */
  datatype Result<+T, +E> = Ok(value: T) | Err(error: E)
}
