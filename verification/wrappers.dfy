/** Failure-carrying datatypes shared by the whole model: a missing value, and a
    value-or-error standing in for Python's "return or raise". */
module Wrappers {

  datatype Option<+T> = None | Some(value: T)

  datatype Result<+T, +E> = Ok(value: T) | Err(error: E)
}
