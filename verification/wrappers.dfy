/** Absence and failure values shared by every module of the model. */
module Wrappers {

  /** `None` stands for the source's `undefined` / `null`. */
  datatype Option<+T> = None | Some(value: T)

  /** A handler either produces a value or raises an error. */
  datatype Result<+T, +E> = Ok(value: T) | Err(error: E)
}
