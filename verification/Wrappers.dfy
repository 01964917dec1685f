/** The two result shapes shared by the modules of this project. */
module Wrappers {

  /** An optional value: the source's `None` or a value. */
  datatype Option<+T> = None | Some(value: T)

  /** What a call that may raise leaves its caller with. */
  datatype Result<+T, +E> = Ok(value: T) | Err(error: E)
}
