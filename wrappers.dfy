/** Option, Result and Outcome: the model's stand-ins for Python's None,
    raised exceptions and assertion helpers that either return or raise. */
module Wrappers {

  datatype Option<+T> = None | Some(value: T)

  /** A computation that either produces a value or raises `error`. */
  datatype Result<+T, +E> = Ok(value: T) | Err(error: E)

  /** A check that either passes or raises `error`. */
  datatype Outcome<+E> = Pass | Fail(error: E)
}
