/** Option, Result and Outcome: the shapes used for values that may be absent
    (`undefined` in the source) and for operations that may throw. */
module Wrappers {

  datatype Option<+T> = None | Some(value: T)

  datatype Result<+R, +E> = Success(value: R) | Failure(error: E)

  /** The completion of a statement that returns nothing: normal, or thrown. */
  datatype Outcome<+E> = Pass | Fail(error: E)
}
