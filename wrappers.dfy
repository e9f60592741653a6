/** Option and Result, for missing values and for the error paths of the selectors. */
module Wrappers {

  /** A value that may be absent, as awkward's `None` in an option-typed column. */
  datatype Option<+T> = None | Some(value: T)

  /** The outcome of a call that may raise instead of returning. */
  datatype Result<+R, +E> = Success(value: R) | Failure(error: E)
}
