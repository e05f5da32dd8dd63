/** Option and Result, the two failure-carrying datatypes the model uses. */
module Wrappers {

  /** A value that may be absent: pandas' `pd.NA`/`NaN` in a nullable column. */
  datatype Option<+T> = None | Some(value: T)

  /** The outcome of a stage that can raise: the value, or the error it raised. */
  datatype Result<+R, +E> = Success(value: R) | Failure(error: E)
}
