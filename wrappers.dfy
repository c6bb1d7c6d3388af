/** Failure-carrying values used across the model in place of Python exceptions. */
module Wrappers {

  /** A value that may be absent. */
  datatype Option<+T> = None | Some(value: T)

  /** Either a computed value or the error the Python code would raise. */
  datatype Result<+R, +E> = Success(value: R) | Failure(error: E)

  /** Either normal completion or the error the Python code would raise. */
  datatype Outcome<+E> = Pass | Fail(error: E)
}
