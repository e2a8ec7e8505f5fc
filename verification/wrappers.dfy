/** Failure-carrying datatypes shared by every module of the model. */
module Wrappers {

  /** A value that may be absent: a query's `.first()` that found no row. */
  datatype Option<+T> = None | Some(value: T)

  /** Either a value or the error the source raises instead (a 404, a validation error). */
  datatype Result<+T, +E> = Ok(value: T) | Err(error: E)
}
