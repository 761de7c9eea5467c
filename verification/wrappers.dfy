/** Failure-carrying values shared by every module of the model. */
module Wrappers {

  /** A value that may be absent: JavaScript's `undefined`/`null`, or a query that found no row. */
  datatype Option<+T> = None | Some(value: T)

  /** Either a value or an error, for operations of the source that throw or call back with an error. */
  datatype Result<+T, +E> = Ok(value: T) | Err(error: E)
}
