/** Small failure-carrying datatypes shared by the controllers. */
module Wrappers {

  /** A value that may be absent: an omitted request field or a record not found. */
  datatype Option<+T> = None | Some(value: T)

  /** The outcome of an operation that either yields a value or fails with an error. */
  datatype Result<+R, +E> = Success(value: R) | Failure(error: E)

  /** The outcome of an operation that yields nothing on success. */
  datatype Outcome<+E> = Pass | Fail(error: E)
}
