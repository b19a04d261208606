/** Failure-carrying result types shared by the service and store models. */
module Wrappers {

  datatype Option<+T> = None | Some(value: T)

  /** The outcome of an operation that either yields a value or throws. */
  datatype Result<+T, +E> = Ok(value: T) | Err(error: E)
}
