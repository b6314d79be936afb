/** Option and Result values shared by the store and the route handlers. */
module Wrappers {

  /** A value that may be absent: a missing query parameter, a record not found. */
  datatype Option<+T> = None | Some(value: T)

  /** Either a checked value or the reason it was refused. */
  datatype Result<+R, +E> = Success(value: R) | Failure(error: E)
}
