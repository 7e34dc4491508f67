/** Failure-compatible wrappers shared by the escrow model. */
module Outcomes {

  /** A value that may be absent (a missing object property, `undefined`, Python's `None`). */
  datatype Option<+T> = None | Some(value: T)

  /** The outcome of a request handler: a success payload or an error kind. */
  datatype Result<+T, +E> = Success(value: T) | Failure(error: E)
}
