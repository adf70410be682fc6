/** Failure-carrying datatypes shared by the geometry and collection modules. */
module Wrappers {

  /** A value that may be absent, as a Python variable that may not have been bound yet. */
  datatype Option<+T> = None | Some(value: T)

  /** The outcome of a step that may raise. */
  datatype Result<+R, +E> = Success(value: R) | Failure(error: E)
}
