/** Wrappers shared by the other modules. */
module Wrappers {

  /** A value that may be absent: an absent JSON key, an unbound variable, a falsy table entry. */
  datatype Option<+T> = None | Some(value: T)

  /** The outcome of an operation that the source can abort with an exception. */
  datatype Result<+R, +E> = Success(value: R) | Failure(error: E)
}
