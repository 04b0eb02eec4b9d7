/** Failure-carrying result types shared by the other modules. */
module Wrappers {

  /** A value that may be absent: a null pointer, a missing map key or a thrown exception. */
  datatype Option<+T> = None | Some(value: T)

  /** Either a value or the reason there is none. */
  datatype Result<+T, +E> = Success(value: T) | Failure(error: E)
}
