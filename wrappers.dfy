/** The nullable values and the success-or-error outcomes shared by the golf modules. */
module Wrappers {

  /** A value that may be missing: the source's `T | null`. */
  datatype Option<+T> = None | Some(value: T)

  /** The outcome of an operation that either produces a value or is refused with an error. */
  datatype Result<+R, +E> = Success(value: R) | Failure(error: E)
}
