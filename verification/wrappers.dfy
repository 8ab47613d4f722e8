/** The byte type and the failure-carrying datatypes shared by every module of the build pipeline model. */
module Wrappers {

  /** One byte of a file, a key or an ident. */
  type byte = bv8

  /** A value that may be missing: a `nil` in the modelled program. */
  datatype Option<+T> = None | Some(value: T)

  /** The outcome of an operation that either yields a value or raises an error. */
  datatype Result<+R, +E> = Success(value: R) | Failure(error: E)
}
