/** The wrappers used for absent values and for the error outcomes that the source raises as
    exceptions. */
module Wrappers {

  datatype Option<+T> = None | Some(value: T)

  /** Success carries the computed value; Failure carries the error the source would raise. */
  datatype Result<+R, +E> = Success(value: R) | Failure(error: E)
}
