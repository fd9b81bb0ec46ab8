/** Failure-compatible wrappers used across the model.
    Option stands for a history slot that may hold NumPy's NaN marker;
    Result stands for an operation that can raise. */
module Wrappers {

  datatype Option<+T> = None | Some(value: T) {
    function GetOr(default: T): T {
      match this
      case Some(v) => v
      case None => default
    }
  }

  datatype Result<+R, +E> = Success(value: R) | Failure(error: E)
}
