/** Option and Result values, for the source's `Option<..>` and `Result<.., String>` returns. */
module Wrappers {

  datatype Option<+T> = None | Some(value: T)

  datatype Result<+R, +E> = Success(value: R) | Failure(error: E)
}
