/** Option and Result values shared by the seeders. */
module Wrappers {
  datatype Option<+T> = None | Some(value: T)

  datatype Result<+R, +E> = Success(value: R) | Failure(error: E)
}
