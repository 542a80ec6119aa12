/** Result types shared by the model. */
module Wrappers {
  datatype Option<+T> = None | Some(value: T)

  datatype Result<+T, +E> = Success(value: T) | Failure(error: E)

  type pos = n: nat | 0 < n witness 1

  function Min(a: int, b: int): int {
    if a <= b then a else b
  }
}
