/** Optional values (C# `null`) and the outcome of a call that can throw. */
module Wrappers {

  /** `None` stands for a C# null reference. */
  datatype Option<+T> = None | Some(value: T)

  /** `Failure(e)` is a call that threw `e`. */
  datatype Result<+T, +E> = Success(value: T) | Failure(error: E)
}
