/** Optional values (TypeScript's `T | null | undefined`) and results that carry an error. */
module Wrappers {

  datatype Option<+T> = None | Some(value: T)

  datatype Result<+T, +E> = Success(value: T) | Failure(error: E)
}
