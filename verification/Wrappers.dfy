/** Optional values and error results, shared by all modules. */
module Wrappers {
  datatype Option<+T> = None | Some(value: T)
  datatype Result<+T> = Success(value: T) | Failure(error: string)
}
