/** Optional values and success-or-failure values, used for JavaScript's
    `null`/`undefined` and for promises that resolve or reject. */
module Wrappers {

  datatype Option<+T> = None | Some(value: T)

  datatype Result<+T, +E> = Success(value: T) | Failure(error: E)
}
