/** Optional values and results, standing in for JavaScript's `undefined`
    and for an exception thrown by a property access. */
module Wrappers {

  datatype Option<+T> = None | Some(value: T)

  datatype Result<+R, +E> = Success(value: R) | Failure(error: E)
}
