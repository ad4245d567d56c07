/** Option<T> is a cell that may be missing (NaN, an unmapped month);
 * Result<R, E> is a computation that returns a value or raises. */
module Wrappers {

  datatype Option<+T> = None | Some(value: T)

  datatype Result<+R, +E> = Success(value: R) | Failure(error: E)
}
