/** Optional values and success/failure results shared by the other modules. */
module Wrappers {

  /** A value that may be absent. In the dynamic array it models a slot of
      the backing list: `None` is the placeholder the list is padded with. */
  datatype Option<+T> = None | Some(value: T)

  /** The outcome of an operation that can raise an error. */
  datatype Result<+R, +E> = Success(value: R) | Failure(error: E)
}
