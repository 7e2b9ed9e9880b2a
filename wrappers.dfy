/** Optional values and raising operations, shared by every module of the model. */
module Wrappers {

  /** Python's `None` or a present value. */
  datatype Option<+T> = None | Some(value: T)

  /** An operation that either yields a value or raises an exception whose
      `str(e)` is `error`. */
  datatype Result<+T> = Success(value: T) | Failure(error: string)
}
