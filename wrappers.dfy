/** Optional values and error results, used for missing cells and for the
    failures that send the loader to its fallback table. */
module Wrappers {

  /** A cell that may be missing (pandas NaN) or hold a value. */
  datatype Option<+T> = None | Some(value: T)

  /** The outcome of an operation that can fail. */
  datatype Result<+T, +E> = Success(value: T) | Failure(error: E)
}
