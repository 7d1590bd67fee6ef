/** Optional values and results with an error, shared by every module. */
module Wrappers {

  datatype Option<+T> = None | Some(value: T)

  /** The outcome of an operation that the pipeline can abort (a missing
      column raises KeyError in the pipeline). */
  datatype Result<+T, +E> = Ok(value: T) | Err(error: E)
}
