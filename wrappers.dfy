/** Optional values and results with an error, used where the source returns
    null or throws. */
module Wrappers {

  datatype Option<+T> = None | Some(value: T)

  /** The outcome of an operation that the source may abort by throwing. */
  datatype Result<+T> = Ok(value: T) | Err(message: string)
}
