/** Optional values and results of operations that can fail. */
module Wrappers {

  /** A nullable reference: a foreign key that may be NULL, or a lookup that may miss. */
  datatype Option<+T> = None | Some(value: T)

  /** The outcome of a request handler or a storage operation. */
  datatype Result<+T, +E> = Ok(value: T) | Err(error: E)
}
