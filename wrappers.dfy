/** Optional values and results with an error, used for store look-ups and for
    the exceptions the service throws. */
module Wrappers {

  datatype Option<+T> = None | Some(value: T)

  datatype Result<+T, +E> = Ok(value: T) | Err(error: E)
}
