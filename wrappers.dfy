/** Option and Result, the two failure-carrying wrappers the model uses for the
    source's `None` phases and for the Python exceptions it raises. */
module Wrappers {

  datatype Option<+T> = None | Some(value: T)

  datatype Result<+T, +E> = Ok(value: T) | Err(error: E)
}
