/** Option and Result, the two wrappers the model uses for Go's nil values
    and for Go's (value, error) returns. */
module Wrappers {

  /** A value that may be absent; `None` stands for Go's nil. */
  datatype Option<+T> = None | Some(value: T)

  /** The outcome of an operation that returns a value or an error. */
  datatype Result<+T, +E> = Ok(value: T) | Err(error: E)
}
