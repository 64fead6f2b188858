/** The harness raises instead of returning errors; the model returns them. */
module Wrappers {

  datatype Result<T, E> = Ok(value: T) | Err(error: E)
}
