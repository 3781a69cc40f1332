/** The two result shapes the core returns: a value that may be absent, and a value or an error. */
module Outcomes {

  datatype Option<T> = None | Some(value: T)

  datatype Result<T, E> = Success(value: T) | Failure(error: E)
}
