/** Option and Result, the two wrappers the model uses for absent fields and for thrown errors. */
module Wrappers {

  /** An optional value: a field that may be undefined in the task's JSON. */
  datatype Option<+T> = None | Some(value: T)

  /** The outcome of a computation that may throw. */
  datatype Result<+T, +E> = Success(value: T) | Failure(error: E)
}
