/** Option and Result: the absent field and the failed computation, made explicit. */
module Wrappers {

  /** A value that may be missing, such as a blank CSV cell. */
  datatype Option<+T> = None | Some(value: T)

  /** The outcome of a computation that the program would abort. */
  datatype Result<+R, +E> = Success(value: R) | Failure(error: E)
}
