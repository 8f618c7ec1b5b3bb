/** The outcome of an operation that the source ends by throwing. */
module Wrappers {

  datatype Result<+T, +E> = Success(value: T) | Failure(error: E)

}
