/** Result type used to model the exceptions thrown by the reflective
    conversion. */
module Wrappers {

  /** Either a computed value or the reason the computation failed. */
  datatype Result<+R, +E> = Success(value: R) | Failure(error: E)
}
