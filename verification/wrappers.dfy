/** Failure-carrying results, standing for the exceptions the estimator raises. */
module Wrappers {

  datatype Result<+T, +E> = Success(value: T) | Failure(error: E)

  /** The exceptions the modelled code raises. */
  datatype Error = ValueError(message: string)
}
