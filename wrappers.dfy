/** Error-carrying results, as Go's `(value, error)` pairs are modelled here. */
module Wrappers {

  /** `Failure` carries the text that Go's `err.Error()` would give. */
  datatype Result<+T> = Success(value: T) | Failure(error: string)
}
