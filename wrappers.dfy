/** Failure-carrying results used across the model in place of Java exceptions. */
module Wrappers {

  datatype Option<+T> = None | Some(value: T)

  datatype Result<+T, +E> = Success(value: T) | Failure(error: E)

  /** The Java exceptions the modelled code lets propagate. */
  datatype Exception =
    | ArrayIndexOutOfBounds                  // System.arraycopy reading outside the key
    | IllegalArgument(reason: string)        // e.g. `new SecretKeySpec` given an empty key
    | GeneralSecurity(reason: string)        // raised by the JCE provider (bad key, bad padding, ...)
    | KeyExtraction(reason: string)          // raised by the key-extraction collaborator
    | JsonProcessing(reason: string)         // raised by the JSON serializer
}
