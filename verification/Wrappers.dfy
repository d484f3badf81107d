/** The results of operations that can fail. */
module Wrappers {
  datatype Option<+T> = None | Some(value: T)

  /** The exceptions and status codes of the library that the model distinguishes. */
  datatype Error = InvalidParameter | InternalError | VerificationFailed | GeneralError | HardenedPublic | BadKey

  datatype Result<+T> = Success(value: T) | Failure(error: Error)
}
