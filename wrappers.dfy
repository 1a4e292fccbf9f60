/** Optional values and success/failure results shared by the client and server models. */
module Wrappers {

  /** A value that may be absent (a JSON field that is missing, a file that could not be read). */
  datatype Option<+T> = None | Some(value: T)

  /** The outcome of a call into a collaborator that can fail with a message. */
  datatype Result<+R, +E> = Success(value: R) | Failure(error: E)
}
