/** Option and Result, shared by every module of the model. */
module Wrappers {
  datatype Option<+T> = None | Some(value: T)

  datatype Result<+T, +E> = Success(value: T) | Failure(error: E)

  /** The error classes the Go services distinguish; Unmapped is an error passed on as it came. */
  datatype Fault =
    | Unauthorized
    | SessionInvalid
    | InvalidInput
    | NotFound
    | AlreadyExists
    | InvalidAccess
    | LocalSource
    | Upstream
    | Unmapped
}
