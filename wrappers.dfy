/** Option and Result, plus the HTTP error the handlers raise. */
module Wrappers {

  datatype Option<+T> = None | Some(value: T)

  datatype Result<+R, +E> = Success(value: R) | Failure(error: E)

  /** An `HTTPException`: a status code and a detail message. */
  datatype HttpError = HttpError(status: nat, detail: string)

  /** The status code every validation failure of the service uses. */
  const BadRequest: nat := 400
}
