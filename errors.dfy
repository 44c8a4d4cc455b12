/** The errors the backend's code can throw, by kind. Route handlers either
    turn them into a response of their own or pass them to the framework's
    error handler. */
module Errors {

  datatype Thrown =
    | ValidationError                 // a schema validator rejected a document
    | CastError                       // a request string is not an identifier
    | DuplicateKey                    // a unique index already holds the value
    | StoreFailure                    // the document store could not be reached
    | TypeError                       // a method was called on a non-string value
    | StorageFailure                  // the object store rejected a request
    | StatusError(status: nat, message: string)  // an `Error` with a `status` property
    | Message(message: string)        // a plain `new Error(message)`

  /** The status the framework's default error handler answers with for an
      error passed to `next(err)`: the error's own `status` when it is a
      client or server error status, 500 otherwise. */
  function DefaultStatus(e: Thrown): (s: nat)
    ensures 400 <= s < 600
    ensures e.StatusError? && 400 <= e.status < 600 ==> s == e.status
    ensures !e.StatusError? ==> s == 500
  {
    if e.StatusError? && 400 <= e.status < 600 then e.status else 500
  }
}
