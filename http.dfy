/** The responses the handlers produce, reduced to their status code and payload. */
module Http {

  /** One key/value parameter of a structured validation error. */
  datatype Parameter = Parameter(key: string, value: string)

  /** One entry of an `Errors` payload. */
  datatype Error = Error(message: string, parameters: seq<Parameter>)

  /** A body sent with a plain-text response: either text or a serialised `Errors` payload. */
  datatype Payload = PlainText(text: string) | ErrorList(errors: seq<Error>)

  /** The one response a handler completes with; `StatusCode` maps it to HTTP. */
  datatype Response<R> =
    | Ok(entity: R)
    | OkPage(records: seq<R>, totalRecords: int)
    | Created(entity: R, location: string)
    | NoContent
    | BadRequest(text: string)
    | NotFound(body: Payload)
    | Unprocessable(errors: seq<Error>)
    | ServerError(text: string)
  {
    function StatusCode(): int
    {
      match this
      case Ok(_) => 200
      case OkPage(_, _) => 200
      case Created(_, _) => 201
      case NoContent => 204
      case BadRequest(_) => 400
      case NotFound(_) => 404
      case Unprocessable(_) => 422
      case ServerError(_) => 500
    }
  }

  /** The `Errors` payload that the validation helper builds: one error naming a field and its value. */
  function ValidationErrorMessage(field: string, value: string, message: string): seq<Error>
  {
    [Error(message, [Parameter(field, value)])]
  }

  /** The `Errors` payload of `respondWithError`: one error with a message and no parameters. */
  function PlainError(message: string): (errors: seq<Error>)
    ensures |errors| == 1 && errors[0].message == message && errors[0].parameters == []
    ensures forall field, value, text :: errors != ValidationErrorMessage(field, value, text)
  {
    [Error(message, [])]
  }
}
