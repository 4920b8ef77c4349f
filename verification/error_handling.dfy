/**
 * HTTP responses and the central error handler that turns every error a
 * handler passes on into exactly one response.
 */
module ErrorHandling {
  import opened Wrappers
  import opened ItemTypes
  import opened AppErrors

  /** A JSON response body, or none. */
  datatype Body =
    | NoContent
    | ErrorJson(error: Message)
    | ItemJson(item: Item)
    | ItemListJson(items: seq<Item>)

  datatype Response = Response(status: int, body: Body)

  /** The only message a client ever sees for an error that is not an `AppError`. */
  const InternalErrorMessage: string := "Internal server error"

  /**
   * `errorHandler`: an `AppError` answers with its own status and a JSON body holding its message;
   * anything else answers 500 with a fixed message.
   */
  function ErrorHandler(err: Thrown): (r: Response)
    ensures r.body.ErrorJson?
    ensures err.Raised? ==> r.status == err.error.StatusCode() && r.body.error == err.error.message
    ensures err.Unexpected? ==> r.status == 500 && r.body.error == Plain(InternalErrorMessage)
  {
    match err
    case Raised(e) => Response(e.StatusCode(), ErrorJson(e.message))
    case Unexpected(_) => Response(500, ErrorJson(Plain(InternalErrorMessage)))
  }

  /** An unexpected error's own message never reaches the client. */
  lemma UnexpectedErrorsLeakNothing(m1: string, m2: string)
    ensures ErrorHandler(Unexpected(m1)) == ErrorHandler(Unexpected(m2))
  {
  }

  /** Every kind of error lands on its status: 404, 400, the custom code, or 500. */
  lemma StatusFollowsKind(m: Message, code: int, text: string)
    ensures ErrorHandler(Raised(NewNotFoundError(Some(m)))).status == 404
    ensures ErrorHandler(Raised(NewNotFoundError(None))) == Response(404, ErrorJson(Plain("Not found")))
    ensures ErrorHandler(Raised(NewValidationError(text))) == Response(400, ErrorJson(Plain(text)))
    ensures ErrorHandler(Raised(NewAppError(code, m))) == Response(code, ErrorJson(m))
    ensures ErrorHandler(Unexpected(text)).status == 500
  {
  }
}
