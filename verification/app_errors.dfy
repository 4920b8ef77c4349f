/**
 * The application's error taxonomy: an `AppError` carries the HTTP status
 * it stands for and a message; `NotFoundError` and `ValidationError` fix the
 * status to 404 and 400.
 */
module AppErrors {
  import opened Wrappers

  /**
   * An error message. `ItemNotFound(id)` is the text
   * "Item with id {id} not found", with `id` written as JavaScript writes numbers.
   */
  datatype Message = Plain(text: string) | ItemNotFound(id: real)

  /** An `AppError`, tagged by the class that constructed it. */
  datatype AppError =
    | Custom(code: int, message: Message)
    | NotFound(message: Message)
    | Validation(message: Message)
  {
    /** The read-only `statusCode`. */
    function StatusCode(): int {
      match this
      case Custom(code, _) => code
      case NotFound(_) => 404
      case Validation(_) => 400
    }

    /** The `name` property, which is the constructing class's name. */
    function Name(): string {
      match this
      case Custom(_, _) => "AppError"
      case NotFound(_) => "NotFoundError"
      case Validation(_) => "ValidationError"
    }
  }

  /** Anything a request handler can throw: an `AppError`, or any other error. */
  datatype Thrown = Raised(error: AppError) | Unexpected(message: string)

  /** The message `NotFoundError` uses when it is given none. */
  const DefaultNotFoundMessage: string := "Not found"

  /** The `AppError` constructor keeps the status and the message exactly. */
  function NewAppError(statusCode: int, message: Message): (e: AppError)
    ensures e.StatusCode() == statusCode && e.message == message
    ensures e.Name() == "AppError"
  {
    Custom(statusCode, message)
  }

  /** The `NotFoundError` constructor: status 404, and "Not found" when no message is given. */
  function NewNotFoundError(message: Option<Message>): (e: AppError)
    ensures e.StatusCode() == 404
    ensures message.Some? ==> e.message == message.value
    ensures message.None? ==> e.message == Plain(DefaultNotFoundMessage)
  {
    NotFound(message.GetOr(Plain(DefaultNotFoundMessage)))
  }

  /** The `ValidationError` constructor: status 400 with the given message. */
  function NewValidationError(message: string): (e: AppError)
    ensures e.StatusCode() == 400 && e.message == Plain(message)
  {
    Validation(Plain(message))
  }
}
