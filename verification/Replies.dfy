/** What is replied to a request, by either connection. */
module Replies {
  /** How a request or notification handler ends. */
  datatype HandlerEnd = Returned(result: string) | Failed(message: string) | Panicked(text: string)

  datatype Body = ResultBody(result: string) | ErrorBody(message: string)

  /** A panic is caught and answered with an error. */
  function BodyOf(e: HandlerEnd): Body {
    match e
    case Returned(result) => ResultBody(result)
    case Failed(message) => ErrorBody(message)
    case Panicked(text) => ErrorBody("panic: " + text)
  }

  /** A reply that cannot be written is a panic, which is caught like one of the handler. */
  function BodyAfterFailure(reason: string): Body {
    ErrorBody("panic: api: failed to write response: " + reason)
  }
}
