/** The client's error type, with only the payloads the model looks at:
    whether an HTTP client error is a timeout, and the status and message
    of an error response. `InvalidParams` is the argument-validation error
    that `push` returns. */
module Errors {
  newtype u16 = x: int | 0 <= x < 0x1_0000

  datatype Error =
    | Connection
    | HttpClient(isTimeout: bool)
    | InvalidTokenValue
    | InvalidUrl
    | ParseError
    | ErrorResponse(status: u16, message: string)
    | InvalidParams(message: string)
}
