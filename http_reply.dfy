/** The JSON replies the server's handlers send: a status code, `success` and `message`. */
module HttpReply {
  datatype Response = Response(status: int, success: bool, message: string)

  const STATUS_OK := 200
  const STATUS_BAD_REQUEST := 400
  const STATUS_UNAUTHORIZED := 401
  const STATUS_PAYMENT_REQUIRED := 402
  const STATUS_CONFLICT := 409
  const STATUS_TOO_MANY_REQUESTS := 429
  const STATUS_INTERNAL := 500

  /** `SendBadRequest`. */
  const BadRequest := Response(STATUS_BAD_REQUEST, false, "Bad request.")
  /** `SendInternalError`. */
  const InternalError := Response(STATUS_INTERNAL, false, "An unexpected error occurred.")
  /** A bare success reply; handlers that return data say so separately. */
  const Ok := Response(STATUS_OK, true, "")

  function Fail(status: int, message: string): Response {
    Response(status, false, message)
  }
}
