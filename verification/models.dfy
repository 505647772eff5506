/** The records the handlers exchange: the `models` package (User, Error, JWT)
    and the HTTP responses written through `utils.RespondWithError` and
    `utils.ResponseJSON`. */
module Models {

  /** A row of the users table as decoded from or written to JSON. */
  datatype User = User(id: int, email: string, password: string)

  /** A JSON response body: `models.Error`, `models.User` or `models.JWT`. */
  datatype Body =
    | ErrorBody(message: string)
    | UserBody(user: User)
    | TokenBody(token: string)

  /** The status line and body a handler writes. */
  datatype Response = Response(status: int, body: Body)

  const StatusOK := 200
  const StatusBadRequest := 400
  const StatusUnauthorized := 401
  const StatusInternalServerError := 500

  /** `utils.RespondWithError`: the status followed by `{"message": ...}`. */
  function RespondWithError(status: int, message: string): Response
  {
    Response(status, ErrorBody(message))
  }
}
