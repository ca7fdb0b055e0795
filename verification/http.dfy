/** The part of an HTTP response the gates and the login handler decide:
    the status code and the JSON body. */
module Http {

  /** The JSON bodies the core sends, by shape. */
  datatype Body =
    | ErrorBody(error: string)                               // `{ error }`
    | DeniedBody(error: string, message: string)             // `{ error, message }`
    | MessageBody(message: string)                           // `{ message }`
    | TokenBody(success: bool, message: string, token: string) // `{ success, message, token }`

  datatype Response = Response(status: nat, body: Body)

  const Ok: nat := 200
  const BadRequest: nat := 400
  const Unauthorized: nat := 401
  const Forbidden: nat := 403
  const NotFound: nat := 404
  const InternalServerError: nat := 500
}
