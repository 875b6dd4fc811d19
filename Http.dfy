/** What a controller hands back to the web framework: a status code and a body.
    The timestamps the source puts into its error bodies are left out. */
module Http {

  const OK := 200
  const CREATED := 201
  const NO_CONTENT := 204
  const BAD_REQUEST := 400
  const UNAUTHORIZED := 401
  const NOT_FOUND := 404
  const INTERNAL_SERVER_ERROR := 500

  /** The bodies the controllers produce. */
  datatype Body<+T> =
    | Empty                                                    // no body (204)
    | Entity(entity: T)                                        // one stored record
    | Entities(entities: seq<T>)                               // a list of stored records
    | StatusMessage(status: int, message: string)              // model.ErrorResponse (timestamp dropped)
    | ErrorMessage(error: string, message: string, status: int) // TenantController.ErrorResponse
    | SuccessMessage(message: string, status: int)             // TenantController.SuccessResponse

  /** A `ResponseEntity`: the HTTP status and the body. */
  datatype Response<+T> = Response(status: int, body: Body<T>)
}
