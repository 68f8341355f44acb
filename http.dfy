/** The HTTP errors the gateway raises (FastAPI's `HTTPException`). */
module Http {

  /** An `HTTPException`: status code, detail text and extra response headers. */
  datatype HttpError = HttpError(status: int, detail: string, headers: map<string, string>)

  const BadRequest: int := 400
  const Unauthorized: int := 401
  const InternalServerError: int := 500

  /** The header every authentication failure carries. */
  const BasicChallenge: map<string, string> := map["WWW-Authenticate" := "Basic"]
}
