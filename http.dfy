/** The HTTP errors the endpoints raise (`HTTPException`): a status code and a detail text. */
module Http {
  datatype HttpError = HttpError(code: int, detail: string)

  const BadRequest: int := 400
  const Unauthorized: int := 401
  const Forbidden: int := 403
  const NotFound: int := 404
}
