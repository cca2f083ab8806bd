/** The HTTP error answers the service's endpoints give: a status code and
    the response headers that go with it. */
module Http {

  datatype HttpError = HttpError(status: int, headers: map<string, string>)

  /** An error answer with no extra header. */
  function Status(code: int): (r: HttpError)
    ensures r.status == code && r.headers == map[]
  {
    HttpError(code, map[])
  }

  const BadRequest := 400
  const Unauthorized := 401
  const NotFoundStatus := 404
  const InternalError := 500
  const Unavailable := 503
}
