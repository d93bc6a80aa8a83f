/** What a handler leaves on the request context: a status code from
    net/http and the response body. */
module Http {
  import opened GoRuntime

  const StatusOK: int := 200
  const StatusUnauthorized: int := 401
  const StatusNotFound: int := 404

  datatype Response = Response(status: int, body: Bytes)

  /** `c.AbortWithStatus(http.StatusUnauthorized)`: no body. */
  const Unauthorized := Response(StatusUnauthorized, [])

  /** `c.Status(http.StatusNotFound)`: no body. */
  const NotFound := Response(StatusNotFound, [])

  /** `c.Status(http.StatusOK)` or `c.Data(http.StatusOK, ..., body)`. */
  function Ok(body: Bytes): Response {
    Response(StatusOK, body)
  }
}
