/** The slice of `requests` both fetchers use: a session's GET and `raise_for_status`. */
module Http {
  import opened FileStore

  /** What `session.get(url)` gives: a response (status and body) or a RequestException. */
  datatype Response = Response(status: int, body: Bytes) | RequestFailed

  /** A `requests.Session`, reduced to its GET. */
  type Session = string -> Response

  /** `raise_for_status` raises for the 4xx and 5xx statuses. */
  predicate ErrorStatus(status: int)
  {
    400 <= status < 600
  }
}
