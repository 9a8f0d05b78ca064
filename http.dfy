/** The reply envelope the handlers write, and the HTTP status codes they use
    (section 15 of RFC 9110). */
module Http {
  import opened Wrappers

  const StatusOK: int := 200
  const StatusAccepted: int := 202
  const StatusNotFound: int := 404
  const StatusNotAcceptable: int := 406
  const StatusConflict: int := 409
  const StatusUnprocessableEntity: int := 422
  const StatusInternalServerError: int := 500

  /** What writeResponse sends: the status code, the data (absent on the
      error paths) and the error messages. */
  datatype Reply<D> = Reply(status: int, data: Option<D>, errors: seq<string>)

  /** An error reply: no data and one message. */
  function Failure<D>(status: int, message: string): Reply<D>
  {
    Reply(status, None, [message])
  }

  /** A successful reply: the data and no error messages. */
  function Success<D>(status: int, data: D): Reply<D>
  {
    Reply(status, Some(data), [])
  }
}
