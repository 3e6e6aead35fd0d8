/** The HTTP reply of an `/extract` route: a status code and the JSON body
    Flask's `jsonify` builds. */
module Http {

  /** `{'error': error}` or `{'text': text, 'mode': mode}`. */
  datatype Body = ErrorBody(error: string) | ExtractedBody(text: string, mode: string)

  datatype Reply = Reply(status: int, body: Body)

  const Ok := 200
  const BadRequest := 400
  const ServerError := 500

  /** The statuses axios resolves on; every other status rejects. */
  predicate IsSuccess(status: int) {
    200 <= status < 300
  }
}
