/** What the two React front ends share: the document they upload, how an
    `axios.post` to `/extract` ends, and the texts they show. */
module Client {
  import opened Values
  import Http

  /** The `File` picked in the file input. The front ends never look inside
      it; they only check that one is selected and post it. */
  datatype Doc = Doc(name: string, size: nat)

  /** How `await axios.post(…)` ends: resolved with `res.data.text` and
      `res.data.mode` (either may be missing), rejected with a server response
      whose `err.response.data.error` may be missing, or rejected with no
      response at all (the server was never reached). */
  datatype Outcome =
    | Answered(text: Option<string>, mode: Option<string>)
    | Rejected(error: Option<string>)
    | Unreachable

  /** The `stats` state: the engine shown in the stats card and the elapsed
      milliseconds between posting and the answer (`time: ''` before the
      first success). */
  datatype Stats = Stats(mode: string, elapsed: Option<int>)

  const NoStats := Stats("", None)

  const Sentinel := "No text could be extracted from this document."
  const NoFileAlert := "Please upload a PDF file first."
  const ConnectionError := "Error connecting to the extraction server."
  const StartLabel := "Start Extraction"
  const BusyLabel := "Processing..."

  /** How axios hands a server reply to the front end: a 2xx resolves with
      the JSON body's fields, any other status rejects with the body attached. */
  function Receive(reply: Http.Reply): (o: Outcome)
    ensures o.Answered? <==> Http.IsSuccess(reply.status)
    ensures o.Rejected? <==> !Http.IsSuccess(reply.status)
    ensures o.Answered? && reply.body.ExtractedBody? ==>
              o == Answered(Some(reply.body.text), Some(reply.body.mode))
    ensures o.Rejected? && reply.body.ErrorBody? ==> o == Rejected(Some(reply.body.error))
  {
    if Http.IsSuccess(reply.status) then
      match reply.body
      case ExtractedBody(text, mode) => Answered(Some(text), Some(mode))
      case ErrorBody(_) => Answered(None, None)
    else
      match reply.body
      case ErrorBody(error) => Rejected(Some(error))
      case ExtractedBody(_, _) => Rejected(None)
  }

  /** The label of the start button. */
  function ButtonLabel(loading: bool): string {
    if loading then BusyLabel else StartLabel
  }
}
