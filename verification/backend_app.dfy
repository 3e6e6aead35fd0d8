/** The `/extract` route of the back end's `app.py`: the order in which it
    checks the request, and the status and JSON body it answers with. */
module BackendApp {
  import opened Values
  import PyStr
  import Extract
  import Http

  const NoFile := "No file uploaded"
  const ExtractionFailed := "Failed to extract text from PDF."
  const InternalError := "Internal server error"

  /** A handled request: the reply and the effects of the extraction, empty
      when the extraction was never started. */
  datatype Handled = Handled(reply: Http.Reply, calls: seq<Extract.Call>)

  /** The validator accepted the upload. */
  predicate Accepted(u: Extract.Upload) {
    Extract.ValidatePdfFile(u) == Returned((true, ""))
  }

  /** `extract()`: no `pdf` part is a 400 before anything else runs; a
      rejected upload is a 400 carrying the validator's message; an accepted
      one is extracted, answering 200 with the text and mode or 500 when the
      extraction raises; an error escaping the validator is a 500 too. */
  function HandleExtract(file: Option<Extract.Upload>, engines: Extract.Engines): (r: Handled)
    ensures r.reply.status in {Http.Ok, Http.BadRequest, Http.ServerError}
    ensures r.reply.status == Http.Ok <==> r.reply.body.ExtractedBody?
    ensures file.None? ==> r == Handled(Http.Reply(Http.BadRequest, Http.ErrorBody(NoFile)), [])
    ensures r.calls != [] <==> file.Some? && Accepted(file.value)
    ensures r.calls != [] ==> r.calls == Extract.ExtractTextFromPdfFile(engines).calls
    ensures r.reply.status == Http.BadRequest ==>
              r.reply.body.error in {NoFile, Extract.NotPdf, Extract.TooLarge}
    ensures file.Some? && Extract.ValidatePdfFile(file.value).Returned? && !Accepted(file.value) ==>
              r.reply == Http.Reply(Http.BadRequest, Http.ErrorBody(Extract.ValidatePdfFile(file.value).value.1))
    ensures r.reply.status == Http.Ok <==>
              file.Some? && Accepted(file.value) && Extract.ExtractTextFromPdfFile(engines).result.Returned?
    ensures r.reply.status == Http.Ok ==>
              var (text, mode) := Extract.ExtractTextFromPdfFile(engines).result.value;
              r.reply.body == Http.ExtractedBody(text, mode.Name())
    ensures file.Some? && Accepted(file.value) && Extract.ExtractTextFromPdfFile(engines).result.Raised? ==>
              r.reply == Http.Reply(Http.ServerError, Http.ErrorBody(ExtractionFailed))
  {
    match file
    case None => Handled(Http.Reply(Http.BadRequest, Http.ErrorBody(NoFile)), [])
    case Some(upload) =>
      match Extract.ValidatePdfFile(upload)
      case Raised(_) => Handled(Http.Reply(Http.ServerError, Http.ErrorBody(InternalError)), [])
      case Returned((valid, err)) =>
        if !valid then
          Handled(Http.Reply(Http.BadRequest, Http.ErrorBody(err)), [])
        else
          var run := Extract.ExtractTextFromPdfFile(engines);
          match run.result
          case Returned((text, mode)) =>
            Handled(Http.Reply(Http.Ok, Http.ExtractedBody(text, mode.Name())), run.calls)
          case Raised(_) =>
            Handled(Http.Reply(Http.ServerError, Http.ErrorBody(ExtractionFailed)), run.calls)
  }

  /** A 400 answers exactly a missing part or a rejected upload, and a 500
      exactly a failure inside the validator or the extraction. */
  lemma StatusIff(file: Option<Extract.Upload>, engines: Extract.Engines)
    ensures HandleExtract(file, engines).reply.status == Http.BadRequest <==>
              file.None? || (Extract.ValidatePdfFile(file.value).Returned? && !Accepted(file.value))
    ensures HandleExtract(file, engines).reply.status == Http.ServerError <==>
              file.Some? && (Extract.ValidatePdfFile(file.value).Raised?
                             || (Accepted(file.value) && Extract.ExtractTextFromPdfFile(engines).result.Raised?))
    ensures HandleExtract(file, engines).reply == Http.Reply(Http.ServerError, Http.ErrorBody(InternalError)) <==>
              file.Some? && Extract.ValidatePdfFile(file.value).Raised?
  {
  }

  /** A request the route turns away before extracting gets the same answer
      whatever the reader and the OCR engine would have done. */
  lemma RejectionIgnoresEngines(file: Option<Extract.Upload>, e1: Extract.Engines, e2: Extract.Engines)
    requires file.None? || !Accepted(file.value)
    ensures HandleExtract(file, e1) == HandleExtract(file, e2)
  {
  }

  /** The mode a 200 reports is `'text'` or `'ocr'`, and its text is stripped. */
  lemma SuccessReportsKnownMode(file: Option<Extract.Upload>, engines: Extract.Engines)
    requires HandleExtract(file, engines).reply.status == Http.Ok
    ensures HandleExtract(file, engines).reply.body.mode in {"text", "ocr"}
    ensures PyStr.Strip(HandleExtract(file, engines).reply.body.text) == HandleExtract(file, engines).reply.body.text
  {
    Extract.ExtractedTextIsStripped(engines);
  }
}
