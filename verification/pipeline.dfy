/** A front end talking to a back end: what the user ends up seeing for a
    given request, once the server's reply has gone through axios. */
module Pipeline {
  import opened Values
  import Extract
  import Http
  import BackendApp
  import PdfApp
  import Client
  import FrontendUpload
  import PdfFrontendUpload

  /** The `frontend/` panel settled with the back end's reply to `file`. */
  function FrontendSees(p: FrontendUpload.Panel, file: Option<Extract.Upload>, e: Extract.Engines, now: int)
    : FrontendUpload.Step
  {
    FrontendUpload.Settle(p, Client.Receive(BackendApp.HandleExtract(file, e).reply), now)
  }

  /** A rejected upload reaches the user as the validator's own message, and
      the previous output and stats stay on screen. */
  lemma RejectionShownVerbatim(p: FrontendUpload.Panel, u: Extract.Upload, e: Extract.Engines, now: int)
    requires p.pending.Some?
    requires Extract.ValidatePdfFile(u).Returned? && !BackendApp.Accepted(u)
    ensures var s := FrontendSees(p, Some(u), e, now);
            && s.alert == Some(Extract.ValidatePdfFile(u).value.1)
            && s.alert.value in {Extract.NotPdf, Extract.TooLarge}
            && s.after.output == p.output && s.after.stats == p.stats
  {
  }

  /** Every reply of the back end that is not a 200 reaches the user as its
      own error message: the connection message is left for a server that
      never answered. */
  lemma BackendErrorsNeverGeneric(p: FrontendUpload.Panel, file: Option<Extract.Upload>, e: Extract.Engines, now: int)
    requires p.pending.Some?
    requires BackendApp.HandleExtract(file, e).reply.status != Http.Ok
    ensures var s := FrontendSees(p, file, e, now);
            && s.alert == Some(BackendApp.HandleExtract(file, e).reply.body.error)
            && s.alert != Some(Client.ConnectionError)
  {
  }

  /** A 200 from the back end always names its engine, so the front end never
      falls back to `'unknown'`; it shows the OCR notice exactly for OCR. */
  lemma SuccessShowsServerMode(p: FrontendUpload.Panel, file: Option<Extract.Upload>, e: Extract.Engines, now: int)
    requires p.pending.Some?
    requires BackendApp.HandleExtract(file, e).reply.status == Http.Ok
    ensures var s := FrontendSees(p, file, e, now);
            var mode := Extract.ExtractTextFromPdfFile(e).result.value.1;
            && s.after.stats.mode == mode.Name()
            && s.after.stats.mode != FrontendUpload.UnknownMode
            && (FrontendUpload.OcrNotice in s.stages <==> mode == Extract.OcrMode)
  {
  }

  /** The text-path answer is what the user reads; an OCR pass that recognised
      nothing shows the sentinel instead of an empty page. */
  lemma OutputMatchesServerText(p: FrontendUpload.Panel, u: Extract.Upload, e: Extract.Engines, now: int)
    requires p.pending.Some? && BackendApp.Accepted(u) && e.saveError.None?
    ensures Extract.TextLayer(e.reader).Some? ==>
              FrontendSees(p, Some(u), e, now).after.output == Extract.TextLayer(e.reader).value
    ensures Extract.TextLayer(e.reader).None? && e.ocr.Recognised? && Extract.ExtractTextFromPdfFile(e).result.value.0 == "" ==>
              FrontendSees(p, Some(u), e, now).after.output == Client.Sentinel
  {
  }

  /** The `pdf-frontend/` panel settled with `PDF/app.py`'s reply. */
  function PdfFrontendSees(p: PdfFrontendUpload.Panel, file: Option<Extract.Upload>, e: Extract.Engines, now: int)
    : PdfFrontendUpload.Step
  {
    PdfFrontendUpload.Settle(p, Client.Receive(PdfApp.HandleExtractPdf(file, e).reply), now)
  }

  /** Against `PDF/app.py`, the `pdf-frontend/` never shows `"Standard"`: every
      200 names `text` or `ocr`; and every failure, however precise the
      server's `str(e)`, reaches the user as the one connection message. */
  lemma PdfPairModes(p: PdfFrontendUpload.Panel, file: Option<Extract.Upload>, e: Extract.Engines, now: int)
    requires p.pending.Some?
    ensures var s := PdfFrontendSees(p, file, e, now);
            && (PdfApp.HandleExtractPdf(file, e).reply.status == Http.Ok ==>
                  s.after.stats.mode in {"text", "ocr"} && s.alert.None?)
            && (PdfApp.HandleExtractPdf(file, e).reply.status != Http.Ok ==>
                  s.alert == Some(Client.ConnectionError))
  {
  }
}
