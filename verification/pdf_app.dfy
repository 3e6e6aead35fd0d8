/** The `/extract` route of the stand-alone `PDF/app.py`: no validation, the
    text layer read straight from the upload, OCR through a fixed temporary
    file, and every exception turned into a 500 carrying `str(e)`. */
module PdfApp {
  import opened Values
  import PyStr
  import Extract
  import Http
  import BackendApp

  /** The part of `extract_pdf()` after a blank text layer: copy the upload
      to `temp.pdf`, rasterise and OCR it, then remove it. The removal is the
      last statement of the `try`, so an exception skips it. */
  function OcrFallback(engines: Extract.Engines): (r: BackendApp.Handled)
    ensures r.reply.status in {Http.Ok, Http.ServerError}
    ensures r.reply.status == Http.Ok <==> r.reply.body.ExtractedBody?
    ensures |r.calls| >= 2 && r.calls[0] == Extract.ReadPdf && r.calls[1] == Extract.SaveTemp
    ensures r.reply.body.ExtractedBody? ==>
              && engines.saveError.None? && engines.ocr.Recognised?
              && r.reply.body == Http.ExtractedBody(PyStr.Strip(PyStr.Concat(engines.ocr.texts)), "ocr")
              && r.calls == [Extract.ReadPdf, Extract.SaveTemp, Extract.RunOcr, Extract.RemoveTemp]
    ensures r.reply.status == Http.ServerError ==> Extract.RemoveTemp !in r.calls
    ensures engines.saveError.Some? ==>
              r.reply == Http.Reply(Http.ServerError, Http.ErrorBody(engines.saveError.value))
              && Extract.RunOcr !in r.calls
    ensures engines.saveError.None? && engines.ocr.OcrFailed? ==>
              r.reply == Http.Reply(Http.ServerError, Http.ErrorBody(engines.ocr.message))
              && Extract.RunOcr in r.calls
  {
    match engines.saveError
    case Some(m) =>
      BackendApp.Handled(Http.Reply(Http.ServerError, Http.ErrorBody(m)), [Extract.ReadPdf, Extract.SaveTemp])
    case None =>
      match engines.ocr
      case OcrFailed(m) =>
        BackendApp.Handled(Http.Reply(Http.ServerError, Http.ErrorBody(m)),
                           [Extract.ReadPdf, Extract.SaveTemp, Extract.RunOcr])
      case Recognised(texts) =>
        BackendApp.Handled(Http.Reply(Http.Ok, Http.ExtractedBody(PyStr.Strip(PyStr.Concat(texts)), "ocr")),
                           [Extract.ReadPdf, Extract.SaveTemp, Extract.RunOcr, Extract.RemoveTemp])
  }

  /** `extract_pdf()`. The effects are reported in the order this route
      performs them: read first, then copy to `temp.pdf`, OCR and remove. */
  function HandleExtractPdf(file: Option<Extract.Upload>, engines: Extract.Engines): (r: BackendApp.Handled)
    ensures r.reply.status in {Http.Ok, Http.BadRequest, Http.ServerError}
    ensures r.reply.status == Http.Ok <==> r.reply.body.ExtractedBody?
    ensures r.reply.status == Http.BadRequest <==> file.None?
    ensures file.None? ==>
              r == BackendApp.Handled(Http.Reply(Http.BadRequest, Http.ErrorBody(BackendApp.NoFile)), [])
    ensures file.Some? ==> |r.calls| >= 1 && r.calls[0] == Extract.ReadPdf
    ensures file.Some? && engines.reader.Unreadable? ==>
              r.reply == Http.Reply(Http.ServerError, Http.ErrorBody(engines.reader.message))
              && Extract.RunOcr !in r.calls
    ensures file.Some? && Extract.TextLayer(engines.reader).Some? ==>
              r == BackendApp.Handled(
                     Http.Reply(Http.Ok, Http.ExtractedBody(Extract.TextLayer(engines.reader).value, "text")),
                     [Extract.ReadPdf])
    ensures r.reply.body.ExtractedBody? && r.reply.body.mode == "ocr" ==>
              engines.ocr.Recognised?
              && r.reply.body.text == PyStr.Strip(PyStr.Concat(engines.ocr.texts))
              && r.calls[|r.calls| - 1] == Extract.RemoveTemp
    ensures r.reply.body.ExtractedBody? ==> r.reply.body.mode in {"text", "ocr"}
    ensures r.reply.status == Http.ServerError ==> Extract.RemoveTemp !in r.calls
    ensures file.Some? && engines.reader.Pages? && Extract.TextLayer(engines.reader).None?
            && engines.saveError.None? && engines.ocr.Recognised? ==>
              r.reply == Http.Reply(Http.Ok, Http.ExtractedBody(PyStr.Strip(PyStr.Concat(engines.ocr.texts)), "ocr"))
  {
    match file
    case None => BackendApp.Handled(Http.Reply(Http.BadRequest, Http.ErrorBody(BackendApp.NoFile)), [])
    case Some(_) =>
      match engines.reader
      case Unreadable(m) => BackendApp.Handled(Http.Reply(Http.ServerError, Http.ErrorBody(m)), [Extract.ReadPdf])
      case Pages(_) =>
        match Extract.TextLayer(engines.reader)
        case Some(text) =>
          BackendApp.Handled(Http.Reply(Http.Ok, Http.ExtractedBody(text, "text")), [Extract.ReadPdf])
        case None => OcrFallback(engines)
  }

  /** OCR runs exactly when an upload's text layer is readable but blank and
      its copy to `temp.pdf` was written. */
  lemma OcrOnlyForBlankLayer(file: Option<Extract.Upload>, engines: Extract.Engines)
    ensures Extract.RunOcr in HandleExtractPdf(file, engines).calls <==>
              file.Some? && engines.reader.Pages? && Extract.TextLayer(engines.reader).None?
              && engines.saveError.None?
  {
    if file.Some? && engines.reader.Pages? && Extract.TextLayer(engines.reader).None?
       && engines.saveError.None? {
      assert HandleExtractPdf(file, engines) == OcrFallback(engines);
    }
  }

  /** A 500 answers exactly an exception: the reader's, or, once the text
      layer is found blank, the temporary copy's or OCR's. It relays the
      message of the first of them to raise, in that order, since each step
      runs only after the previous one succeeded. */
  lemma ServerErrorRelaysException(file: Option<Extract.Upload>, engines: Extract.Engines)
    ensures var r := HandleExtractPdf(file, engines);
            r.reply.status == Http.ServerError <==>
              file.Some? && (|| engines.reader.Unreadable?
                             || (Extract.TextLayer(engines.reader).None?
                                 && (engines.saveError.Some? || engines.ocr.OcrFailed?)))
    ensures var r := HandleExtractPdf(file, engines);
            r.reply.status == Http.ServerError && engines.reader.Unreadable? ==>
              r.reply.body.error == engines.reader.message
    ensures var r := HandleExtractPdf(file, engines);
            r.reply.status == Http.ServerError && engines.reader.Pages? && engines.saveError.Some? ==>
              r.reply.body.error == engines.saveError.value
    ensures var r := HandleExtractPdf(file, engines);
            r.reply.status == Http.ServerError && engines.reader.Pages? && engines.saveError.None? ==>
              engines.ocr.OcrFailed? && r.reply.body.error == engines.ocr.message
  {
    var r := HandleExtractPdf(file, engines);
    if file.Some? && Extract.TextLayer(engines.reader).None? && engines.reader.Pages?
       && engines.saveError.None? && engines.ocr.Recognised? {
      assert r.reply.status == Http.Ok;
    }
  }

  /** The two routes read the same document with the same reader, but each
      rasterises it its own way (200 dpi in the back end, 120 dpi here), so
      each has its own copy and OCR results: `back` and `here`. For an upload
      the back end accepts and whose copy it writes, the routes take the same
      text-or-OCR decision: an inked text layer gives the same reply from
      both, and a blank one sends both to OCR, each answering with its own
      stripped OCR text. */
  lemma RoutesAgreeOnReadableDocuments(u: Extract.Upload, back: Extract.Engines, here: Extract.Engines)
    requires BackendApp.Accepted(u)
    requires back.reader == here.reader && back.reader.Pages? && back.saveError.None?
    ensures Extract.TextLayer(back.reader).Some? ==>
              HandleExtractPdf(Some(u), here).reply == BackendApp.HandleExtract(Some(u), back).reply
    ensures Extract.TextLayer(back.reader).None? && back.ocr.Recognised?
            && here.saveError.None? && here.ocr.Recognised? ==>
              && BackendApp.HandleExtract(Some(u), back).reply
                   == Http.Reply(Http.Ok, Http.ExtractedBody(PyStr.Strip(PyStr.Concat(back.ocr.texts)), "ocr"))
              && HandleExtractPdf(Some(u), here).reply
                   == Http.Reply(Http.Ok, Http.ExtractedBody(PyStr.Strip(PyStr.Concat(here.ocr.texts)), "ocr"))
  {
  }

  /** The routes part ways on an unreadable document: the back end falls back
      to OCR and answers 200, this route answers 500 with the reader's error. */
  lemma RoutesDivergeOnReaderFailure(u: Extract.Upload, msg: string, ocrTexts: seq<string>)
    requires BackendApp.Accepted(u)
    ensures var e := Extract.Engines(None, Extract.Unreadable(msg), Extract.Recognised(ocrTexts));
            && BackendApp.HandleExtract(Some(u), e).reply
                 == Http.Reply(Http.Ok, Http.ExtractedBody(PyStr.Strip(PyStr.Concat(ocrTexts)), "ocr"))
            && HandleExtractPdf(Some(u), e).reply == Http.Reply(Http.ServerError, Http.ErrorBody(msg))
  {
  }
}
