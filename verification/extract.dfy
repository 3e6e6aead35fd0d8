/** The upload checks and the text-or-OCR decision of the back end's
    `utils/extract.py`. The PDF reader, the rasteriser and the OCR engine are
    not modelled: what they produce for a given document is an input. */
module Extract {
  import opened Values
  import PyStr

  /** `MAX_FILE_SIZE`: 10 MiB. */
  const MaxFileSize: nat := 10 * 1024 * 1024

  const NotPdf := "Uploaded file is not a PDF."
  const TooLarge := "File exceeds maximum allowed size (10 MB)."

  /** The uploaded part of a request as the validator sees it: its client
      filename, and the size of the temporary copy it writes, or the OS error
      raised while writing or measuring that copy. */
  datatype Upload = Upload(filename: Option<string>, size: Raises<nat>)

  /** `_is_pdf_filename`: the name ends in `.pdf`, whatever the case of the
      four letters. */
  function IsPdfFilename(filename: string): (r: bool)
    ensures r <==> && |filename| >= 4
                   && filename[|filename| - 4] == '.'
                   && filename[|filename| - 3] in "pP"
                   && filename[|filename| - 2] in "dD"
                   && filename[|filename| - 1] in "fF"
  {
    var lower := PyStr.Lower(filename);
    var n := |filename|;
    assert n >= 4 ==> lower[n - 4..] == [lower[n - 4], lower[n - 3], lower[n - 2], lower[n - 1]];
    PyStr.EndsWith(lower, ".pdf")
  }

  /** `validate_pdf_file`: `(True, '')` for a PDF name within the size limit,
      `(False, message)` for the first check that fails; an OS error while
      sizing the temporary copy propagates. */
  function ValidatePdfFile(u: Upload): (r: Raises<(bool, string)>)
    ensures var pdf := IsPdfFilename(OrEmpty(u.filename));
            r == Returned((true, "")) <==> pdf && u.size.Returned? && u.size.value <= MaxFileSize
    ensures !IsPdfFilename(OrEmpty(u.filename)) ==> r == Returned((false, NotPdf))
    ensures r == Returned((false, TooLarge)) <==>
              IsPdfFilename(OrEmpty(u.filename)) && u.size.Returned? && u.size.value > MaxFileSize
    ensures r.Raised? <==> IsPdfFilename(OrEmpty(u.filename)) && u.size.Raised?
    ensures r.Raised? ==> r == Raised(u.size.message)
    ensures r.Returned? ==> (r.value.0 <==> r.value.1 == "")
  {
    var filename := OrEmpty(u.filename);
    if !IsPdfFilename(filename) then
      Returned((false, NotPdf))
    else
      match u.size
      case Raised(e) => Raised(e)
      case Returned(size) =>
        if size > MaxFileSize then Returned((false, TooLarge)) else Returned((true, ""))
  }

  /** What the PDF reader makes of the document: the `extract_text()` of each
      page in order (`None` for a page without a text layer), or the error it
      raised while opening the file or walking its pages. */
  datatype PdfReading = Pages(texts: seq<Option<string>>) | Unreadable(message: string)

  /** What rasterising and OCR make of the document: the recognised text of
      each page image in order, or the error either raised. */
  datatype Recognition = Recognised(texts: seq<string>) | OcrFailed(message: string)

  /** Everything outside the module that an extraction depends on. `saveError`
      is the error raised while copying the upload to a temporary file, if any. */
  datatype Engines = Engines(saveError: Option<string>, reader: PdfReading, ocr: Recognition)

  /** The path that produced the text, reported to the client as `mode`. */
  datatype Mode = TextMode | OcrMode {
    function Name(): string {
      match this
      case TextMode => "text"
      case OcrMode => "ocr"
    }
  }

  /** The external effects of an extraction, in the order they happen. */
  datatype Call = SaveTemp | ReadPdf | RunOcr | RemoveTemp

  /** An extraction: the `(text, mode)` it returns or the error it raises,
      and the effects it had. */
  datatype Run = Run(result: Raises<(string, Mode)>, calls: seq<Call>)

  /** `page.extract_text() or ''` for every page. */
  function PageTexts(pages: seq<Option<string>>): (r: seq<string>)
    ensures |r| == |pages|
    ensures forall k :: 0 <= k < |pages| ==> r[k] == OrEmpty(pages[k])
  {
    seq(|pages|, k requires 0 <= k < |pages| => OrEmpty(pages[k]))
  }

  /** Some page carries a character that is not whitespace. */
  predicate HasInk(pages: seq<Option<string>>) {
    exists k :: 0 <= k < |pages| && !PyStr.Blank(OrEmpty(pages[k]))
  }

  /** The loop `text_output += page.extract_text() or ''` over the pages. */
  method CollectText(pages: seq<Option<string>>) returns (text: string)
    ensures text == PyStr.Concat(PageTexts(pages))
  {
    text := "";
    var i := 0;
    while i < |pages|
      invariant 0 <= i <= |pages|
      invariant text == PyStr.Concat(PageTexts(pages[..i]))
    {
      assert PageTexts(pages[..i + 1])[..i] == PageTexts(pages[..i]);
      text := text + OrEmpty(pages[i]);
      i := i + 1;
    }
    assert pages[..i] == pages;
  }

  /** The stripped text layer, kept only when it is not blank: the test that
      decides between the text path and OCR. */
  function TextLayer(reading: PdfReading): (r: Option<string>)
    ensures r.Some? ==> reading.Pages? && r.value != ""
    ensures r.Some? ==> r.value == PyStr.Strip(PyStr.Concat(PageTexts(reading.texts)))
    ensures reading.Pages? && PyStr.Strip(PyStr.Concat(PageTexts(reading.texts))) != "" ==> r.Some?
  {
    match reading
    case Unreadable(_) => None
    case Pages(texts) =>
      var text := PyStr.Strip(PyStr.Concat(PageTexts(texts)));
      if text != "" then Some(text) else None
  }

  /** `extract_text_from_pdf_file`: the stripped text layer in `'text'` mode
      when it is not blank; otherwise, including when the reader raises, the
      stripped OCR text in `'ocr'` mode. The temporary copy is removed on every
      exit once it has been written; a failure to write it raises at once. */
  function ExtractTextFromPdfFile(e: Engines): (r: Run)
    ensures e.saveError.Some? ==> r == Run(Raised(e.saveError.value), [SaveTemp])
    ensures e.saveError.None? ==>
              |r.calls| >= 3 && r.calls[0] == SaveTemp && r.calls[1] == ReadPdf
              && r.calls[|r.calls| - 1] == RemoveTemp
    ensures (r.result.Returned? && r.result.value.1 == TextMode) <==>
              e.saveError.None? && TextLayer(e.reader).Some?
    ensures r.result.Returned? && r.result.value.1 == TextMode ==>
              r.result.value.0 == TextLayer(e.reader).value && RunOcr !in r.calls
    ensures r.result.Returned? && r.result.value.1 == OcrMode ==>
              e.ocr.Recognised? && r.result.value.0 == PyStr.Strip(PyStr.Concat(e.ocr.texts))
    ensures r.result.Raised? <==>
              e.saveError.Some? || (TextLayer(e.reader).None? && e.ocr.OcrFailed?)
  {
    if e.saveError.Some? then
      Run(Raised(e.saveError.value), [SaveTemp])
    else
      match TextLayer(e.reader)
      case Some(text) => Run(Returned((text, TextMode)), [SaveTemp, ReadPdf, RemoveTemp])
      case None =>
        var calls := [SaveTemp, ReadPdf, RunOcr, RemoveTemp];
        match e.ocr
        case OcrFailed(m) => Run(Raised(m), calls)
        case Recognised(texts) =>
          Run(Returned((PyStr.Strip(PyStr.Concat(texts)), OcrMode)), calls)
  }

  /** A readable text layer with ink keeps the extraction away from OCR,
      whatever OCR would have produced. */
  lemma TextPathIgnoresOcr(e1: Engines, e2: Engines)
    requires e1.saveError == e2.saveError == None && e1.reader == e2.reader
    requires e1.reader.Pages? && HasInk(e1.reader.texts)
    ensures ExtractTextFromPdfFile(e1) == ExtractTextFromPdfFile(e2)
  {
    TextLayerIffInk(e1.reader);
  }

  /** OCR runs exactly when the temporary copy was written and the text layer
      is missing, blank or unreadable. */
  lemma OcrOnlyWithoutTextLayer(e: Engines)
    ensures RunOcr in ExtractTextFromPdfFile(e).calls <==>
              e.saveError.None? && TextLayer(e.reader).None?
  {
    var layer := TextLayer(e.reader);
    if e.saveError.None? && layer.Some? {
      assert ExtractTextFromPdfFile(e).calls == [SaveTemp, ReadPdf, RemoveTemp];
    }
  }

  /** Whatever path produced it, the returned text has no surrounding
      whitespace and the mode is `'text'` or `'ocr'`. */
  lemma ExtractedTextIsStripped(e: Engines)
    ensures var r := ExtractTextFromPdfFile(e).result;
            r.Returned? ==> PyStr.Strip(r.value.0) == r.value.0 && r.value.1.Name() in {"text", "ocr"}
  {
    var r := ExtractTextFromPdfFile(e).result;
    if r.Returned? {
      if r.value.1 == TextMode {
        PyStr.StripIdempotent(PyStr.Concat(PageTexts(e.reader.texts)));
      } else {
        PyStr.StripIdempotent(PyStr.Concat(e.ocr.texts));
      }
    }
  }

  /** The page texts, joined and stripped, are non-empty exactly when some
      page has a character that is not whitespace. */
  lemma InkIffNonBlankText(pages: seq<Option<string>>)
    ensures PyStr.Strip(PyStr.Concat(PageTexts(pages))) != "" <==> HasInk(pages)
  {
    var texts := PageTexts(pages);
    PyStr.StripEmptyIffBlank(PyStr.Concat(texts));
    PyStr.BlankConcat(texts);
    if !HasInk(pages) {
      assert forall k :: 0 <= k < |texts| ==> PyStr.Blank(texts[k]);
    }
  }

  /** The text path is taken exactly when the reader succeeds and some page
      has a character that is not whitespace. */
  lemma TextLayerIffInk(reading: PdfReading)
    ensures TextLayer(reading).Some? <==> reading.Pages? && HasInk(reading.texts)
  {
    if reading.Pages? {
      InkIffNonBlankText(reading.texts);
    }
  }

  /** The size check at its boundary: exactly 10 MiB is still accepted. */
  lemma SizeBoundaryExamples()
    ensures ValidatePdfFile(Upload(Some("scan.pdf"), Returned(MaxFileSize))) == Returned((true, ""))
    ensures ValidatePdfFile(Upload(Some("scan.pdf"), Returned(MaxFileSize + 1))) == Returned((false, TooLarge))
  {
  }

  /** The name check's treatment of case, of a missing name and of a `.pdf`
      that is not the final suffix. */
  lemma ValidationExamples()
    ensures ValidatePdfFile(Upload(Some("X.PDF"), Returned(0))) == Returned((true, ""))
    ensures ValidatePdfFile(Upload(Some("x.pdf.txt"), Returned(0))) == Returned((false, NotPdf))
    ensures ValidatePdfFile(Upload(None, Raised("disk full"))) == Returned((false, NotPdf))
    ensures ValidatePdfFile(Upload(Some(""), Returned(0))) == Returned((false, NotPdf))
  {
  }
}
