# PDF-Extractor: extraction-job model

PDF-Extractor turns an uploaded PDF into text. It reads the PDF's own text
layer when that layer has text, and falls back to OCR when it does not. This
project models the decisions made around one extraction request, and proves
properties of that model:

- **The client job.** `extractPDF` has the same shape in both React front
  ends (`frontend/` and `pdf-frontend/`). The `pdf-frontend/` one has no
  stages and no timer, defaults the mode to `"Standard"`, and alerts one
  message for every failure. Each is modelled as a state machine over the
  component's state (`file`, `output`, `loading`, `processingStage` where
  present, `stats`).
  `Begin` is the part before `await axios.post`. `Settle` is the answer or
  failure, plus the `finally`. `Press` is the guarded start button. `Next`
  steps the machine on one event. The status line and the display guards are
  pure functions of the state. An invariant (`Valid`) holds in every
  reachable state.
- **The request classifiers.** These are the two Flask `/extract` routes.
  `BackendApp.HandleExtract` models `backend/app.py` and
  `PdfApp.HandleExtractPdf` models `PDF/app.py`. Each is a total function from
  the request and what the external engines do to an HTTP status, a JSON body
  and the list of external effects.
- **Validation and mode selection** (`backend/utils/extract.py`). This covers
  the case-insensitive `.pdf` suffix test, the 10 MiB limit, and the
  text-or-OCR decision, built on Python's `str.strip()` (module `PyStr`).

The PDF reader, the rasteriser and the OCR engine are not modelled. Their
results are inputs (`Extract.Engines`): page texts (`None` for a page without
text), recognised texts, or the message of the exception they raised. The
network is also an input: `Client.Outcome` is how an `axios.post` ends, and
`Client.Receive` says how a server reply becomes one. Clock readings
(`performance.now()`) are carried by the events. `Chronological` states that
the clock never runs backwards, and the invariants are proved for event
sequences that respect it. The two back ends rasterise at different
resolutions (200 dpi in `backend/utils/extract.py`, 120 dpi in `PDF/app.py`).
So a comparison of the two routes gives each route its own OCR results.

A few facts about the client code shape the model:

- A second job is prevented only by the disabled start button.
- The client checks no file type or size. Only the missing file is caught
  before posting.
- The mode is stored as the server's raw string and shown upper-cased. The
  defaults are `'unknown'` in `frontend/` and `"Standard"` in
  `pdf-frontend/`.
- The timer hint is not cancelled when the job ends. The model keeps the
  as-written hint next to a job-scoped corrected one (see Findings).

Files: `values.dfy` (absent values, Python exceptions, `or`/`||` on strings),
`pystr.dfy`, `extract.dfy`, `http.dfy`, `backend_app.dfy`, `pdf_app.dfy`,
`client.dfy`, `frontend_upload.dfy`, `pdf_frontend_upload.dfy`,
`pipeline.dfy` (front end and back end together).

## Model

| member | source | states |
|---|---|---|
| PyStr.SkipSpace | backend/utils/extract.py:70-72 | the left cut of `strip`: every character skipped is whitespace and the scan stops at the first one that is not, or at the end |
| PyStr.SkipSpaceBack | backend/utils/extract.py:70-72 | the right cut of `strip`: every character dropped from the end is whitespace, the scan stops at the last one that is not, and it never passes the left cut |
| PyStr.Strip | backend/utils/extract.py:70-72 | `strip()` yields a slice of its input with only whitespace around it, neither starting nor ending with whitespace |
| PyStr.StrippedOfUnique | backend/utils/extract.py:70-72 | at most one string has those properties, so they define `strip()` completely |
| PyStr.StripEmptyIffBlank | backend/utils/extract.py:70 | `s.strip()` is falsy exactly when `s` is whitespace only |
| PyStr.StripIdempotent | backend/utils/extract.py:72 | stripping an already stripped text changes nothing |
| PyStr.BlankConcat | backend/utils/extract.py:67-69 | the text built by `+=` over the parts is blank exactly when every part is |
| PyStr.BlankAppend | backend/utils/extract.py:69 | appending keeps a text blank exactly when both pieces are blank |
| Extract.IsPdfFilename | backend/utils/extract.py:18-19 | a name passes exactly when its last four characters are `.`, `p`/`P`, `d`/`D`, `f`/`F` |
| Extract.ValidatePdfFile | backend/utils/extract.py:32-51 | `(True, '')` exactly for a PDF name within 10 MiB; a missing name counts as `''` and gets the not-a-PDF message whatever the size; an oversize PDF gets the size message; a sizing error propagates only after the name check |
| Extract.SizeBoundaryExamples | backend/utils/extract.py:15-51 | exactly 10 MiB passes and one byte more fails with the size message |
| Extract.ValidationExamples | backend/utils/extract.py:18-51 | `X.PDF` passes; `x.pdf.txt`, an empty name and a missing name fail with the not-a-PDF message, the missing name even when sizing would raise |
| Extract.CollectText | backend/utils/extract.py:67-69 | the page loop, with `None` pages read as `''`, yields the concatenation of the page texts in order |
| Extract.TextLayer | backend/utils/extract.py:66-72 | the text path is taken exactly when the reader succeeds and the stripped concatenation of the page texts is non-empty, and then carries that text |
| Extract.TextLayerIffInk | backend/utils/extract.py:66-72 | the text path is taken exactly when the reader succeeds and some page has a character that is not whitespace |
| Extract.InkIffNonBlankText | backend/utils/extract.py:67-70 | the stripped concatenation is non-empty exactly when some page has a non-whitespace character |
| Extract.ExtractTextFromPdfFile | backend/utils/extract.py:54-91 | `'text'` mode exactly when the text layer has ink, with OCR never run; otherwise the stripped OCR text in `'ocr'` mode, and a reader failure falls back too; raises exactly when saving fails or OCR fails with no text layer; the temporary copy is removed last on every path once saved |
| Extract.OcrOnlyWithoutTextLayer | backend/utils/extract.py:63-83 | OCR runs exactly when the copy was saved and the text layer is missing, blank or unreadable |
| Extract.ExtractedTextIsStripped | backend/utils/extract.py:72-83 | returned text has no surrounding whitespace; the mode is `'text'` or `'ocr'` |
| Extract.TextPathIgnoresOcr | backend/utils/extract.py:70-72 | when the text layer has ink, the result is the same whatever OCR would produce |
| BackendApp.HandleExtract | backend/app.py:34-58 | checks run in order (no file, then validation, then extraction); statuses are only 200/400/500; a 400 carries `No file uploaded` or the validator's message verbatim; extraction runs exactly for accepted uploads; a 200 passes text and mode through unchanged; an exception in the extraction answers 500 `Failed to extract text from PDF.` |
| BackendApp.StatusIff | backend/app.py:37-58 | 400 exactly for a missing part or a rejected upload; 500 exactly for an exception in validation or extraction; `Internal server error` exactly when validation raised |
| BackendApp.RejectionIgnoresEngines | backend/app.py:37-46 | a request turned away before extraction gets the same reply whatever the engines would do |
| BackendApp.SuccessReportsKnownMode | backend/app.py:49-51 | every 200 reports mode `text` or `ocr`, and its text has no surrounding whitespace |
| PdfApp.OcrFallback | PDF/app.py:55-85 | after a blank text layer: a 200 `ocr` carrying the stripped OCR text only when the copy was written and OCR succeeded, with the effects exactly read, copy, OCR, then removal of `temp.pdf`; a failed copy answers 500 with the copy's message before OCR runs; a failed OCR answers 500 with OCR's message; no 500 removes `temp.pdf` |
| PdfApp.HandleExtractPdf | PDF/app.py:24-85 | a 400 exactly when there is no `pdf` part; an inked text layer gives 200 `text` with OCR not run; a reader failure gives 500 with its message and no OCR fallback; a blank text layer whose copy and OCR succeed gives 200 `ocr` with the stripped OCR text, followed by the removal of `temp.pdf`; no 500 removes it: the removal sits after OCR inside the `try`, not in a `finally` |
| PdfApp.OcrOnlyForBlankLayer | PDF/app.py:28-74 | OCR runs exactly when an upload's text layer is readable but blank and the copy to `temp.pdf` was written |
| PdfApp.ServerErrorRelaysException | PDF/app.py:24-85 | a 500 is answered exactly when the reader raises, or when the text layer is blank and the copy or OCR raises; it carries the message of the first to raise, in the order reader, copy, OCR |
| PdfApp.RoutesAgreeOnReadableDocuments | PDF/app.py:36-81 | for an accepted upload that the back end copies and whose reader succeeds, both routes take the same text-or-OCR decision: an inked text layer gives the same reply from both; a blank one gives a 200 `ocr` from each whose OCR succeeds, each route with its own OCR text |
| PdfApp.RoutesDivergeOnReaderFailure | PDF/app.py:36-85 | on an unreadable document the back end answers 200 from OCR while this route answers 500 with the reader's message |
| Client.Receive | frontend/src/FileUpload.js:30-45 | axios resolves exactly on a 2xx with `res.data.text` and `res.data.mode`, and rejects any other status with the body's `error` |
| FrontendUpload.StatusMessage | frontend/src/FileUpload.js:52-56 | the status line is never empty; it is the stage or one of the two prompts; once idle it is `Awaiting file upload...` exactly when no file is selected |
| FrontendUpload.Begin | frontend/src/FileUpload.js:15-28 | without a file it alerts `Please upload a PDF file first.` and changes no state; otherwise `loading` is set, the stage is `Analyzing PDF...`, the start time is taken, and nothing else changes |
| FrontendUpload.Press | frontend/src/FileUpload.js:67 | the button's `disabled` guard is the only admission control: a click while loading or without a file changes nothing, any other click starts `extractPDF` |
| FrontendUpload.Settle | frontend/src/FileUpload.js:30-49 | on an answer the output is the server text or the exact sentinel, never empty; the mode is the server's or `unknown`; the stage writes are exactly the OCR notice (for mode `ocr` only) followed by `''`; on a failure the alert is the server's error verbatim or the connection message, and output and stats are untouched; every path ends with `loading` false and the stage `''` |
| FrontendUpload.HintAsWritten | frontend/src/FileUpload.js:26-28 | the timer tests the `loading` its closure captured: when that was false nothing changes, otherwise the stage is overwritten whatever the job's state, and nothing else changes |
| FrontendUpload.Hint | frontend/src/FileUpload.js:26-28 | the corrected timer changes nothing but the stage, and only to the text-extraction hint |
| FrontendUpload.InitialValid | frontend/src/FileUpload.js:6-10 | the first render satisfies the invariant |
| FrontendUpload.Next | frontend/src/FileUpload.js:13-67 | the component's reaction to each event, with `HintFired` stepping the corrected job-scoped timer rather than the one written: only picking a file changes the file, only a settling job raises an alert, and a timer changes nothing but the stage |
| FrontendUpload.NextKeepsValid | frontend/src/FileUpload.js:15-67 | every event whose clock reading does not go backwards keeps the invariant: a job is in flight exactly while `loading`, a stage is shown exactly then, output and stats are filled together, and the recorded time is never negative (for the machine whose timer is the corrected `Hint`) |
| FrontendUpload.ReplayKeepsValid | frontend/src/FileUpload.js:6-67 | every state reached from a valid one by events read from a clock that never runs backwards is valid (for the machine whose timer is the corrected `Hint`) |
| FrontendUpload.ReachableValid | frontend/src/FileUpload.js:6-67 | every state reached from the first render is valid, so the recorded time is never negative (for the machine whose timer is the corrected `Hint`) |
| FrontendUpload.SecondPressIgnored | frontend/src/FileUpload.js:67 | while a job is in flight the button is disabled and a press leaves the job untouched |
| FrontendUpload.JobRoundTrip | frontend/src/FileUpload.js:24-38 | press then answer records the elapsed time between the two events and the answered mode; the output is not empty; busy state is cleared |
| FrontendUpload.NoFileNoJob | frontend/src/FileUpload.js:16 | with no file, a press does nothing and a direct call only alerts |
| FrontendUpload.HintOnlyWhileActive | frontend/src/FileUpload.js:26-28 | the corrected hint changes the state exactly when its own job is still in flight, and never touches a finished job |
| FrontendUpload.HintAsWrittenNeverFires | frontend/src/FileUpload.js:22-28 | the timer armed by a job of any reachable state changes nothing whenever it fires, while that job is in flight or after it settled |
| FrontendUpload.StaleHintCounterexample | frontend/src/FileUpload.js:22-28 | after a press, with the request still in flight, the as-written hint leaves `Analyzing PDF...` while the intended one shows the text-extraction stage |
| FrontendUpload.DisplayConsistent | frontend/src/FileUpload.js:52-91 | while loading the status is the current stage; the results area is never blank and, once idle, shows the output or else the placeholder; once idle the stats card and the copy button appear together; the button is disabled exactly when a job is in flight or no file is selected |
| PdfFrontendUpload.Begin | pdf-frontend/src/FileUpload.js:17-25 | without a file it alerts and changes no state; otherwise only `loading` and the start time change |
| PdfFrontendUpload.Press | pdf-frontend/src/FileUpload.js:73 | the button's `disabled` guard is the only admission control: a click while loading or without a file changes nothing, any other click starts `extractPDF` |
| PdfFrontendUpload.Settle | pdf-frontend/src/FileUpload.js:27-40 | on an answer the output is the server text or the sentinel; the mode is the server's or `Standard`; every failure alerts the one connection message with output and stats untouched; `loading` ends false |
| PdfFrontendUpload.InitialValid | pdf-frontend/src/FileUpload.js:5-9 | the first render satisfies the invariant |
| PdfFrontendUpload.Next | pdf-frontend/src/FileUpload.js:13-41 | the component's reaction to each event: only picking a file changes the file, and only a settling job raises an alert |
| PdfFrontendUpload.NextKeepsValid | pdf-frontend/src/FileUpload.js:17-83 | every event whose clock reading does not go backwards keeps the invariant: a job is in flight exactly while `loading`, output and stats are filled together, and the recorded time is never negative |
| PdfFrontendUpload.ReplayKeepsValid | pdf-frontend/src/FileUpload.js:4-83 | every state reached from a valid one by events read from a clock that never runs backwards is valid |
| PdfFrontendUpload.ReachableValid | pdf-frontend/src/FileUpload.js:4-83 | every state reached from the first render is valid, so the recorded time is never negative |
| PdfFrontendUpload.OneJobAtATime | pdf-frontend/src/FileUpload.js:73 | while a job is in flight, a press changes nothing |
| PdfFrontendUpload.FailuresIndistinguishable | pdf-frontend/src/FileUpload.js:35-37 | any two failures settle identically, whatever the server said |
| PdfFrontendUpload.DisplayConsistent | pdf-frontend/src/FileUpload.js:83-109 | the results area shows `Running Smart Analysis...` while loading and otherwise the output or else the placeholder, so it is never blank; once idle the stats card and copy button appear together; the button is disabled exactly when a job is in flight or no file is selected |
| Pipeline.RejectionShownVerbatim | frontend/src/FileUpload.js:41-42 | an upload the back end rejects reaches the user as the validator's own message, with the previous output kept |
| Pipeline.BackendErrorsNeverGeneric | frontend/src/FileUpload.js:39-45 | every non-200 from the back end is shown with its own error message, never the connection message |
| Pipeline.SuccessShowsServerMode | frontend/src/FileUpload.js:33-38 | after a 200 from the back end the stats mode is the engine used, never `unknown`, and the OCR notice appears exactly for OCR |
| Pipeline.OutputMatchesServerText | frontend/src/FileUpload.js:37 | the text-path answer is what the user reads; an OCR pass that recognised nothing shows the sentinel |
| Pipeline.PdfPairModes | pdf-frontend/src/FileUpload.js:30-37 | against `PDF/app.py` the mode is never `Standard`, and every failure, however precise, becomes the connection message |

## Findings

| source | as written | input that shows it | evidently intended | confidence | as-written member | corrected member |
|---|---|---|---|---|---|---|
| frontend/src/FileUpload.js:26-28 | the 500 ms timer tests `loading` as captured by the `extractPDF` closure; that value is `false` whenever the enabled start button was clicked, so the hint never fires | choose a file, press start, and let the server take longer than 500 ms to answer | while the request is still in flight, replace `Analyzing PDF...` with `Text detected, using text extraction...`, and never write to a finished job | not executed; follows from how React closures capture a render's state | FrontendUpload.HintAsWritten (with FrontendUpload.HintAsWrittenNeverFires and FrontendUpload.StaleHintCounterexample) | FrontendUpload.Hint (with FrontendUpload.HintOnlyWhileActive; used by FrontendUpload.Next) |

## Left out

- Rendering, styles, theme objects, the theme toggle, and the Navbar/App/index files are left out. They are presentation only.
- The upper-casing of the mode in the stats card (`stats.mode.toUpperCase()`) is left out as presentation. The model keeps the stored mode.
- The copy-to-clipboard action is left out. Only its guard (`ShowCopy`) is modelled.
- axios and Flask request plumbing, CORS, the environment configuration and the `/` routes are left out. The transport is the `Client.Outcome` input and `Client.Receive`.
- PyPDF2, pdf2image, pytesseract and the `tesseract_cmd` configuration are left out. Their results and exceptions are inputs, and each route has its own OCR input because the routes rasterise at different resolutions.
- `save_file_to_temp`'s uuid naming is left out. So is the validator's own temporary copy and its cleanup (backend/utils/extract.py:38-49), which is folded into the size-or-error input `Upload.size`.
- Exceptions raised by `os.remove` are left out. The utils version swallows them. In `PDF/app.py` one would become a 500, which is not modelled.
- Logging, `print` and `console.error` are left out.
- The latency string `((end - start) / 1000).toFixed(2) + 's'` is left out because it is floating point. The stats keep the elapsed time as the integer difference of the two timestamps.
- `if not file` is modelled as "no `pdf` part". Werkzeug also treats a part with an empty filename as falsy. That is library behaviour this model does not include.
- PyStr.Lower: folds ASCII letters only; Python's full Unicode lower-casing is not modelled.
- A second `extractPDF` call that bypasses the disabled button is left out. The model has one pending slot, and `Begin` reached directly would replace it. Only `Press` starts jobs in `Next`.
- React batching is left out. `Step.stages` lists the values written to `processingStage` in order, not the frames rendered.
- The fixed `temp.pdf` shared by concurrent requests in `PDF/app.py` is left out, because it is a concurrency concern.
- JSON values of the wrong type (a non-string `text`, `mode` or `error`) are left out.
