# LegalDocs core, modelled in Dafny

LegalDocs is a browser client that fills in a Will or a Power of Attorney
form, asks the backend for a watermarked preview PDF as base64 text, shows
that PDF page by page in the browser, and then downloads the final document.
This project models the four pieces of that system that have real logic:

- **The preview component** (`frontend/src/components/Preview.jsx`), in module
  `Preview`. Its payload normaliser turns the `base64` prop into a blob URL, a
  data URI for a new tab, and the decoded bytes; it is modelled as the
  function `Normalise`, and the memo's array-filling loop as the method
  `Memo`. Its render controller is the class `PreviewComponent`. It keeps the
  render-generation counter (`renderIdRef`), the loading-task reference, the
  recorded object URL, the canvas container's children, `renderError` and
  `isRendering`. Every awaited step of `renderPdf` is a separate method, and
  the caller supplies each step's outcome, so interleavings of two renders are
  sequences of method calls.
- **Base64** (module `Base64`). The producer is Python's `base64.b64encode` in
  `backend/app/main.py`. It uses the alphabet of section 4 of RFC 4648 with
  `=` padding. The consumer is the browser's `atob`, which runs the
  forgiving-base64 decode of the WHATWG Infra Standard. `DecodeEncode` proves
  that the two ends agree.
- **The PDF builder** (`backend/app/pdf_utils.py`), in module `PdfUtils`.
  `fill_template` is a left-to-right fold of Python's `str.replace` over the
  mapping's pairs. `draw_multiline_text` is a greedy line breaker with an
  abstract width function standing in for ReportLab's `stringWidth`.
  `build_pdf_from_template` picks title and template by document type and
  optionally adds the watermark. The ReportLab canvas is modelled as the log
  of the drawing operations issued on it.
- **The two form pages** (`frontend/src/pages/WillForm.jsx` and
  `frontend/src/pages/PoAForm.jsx`), in module `Forms`. They share one class,
  `FormPage`, whose `kind` selects the field list, the required-field rule and
  the `doc_type` that is sent. Network outcomes are parameters.

Module `Text` holds the string operations both languages' standard libraries
provide (`startsWith`, `indexOf`, whitespace removal, `trim`/`strip`,
`split`), and `Wrappers` holds `Option`, which stands for `null`/`None`.

Whitespace is one fixed set of six ASCII characters: space, tab, line feed,
vertical tab, form feed and carriage return (`Text.IsSpace`). It stands for
JavaScript's `\s` and `trim()` and for Python's `str.split()` and `strip()`.
The characters those treat as whitespace beyond these six are left out; see
"## Left out".

Two behaviours of the preview component are modelled as the code has them:

- Object URLs created for earlier payloads are never revoked. Each decoded
  payload overwrites `objectUrlRef` (`Preview.jsx:37`), and only the URL
  recorded last is revoked, on unmount (`Preview.jsx:49-56`).
  `SupersededRender` shows this: after two payloads, only handle 1 is revoked.
- A superseded run's `finally` block clears `isRendering` while the newer run
  is still at work, and its `catch` block can still set `renderError`.
  `Supersede` shows the first of these.

## Model

| member | source | states |
|---|---|---|
| Text.Find | frontend/src/components/Preview.jsx:25 | `indexOf`: the result is an occurrence, and no occurrence lies to its left; None means no occurrence at all |
| Text.RemoveSpaces | frontend/src/components/Preview.jsx:28 | the result has no whitespace and is no longer than the input |
| Text.RemoveSpacesOfNoSpace | frontend/src/components/Preview.jsx:28 | a string without whitespace is kept as it is |
| Text.RemoveSpacesOfBlank | frontend/src/components/Preview.jsx:28 | a string of whitespace only becomes empty; with the two lemmas around it, removal is the filter that keeps every other character in order |
| Text.RemoveSpacesIdempotent | frontend/src/components/Preview.jsx:28 | removing whitespace twice is removing it once |
| Text.RemoveSpacesAppend | frontend/src/components/Preview.jsx:28 | whitespace removal distributes over concatenation |
| Text.Strip | frontend/src/pages/WillForm.jsx:52 | `trim()`: the result neither starts nor ends with whitespace |
| Text.StripIsSlice | frontend/src/pages/WillForm.jsx:52 | `trim()` returns the slice `s[i..j]` of its input, and every character cut off before `i` or from `j` on is whitespace |
| Text.StripBlank | frontend/src/pages/WillForm.jsx:52 | a string trims to empty exactly when every character is whitespace |
| Text.Words | backend/app/pdf_utils.py:39 | `str.split()`: every word is non-empty and has no whitespace |
| Text.WordsConcat | backend/app/pdf_utils.py:39 | the words, laid end to end, are the paragraph with its whitespace removed |
| Text.WordsOfWord | backend/app/pdf_utils.py:39 | a non-empty string without whitespace is exactly one word |
| Text.WordsAtSpace | backend/app/pdf_utils.py:39 | a whitespace character separates words: the words of `a + [c] + b` are those of `a` followed by those of `b` |
| Text.SplitOn | backend/app/pdf_utils.py:38 | `split("\n")`: at least one part, and no part holds the separator |
| Text.JoinSplitOn | backend/app/pdf_utils.py:38 | joining the parts with the separator gives back the text |
| Base64.Sextets | backend/app/main.py:36 | the six-bit groups: a multiple of four for whole 3-byte quanta, plus 3 for a final pair and 2 for a final byte |
| Base64.Encode | backend/app/main.py:36 | `b64encode` output has a length that is a multiple of 4, and is empty only for empty input |
| Base64.ForgivingDecode | frontend/src/components/Preview.jsx:29 | `atob` succeeds exactly when the unpadded, whitespace-free input has length not 1 mod 4 and holds only alphabet characters |
| Base64.DecodeRejectsForeign | frontend/src/components/Preview.jsx:29 | one character outside the alphabet, other than whitespace and `=`, makes `atob` fail |
| Base64.FromSextetsSextets | backend/app/main.py:36 | regrouping the encoder's six-bit groups into bytes gives the original bytes |
| Base64.DropPaddingOfEncode | backend/app/main.py:36 | the decoder's padding step removes exactly the padding the encoder added |
| Base64.DecodeEncode | backend/app/main.py:36 | `atob(b64encode(b))` yields `b` for every byte sequence |
| Preview.CharCodes | frontend/src/components/Preview.jsx:30-34 | one byte per character; byte i is the i-th character code, reduced modulo 256 as `Uint8Array` does (this states the code's own condition; the properties built on it are in the rows that follow) |
| Preview.ByteArrayOf | frontend/src/components/Preview.jsx:30-34 | the filling loop produces one byte per decoded character, byte i being the i-th character code |
| Preview.Memo | frontend/src/components/Preview.jsx:19-46 | the memo's step-by-step computation equals the normaliser `Normalise` |
| Preview.Normalise | frontend/src/components/Preview.jsx:19-46 | null or empty input gives three nulls; otherwise the new-tab URL is a `data:` URI; bytes are present exactly when the cleaned body decodes, and then the view URL is the new blob URL; on failure the view URL is the new-tab data URI |
| Preview.NormaliseDecoded | frontend/src/components/Preview.jsx:29-39 | on success: the blob URL, the original string if it starts with `data:` (else the PDF data-URI prefix plus the cleaned body), and the character codes (this states the code's own condition; the properties built on it are in the rows that follow) |
| Preview.NormaliseFailed | frontend/src/components/Preview.jsx:40-44 | on failure: view URL and new-tab URL are the same data URI, namely the original string if it starts with `data:`, else the prefix plus the original, and no bytes (this states the code's own condition; the properties built on it are in the rows that follow) |
| Preview.CleanBodyOfDataUri | frontend/src/components/Preview.jsx:23-28 | for a `data:` URI whose media type has no comma, the body is what follows the first comma, with whitespace removed |
| Preview.PrefixAndWhitespaceIgnored | frontend/src/components/Preview.jsx:23-28 | a data-URI payload with whitespace in its body decodes to the same bytes as the bare, whitespace-free body |
| Preview.DecodesBackendEncoding | frontend/src/components/Preview.jsx:19-39 | the backend's encoding of non-empty bytes normalises to those very bytes, the blob URL, and the PDF data URI around the encoding |
| Preview.DataUriRoundTrip | frontend/src/components/Preview.jsx:23-39 | the backend's encoding, wrapped in the PDF data URI with whitespace anywhere, gives the original bytes, and the new-tab URL is the input as given |
| Preview.CleanBodyWhole | frontend/src/components/Preview.jsx:23-28 | without a `data:` scheme, or with one but no comma, the body is the whole payload with its whitespace removed |
| Preview.BareWhitespaceRoundTrip | frontend/src/components/Preview.jsx:23-39 | the backend's encoding with whitespace anywhere, sent without a scheme, gives the original bytes, the blob URL, and the PDF data URI around the whitespace-free encoding |
| Preview.GarbageFallsBack | frontend/src/components/Preview.jsx:40-44 | a payload with a non-base64 character does not throw; it gives no bytes and the data URI built around the original, twice |
| Preview.SurfacesAt | frontend/src/components/Preview.jsx:87-106 | in the pages of a finished run, node 2i is page i+1's canvas and node 2i+1 its spacer |
| Preview.SurfacesGeneration | frontend/src/components/Preview.jsx:87-106 | every canvas of a run's pages belongs to that run's generation, in ascending page order, each followed by a spacer |
| Preview.ErrorAfterCatch | frontend/src/components/Preview.jsx:107-113 | a cancellation message leaves `renderError` as it was; any other message sets it to the inline-failure prefix followed by the message |
| Preview.WorkerDestroyedIsCancellation | frontend/src/components/Preview.jsx:110 | a message containing "Worker was destroyed" anywhere is a cancellation |
| Preview.WorkerTerminatedIsCancellation | frontend/src/components/Preview.jsx:110 | a message containing "Worker was terminated" anywhere is a cancellation |
| Preview.CancellationIgnoresCase | frontend/src/components/Preview.jsx:110 | the test ignores case: a message is a cancellation exactly when its lower-case form is |
| Preview.LoopHead | frontend/src/components/Preview.jsx:87-89 | the page loop continues exactly when pages remain and the run's captured ID is still current (this states the code's own condition; the properties built on it are in the rows that follow) |
| Preview.PreviewComponent.constructor | frontend/src/components/Preview.jsx:10-81 | mounting computes the memo for the first payload; with bytes, one run starts at generation 1 with an empty container and loading task 0 is taken; without bytes, no run, no loading task, no error and no rendering; the object URL and task counters advance exactly when there are bytes |
| Preview.PreviewComponent.NormalisePayload | frontend/src/components/Preview.jsx:19-46 | a changed prop recomputes the memo; a decoded payload overwrites the recorded object URL, and nothing else changes |
| Preview.PreviewComponent.RenderPdf | frontend/src/components/Preview.jsx:59-81 | without bytes nothing changes; with bytes the counter goes up by one, a new run captures it, the container is emptied, the error is cleared and rendering starts |
| Preview.PreviewComponent.StartRun | frontend/src/components/Preview.jsx:62-80 | bump and capture the generation, clear the container before any append, record a new loading task |
| Preview.PreviewComponent.CleanupRender | frontend/src/components/Preview.jsx:125-136 | the counter goes up by one, the outstanding loading task is destroyed once and forgotten, and the container is emptied |
| Preview.PreviewComponent.ReceiveProp | frontend/src/components/Preview.jsx:19-137 | a new prop re-runs the render effect exactly when the byte array changes; the cleanup's bump and the new run's bump raise the counter by two; the whole new state is given in each case, including a stale run's flags left as they were when the new payload has no bytes |
| Preview.PreviewComponent.Finish | frontend/src/components/Preview.jsx:107-116 | every exit of a run sets `isRendering` false, and sets `renderError` as the catch block does |
| Preview.PreviewComponent.DocumentSettled | frontend/src/components/Preview.jsx:81-85 | an opened document moves the run to the animation-frame wait; a rejection ends it through the catch and finally blocks |
| Preview.PreviewComponent.FrameElapsed | frontend/src/components/Preview.jsx:85-89 | after the frame the loop starts at page 1 if the run is current and has pages; otherwise the run ends without touching the container |
| Preview.PreviewComponent.PageSettled | frontend/src/components/Preview.jsx:90-100 | a fetched page moves the run to the render wait; a rejection ends it |
| Preview.PreviewComponent.PageRendered | frontend/src/components/Preview.jsx:100-106 | a superseded run appends nothing and ends; the current run appends its page's canvas and a spacer and moves on to the next page or ends |
| Preview.PreviewComponent.AppendPage | frontend/src/components/Preview.jsx:101-106 | the container grows by exactly (canvas of this page, spacer) |
| Preview.PreviewComponent.Unmount | frontend/src/components/Preview.jsx:49-56 | the recorded object URL, if any, is revoked once and nulled; then the render cleanup runs |
| Preview.RenderRemainingPages | frontend/src/components/Preview.jsx:87-106 | an uninterrupted current run ends with the container holding exactly its N pages and no error change |
| Preview.Mount | frontend/src/components/Preview.jsx:19-81 | mounting with the backend's encoding starts generation 1 over the original bytes |
| Preview.UninterruptedRender | frontend/src/components/Preview.jsx:59-116 | a run over N pages ends with exactly N (canvas, spacer) pairs in page order, `isRendering` false and no error |
| Preview.AwaitFirstRender | frontend/src/components/Preview.jsx:59-100 | mounting, opening the document and fetching page 1 leaves the run waiting on page 1's render with an empty container |
| Preview.Supersede | frontend/src/components/Preview.jsx:59-137 | a second payload during the first run's render moves to generation 3, the first run appends nothing, and its finally clears `isRendering` |
| Preview.SupersededRender | frontend/src/components/Preview.jsx:49-137 | after two payloads in quick succession only the second generation's pages remain; unmount revokes only the second object URL |
| Preview.UnmountMidRender | frontend/src/components/Preview.jsx:49-137 | unmounting mid-render revokes the object URL once, destroys the task, and the late page render appends nothing |
| Preview.MountGarbage | frontend/src/components/Preview.jsx:40-61 | mounting with a payload that has a non-base64 character yields no bytes, so no run, no loading task and no error, and the view falls back to the data URI around the payload |
| Preview.UnmountWhileLoading | frontend/src/components/Preview.jsx:107-116 | a "Worker was destroyed" rejection after unmount shows no error and ends rendering |
| Preview.FailedRender | frontend/src/components/Preview.jsx:107-116 | a non-cancellation failure shows the inline-failure message and ends rendering |
| PdfUtils.ReplaceAllFind | backend/app/pdf_utils.py:30 | `str.replace`: without an occurrence the string is kept; otherwise the text before the leftmost occurrence is kept, the replacement follows, and the scan resumes after the occurrence |
| PdfUtils.ReplaceAbsent | backend/app/pdf_utils.py:30 | a step whose placeholder does not occur leaves the string unchanged |
| PdfUtils.ReplaceSelf | backend/app/pdf_utils.py:30 | replacing a pattern by itself changes nothing |
| PdfUtils.FillTemplate | backend/app/pdf_utils.py:27-31 | the loop's result is the fold `Fill` of replace-all over the pairs in order; with no pairs the template is returned |
| PdfUtils.FillAppend | backend/app/pdf_utils.py:27-31 | filling with a + b is filling with a and then with b |
| PdfUtils.FillWithoutBraces | backend/app/pdf_utils.py:27-31 | a template without `{{` comes back unchanged for any data |
| PdfUtils.WrapParagraph | backend/app/pdf_utils.py:39-49 | the inner loop emits the greedy lines `Wrap` of the paragraph's words, then the spacing line |
| PdfUtils.BreakLines | backend/app/pdf_utils.py:37-49 | the outer loop emits every paragraph's lines in turn |
| PdfUtils.LinesCount | backend/app/pdf_utils.py:38-49 | there are at least twice as many lines as paragraphs |
| PdfUtils.WrapJoin | backend/app/pdf_utils.py:41-48 | the breaker keeps the words and their order: the non-empty lines joined by spaces equal the words joined by spaces |
| PdfUtils.ParagraphKeepsWords | backend/app/pdf_utils.py:39-48 | within a paragraph, the non-empty lines joined by single spaces equal its words joined by single spaces |
| PdfUtils.LinesOfFit | backend/app/pdf_utils.py:41-48 | every emitted line is empty, a single word, or narrower than `max_width` |
| PdfUtils.DrawLines | backend/app/pdf_utils.py:51-54 | one `drawString` per line, each `leading` below the previous, and the height below the last line returned |
| PdfUtils.DrawOpsAt | backend/app/pdf_utils.py:51-53 | the i-th call draws line i at x and at y minus i times the leading |
| PdfUtils.BelowIs | backend/app/pdf_utils.py:53-54 | the returned height is `y - leading * len(lines)` |
| PdfUtils.DrawMultilineText | backend/app/pdf_utils.py:34-54 | the canvas receives the drawing calls for exactly the broken lines, and the height below them is returned |
| PdfUtils.AddWatermark | backend/app/pdf_utils.py:57-64 | the watermark's seven canvas calls, in order |
| PdfUtils.BuildPdfFromTemplate | backend/app/pdf_utils.py:67-95 | the page is the title, the filled template's lines, the watermark when asked for, then page end and save |
| PdfUtils.DocumentContents | backend/app/pdf_utils.py:74-89 | "WILL" selects the Will title and template and anything else the POA ones; the lines drawn are the filled template's lines; the watermark is drawn iff requested |
| Forms.RulesAgree | frontend/src/pages/PoAForm.jsx:128 | the POA rule rejects a field exactly when it is not `additional_terms` and the Will rule rejects it |
| Forms.AdditionalTermsNeverRequired | frontend/src/pages/PoAForm.jsx:127-130 | `additional_terms` is a POA field and is never reported |
| Forms.CollectErrors | frontend/src/pages/WillForm.jsx:49-55 | the new error map holds exactly the page's failing fields, each with "This field is required" |
| Forms.PreviewOf | frontend/src/pages/WillForm.jsx:66-70 | the preview is the response's `pdf_base64` when present and non-empty, otherwise null (this states the code's own condition; the properties built on it are in the rows that follow) |
| Forms.FormPage.constructor | frontend/src/pages/WillForm.jsx:34-38 | empty form data and errors, no request in flight, no preview, not final |
| Forms.FormPage.HandleInputChange | frontend/src/pages/WillForm.jsx:41-46 | the field takes the new value and no other field changes; its error becomes null only if one was shown, and other errors are kept |
| Forms.FormPage.ValidateForm | frontend/src/pages/WillForm.jsx:48-58 | the errors are replaced wholesale by exactly the failing fields; the result is true iff every field passes, iff there are no errors |
| Forms.FormPage.HandleSubmit | frontend/src/pages/WillForm.jsx:60-66 | an invalid form makes no request and leaves the flags; a valid one posts the form with its doc type, sets `isSubmitting` and clears `finalReady` |
| Forms.FormPage.SubmitSettled | frontend/src/pages/WillForm.jsx:66-73 | the preview is the response's `pdf_base64` or null, and `isSubmitting` ends false |
| Forms.FormPage.HandlePay | frontend/src/pages/WillForm.jsx:76-93 | `finalReady` is set only by a successful download; the preview is cleared either way |
| Forms.SubmitBlank | frontend/src/pages/PoAForm.jsx:125-137 | submitting an untouched page makes no request and reports every required field (all but `additional_terms` on the POA page) |
| Forms.PreviewThenPay | frontend/src/pages/PoAForm.jsx:136-170 | a complete form's preview request carries the form, the preview follows the response, and paying clears it and records the download |

## Left out

- PDF.js (`getDocument`, `getPage`, `render`, `destroy`) is a foreign library. A document is its page count, a loading task is a handle, and each awaited step's outcome (resolved, or rejected with a message) is a method parameter.
- The viewport, scale and canvas-size arithmetic (`Preview.jsx:86-99`) is floating point and is not modelled. The container width, including its fallback of 800, plays no part in the model. A canvas node records only its generation and page number.
- The buffer copy before `getDocument` (`Preview.jsx:77-78`) is not modelled. Byte sequences are values, so no engine can detach them.
- Promises, `requestAnimationFrame` and the event loop are not modelled. Each suspension point is a separate transition, and nothing runs concurrently.
- Blobs and `URL.createObjectURL`/`revokeObjectURL` are handle allocation and a log of revoked handles. The memo's catch block also covers `Blob` or `createObjectURL` throwing; the model treats those calls as always succeeding, so only a decode failure reaches the fallback.
- Preview.PreviewComponent.RenderPdf: requires that the previous render effect's cleanup has run. React's effect ordering guarantees this, so the destroy branch of `Preview.jsx:69-72` is never taken and is not modelled as a transition.
- Preview.PreviewComponent.FrameElapsed: when the document resolves after unmount, `Preview.jsx:83-86` reads `clientWidth` of a null container and throws a `TypeError`. That is not a cancellation, so the catch calls `setRenderError` on an unmounted component, which React ignores. The model ends the run at that point without the throw; the visible state is the same.
- The `cancelled` flag of `Preview.jsx:118-126` is read only synchronously before the first await, when it is always false, so it is not modelled.
- The fallback `<object>`/`<embed>` markup and the rest of the JSX: only `renderError` being set is modelled.
- PdfUtils.DrawMultilineText, PdfUtils.DrawLines, PdfUtils.DrawOpsAt, PdfUtils.BelowIs: Python floats (`x`, `y`, `leading`, `max_width`, and `y -= leading`) are Dafny `real`s, so the heights hold in exact arithmetic. With IEEE doubles they hold only while every value is exactly representable. The one caller's values (684, 72, 468, 14, and their differences) are.
- ReportLab canvas calls are a log of operations; fonts, font metrics and the PDF bytes are not modelled. `stringWidth` is an abstract function parameter.
- Whitespace beyond the six ASCII characters of `Text.IsSpace` is not modelled. That includes the ASCII separators `\x1c`-`\x1f`, which Python's `str.split()` and `strip()` treat as whitespace (JavaScript's `\s` and `trim()` do not), and the non-ASCII whitespace of both languages (`\x85`, no-break space, the Unicode space separators, and JavaScript's byte-order mark). A string holding one of these splits or trims differently in the model.
- `fill_template`'s data is a sequence of pairs in the dict's insertion order; `str(v)` is the identity because the values are strings.
- FastAPI routes, CORS and `StreamingResponse` (`backend/app/main.py`), the axios client, and Pydantic models are not part of this model. The network calls of the forms are parameters (`PostOutcome`, `downloaded`).
- The forms' local-storage draft load and save, `JSON.parse`, the 300 ms debounce and the anchor-click download are not modelled. Since only text inputs fill the form, a form value is a string or absent, never `null`.
- Presentation files (`Home.jsx`, `GlassSidebar.jsx`, `Sidebar.jsx`, `Header.jsx`, `PageHeader.jsx`, `App.jsx`) and all styling are not part of this model.
