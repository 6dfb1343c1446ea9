# DocuQuery AI — a verified model of the document Q&A pipeline

DocuQuery AI lets a user upload a PDF, extracts its text, and answers questions about that text with a
language model, keeping a running conversation. This project models the four pieces of its core in
Dafny and proves what each of them promises:

- **`App`** (`app.dfy`): the session state of the React app (`file`, `fileName`, `extractedText`,
  `processingFile`, `qaHistory`, `isLoadingAnswer`, `error`) as a class `Session`, and the three
  handlers that change it. Each asynchronous handler is split at its `await` into a *Begin* event (the
  updates made before the call) and a *Complete* event (the updates made when the call settles). Each
  question/answer pair is an object (`Types.QAPair`) whose fields never change. JavaScript's
  `qa === newQAPair` identity test is therefore reference equality, and `{ ...qa, answer }` allocates a
  new object. A ghost set `outstanding` holds the requests that have been sent and have not settled.
- **`ChatInterface`** (`chat_interface.dfy`): the chat panel. This covers its `question` input state
  (class `ChatForm`), the submit guard, the disabled input and button, the bubbles it renders, and the
  pending indicator. `App.SubmitFromPanel` composes the panel's guard with the app's handler.
- **`PdfProcessor`** (`pdf_processor.dfy`): `extractTextFromPdf`. This is the library check, the
  file read, the parse, and the page loop that accumulates `fullText`. The imperative loop is proved
  equal to the recursive specification `FullText`. Order, length and all-or-nothing properties are
  proved about that specification.
- **`ChatApi`** (`chat_api.dfy`): the serverless handler `api/chat.ts`. It is modelled as pure
  functions: the ordered early-return checks, the API-key selection, the status codes and payloads,
  and the prompt template. The model call is a function parameter `generate`. "The model is not
  called" is proved as "the response is the same for every `generate`".
- **`JsText`** (`js_text.dfy`) and **`Types`** (`types.dfy`): JavaScript's `trim` (with the
  ECMAScript whitespace set) and `Array.prototype.join`, and the shared `Option`, `Result`, `QAPair`
  and `Exchange` types.

Foreign code has no model here: pdf.js, `FileReader`, `fetch` and the Gemini SDK. What these deliver
is given to the model as data:
- `PdfProcessor.FileRead`, `Parse` and `PageFetch` say whether the file was read, whether it parsed,
  and each page's text items or that page's failure.
- `App.AnswerOutcome` is the settled answer request.
- `ChatApi.ModelOutcome` is the SDK's reply.

## Behaviour of the code worth knowing

- Reset does not discard results that arrive later. `CompleteUpload` stores a late extraction result
  even after a reset (App.tsx:30-38). A late answer failure still sets the session `error` and clears
  `isLoadingAnswer`. Only the history update is lost, because the reset history no longer holds the
  pending object (App.tsx:52,56).
- Resolving an exchange a second time is not an error. The first resolution replaced the pending
  object by a copy, so the second one matches nothing and leaves the history unchanged. It still
  clears the loading flag and, on failure, sets the session error.
- App.tsx:42 does not look at `isLoadingAnswer`. "At most one pending question" holds only for
  questions that go through the panel's guard. `App.SubmitFromPanel` proves it for that path.
  `App.AskTwiceBypassingPanel` shows two requests in flight without the panel.
- A failed answer sets the session-wide `error` as well as marking its exchange as an error
  (App.tsx:55-56).
- Reset clears neither `processingFile` nor `isLoadingAnswer` (App.tsx:63-69).
- There is no enumerated session state. The state is the seven fields.
- A field that passes the falsy check can still make the handler fail before the model is called:
  building the prompt converts it to a string, and for a JSON object such as `{"toString": 1}` that
  conversion throws. The outer `catch` answers 500 (api/chat.ts:37-46, 55-57).
- The handler reads `response.text` directly. There is no normalisation of several response shapes
  (api/chat.ts:53).
- An extraction that yields the empty string (a document with no pages) leaves no usable text. `""` is
  falsy, so every question is refused (`App.AcceptsQuestion`).

## Model

| member | source | states |
|---|---|---|
| `App.AcceptsQuestion` | App.tsx:42 | a question is accepted iff there is document text and it is non-empty, and the question is not all whitespace; an empty extracted text refuses every question |
| `App.Replace` | App.tsx:52-56 | the map keeps the length and every entry that is not the target object, puts the replacement at every position that held the target, and when the replacement is a different object the target no longer occurs |
| `App.ReplaceEveryMatch` | App.tsx:52-56 | every position holding the target is replaced, not only the first |
| `App.ReplaceOne` | App.tsx:52 | in a history without repeated objects, replacing the pending object by its resolved copy changes exactly that position |
| `App.ReplaceAbsent` | App.tsx:56 | when the history no longer holds the pending object (e.g. after a reset), the map leaves the history unchanged |
| `App.ReplaceKeepsDistinct` | App.tsx:52-56 | replacing an entry by a new object keeps every object in the history distinct |
| `App.AppendKeepsDistinct` | App.tsx:47-48 | appending the new pair keeps every object in the history distinct |
| `App.Session.constructor` | App.tsx:12-18 | the initial state: no file, empty name, no text, not processing, empty history, not loading, no error |
| `App.Session.BeginUpload` | App.tsx:20-28 | a null file changes nothing; otherwise file and name are taken, processing starts, and error, text and history are cleared before extraction |
| `App.Session.CompleteUpload` | App.tsx:30-38 | success stores the extractor's text; failure keeps the text and sets the fixed "Failed to process the PDF file…" message; processing ends either way; the history is untouched |
| `App.Session.HandleFileSelect` | App.tsx:20-39 | the whole handler: the final text and error are those of the extraction specification, the history is empty, processing has ended |
| `App.Session.BeginAsk` | App.tsx:41-48 | accepted iff `AcceptsQuestion`; a rejected question changes nothing; an accepted one appends exactly one new `{question, answer: ''}` after the unchanged earlier entries, sets loading and clears the error |
| `App.Session.CompleteAsk` | App.tsx:50-60 | only the entry appended for this question is replaced (every other entry stays the same object, and the pending object leaves the history), by the answer or by the fixed "Sorry, an error occurred…" text with `isError`; length and all other entries stay; no-op on the history if the entry is gone; a failure sets the same text as the error; loading ends |
| `App.Session.HandleReset` | App.tsx:63-69 | file, name, text, history and error are cleared; processing and loading flags are left as they were |
| `App.SubmitFromPanel` | App.tsx:117-124 | the panel, fed `isLoadingAnswer`, composed with the app's handler keeps at most one request in flight, and an accepted question shows the pending indicator |
| `App.SettleAnswer` | App.tsx:58-60 | settling the single request in flight leaves none in flight and the loading flag off |
| `App.AskTwiceBypassingPanel` | App.tsx:41-48 | the app's own guard admits a second question while one is loading, leaving two requests in flight |
| `App.SettleFirstOfTwo` | App.tsx:50-56 | with two exchanges pending, settling the first keeps the second exchange (the same object) in second place, so its answer can still land |
| `App.ResolveTwice` | App.tsx:50-56 | a second resolution of the same exchange leaves the history as the first left it: the pending object is gone after the first |
| `App.UploadScenario` | App.tsx:20-39 | loading the two-page document "Hello" / "World" yields the text "Hello\n\nWorld\n\n" with an empty history and no error |
| `App.AskScenario` | components/ChatInterface.tsx:42-48 | a question sent through the panel becomes one pending exchange with an empty answer; a second question is refused while it loads |
| `App.AnswerScenario` | App.tsx:50-52 | the answer "Hello" lands in the pending exchange and loading ends |
| `ChatInterface.SubmitAccepts` | components/ChatInterface.tsx:44 | the submit guard holds iff not loading and the question is not all whitespace |
| `ChatInterface.SendDisabled` | components/ChatInterface.tsx:86 | the send button is disabled exactly when submitting would do nothing, and always when the input (disabled while loading, line 81) is |
| `ChatInterface.ChatForm.constructor` | components/ChatInterface.tsx:32 | the input starts empty |
| `ChatInterface.ChatForm.Change` | components/ChatInterface.tsx:79 | typing sets the question to the input's value |
| `ChatInterface.ChatForm.HandleSubmit` | components/ChatInterface.tsx:42-48 | forwards the question untrimmed iff the guard holds, then clears the input; otherwise forwards nothing and keeps the input |
| `ChatInterface.InputDisabled` | components/ChatInterface.tsx:81 | while the input is disabled no question passes the submit guard |
| `ChatInterface.ExchangeBubbles` | components/ChatInterface.tsx:59-60 | an exchange renders its question first, and a second bubble with the answer and its error flag iff the answer is non-empty |
| `ChatInterface.Bubbles` | components/ChatInterface.tsx:57-62 | the history renders one or two bubbles per exchange, starting with the first question, and no answer bubble is ever empty |
| `ChatInterface.BubblesFollowHistory` | components/ChatInterface.tsx:57-62 | every question is rendered in history order, and an answer bubble appears for exactly the entries with a non-empty answer, in order |
| `ChatInterface.LastAnswer` | components/ChatInterface.tsx:63 | `qaHistory[length - 1]?.answer` is undefined exactly for an empty history, and otherwise the last entry's answer |
| `ChatInterface.ShowsPendingIndicator` | components/ChatInterface.tsx:63 | the indicator shows iff loading and the last entry's answer is empty; never for an empty history |
| `JsText.TrimEmptyIffBlank` | components/ChatInterface.tsx:44 | `s.trim()` is empty (falsy) iff every character of `s` is ECMAScript whitespace |
| `JsText.Trim` | components/ChatInterface.tsx:44 | the trimmed text neither starts nor ends with whitespace |
| `JsText.TrimIsSlice` | components/ChatInterface.tsx:44 | the trimmed text is one contiguous stretch of the input, with only whitespace before and after it |
| `JsText.JoinLength` | src/services/pdfProcessor.ts:36 | the joined length is the sum of the item lengths plus one separator length between each two neighbours |
| `JsText.JoinAppend` | src/services/pdfProcessor.ts:36 | joining one more item gives the earlier join, the separator, then that item |
| `JsText.JoinEnds` | src/services/pdfProcessor.ts:36 | a non-empty join starts with the first item and ends with the last |
| `PdfProcessor.Extraction` | src/services/pdfProcessor.ts:15-52 | without the library the result is "not loaded"; a success means the file was read and parsed and every page fetched, and its text has at least the two separator characters per page |
| `PdfProcessor.ExtractTextFromPdf` | src/services/pdfProcessor.ts:15-52 | the page loop returns exactly the extraction specification: the library check, read error, parse error, any failing page, or the concatenated page texts |
| `PdfProcessor.LibraryCheckFirst` | src/services/pdfProcessor.ts:16-19 | without the pdf.js library the extraction fails the same way whatever the file, with "pdf.js library is not loaded.": nothing is read |
| `PdfProcessor.AllOrNothing` | src/services/pdfProcessor.ts:29-48 | text is returned iff the library is loaded, the file is read and parsed, and every page is fetched; then it is the full text; with a readable file any failure is "Could not extract text from the PDF.", and an unreadable one fails with "Failed to read the file." |
| `PdfProcessor.PageText` | src/services/pdfProcessor.ts:36 | a page's text is its items joined by single spaces: the items' total length plus one per pair of neighbours |
| `PdfProcessor.FullText` | src/services/pdfProcessor.ts:31-38 | the specification of the page loop: every page contributes at least its two-character separator |
| `PdfProcessor.ZeroPages` | src/services/pdfProcessor.ts:31-34 | a document without pages yields the empty string, not an error |
| `PdfProcessor.FullTextAppend` | src/services/pdfProcessor.ts:33-37 | the text of two consecutive runs of pages is the concatenation of their texts |
| `PdfProcessor.PageInPlace` | src/services/pdfProcessor.ts:33-37 | page k's joined items and its "\n\n" sit right after the text of pages 1..k-1: pages appear in increasing order |
| `PdfProcessor.FullTextLength` | src/services/pdfProcessor.ts:36-37 | the text's length is the sum of the page-text lengths plus 2 per page |
| `PdfProcessor.EmptyPage` | src/services/pdfProcessor.ts:36-37 | a page without items contributes exactly "\n\n" |
| `PdfProcessor.TwoPages` | src/services/pdfProcessor.ts:31-39 | pages "Hello" and "World" extract to "Hello\n\nWorld\n\n" |
| `ChatApi.ApiKey` | api/chat.ts:9 | the key is `API_KEY` when it is non-empty, otherwise `VITE_API_KEY` when that is non-empty, otherwise none |
| `ChatApi.Truthy` | api/chat.ts:30 | an absent field is falsy, and a string field is truthy iff it is non-empty |
| `ChatApi.Template` | api/chat.ts:37-46 | the prompt is the instructions, then the document verbatim between "---" lines after "DOCUMENT:", then the question verbatim after "QUESTION:", then a newline |
| `ChatApi.PromptLayout` | api/chat.ts:37-46 | the prompt starts with the fixed instructions and holds the document and the question verbatim in their places |
| `ChatApi.Validate` | api/chat.ts:4-57 | the checks let a request through to the model iff it passes all of them and both fields render as strings (`Accepted`), and then with the selected key and "gemini-2.5-flash"; an early response is always a 400, 405 or 500 error body |
| `ChatApi.Handler` | api/chat.ts:3-58 | the status is one of 200/400/405/500; 405 iff the method is not POST; 200 iff the payload is an answer |
| `ChatApi.RejectedNeverCallsModel` | api/chat.ts:4-32 | a request that fails any check gets the same non-200 response whatever the model would do: the model is not called |
| `ChatApi.AcceptedCallsModel` | api/chat.ts:34-58 | an accepted request (both fields truthy and renderable) sends the selected key, "gemini-2.5-flash" and the prompt over its two fields; 200 with the model's text, or 500 with the fixed message if the call throws |
| `ChatApi.MethodCheckedFirst` | api/chat.ts:4-6 | any method other than POST gets 405 before any other check |
| `ChatApi.MissingKeyIsServerError` | api/chat.ts:11-14 | a POST with neither key set (or both empty) gets 500 "Server misconfiguration: API Key not set", whatever its body |
| `ChatApi.UnparseableBody` | api/chat.ts:18-26 | a string body that fails to parse gets 400 "Invalid JSON body" |
| `ChatApi.FalsyFieldRejected` | api/chat.ts:28-32 | a missing or falsy `documentText` or `question` gets 400 |
| `ChatApi.UnrenderableFieldIsServerError` | api/chat.ts:37-57 | truthy fields whose string conversion throws get the fixed 500 body whatever the model would do: the model is not called |
| `ChatApi.TemplateDeterminesFields` | api/chat.ts:37-46 | given the document's length, the prompt determines both the document and the question |
| `ChatApi.TemplateDelimitersAmbiguous` | api/chat.ts:37-46 | the delimiters are not escaped: a document containing the question header gives the same prompt as a shorter document with a longer question |

## Left out

- services/geminiService.ts (the `fetch` wrapper) is not part of this model. The answer request is the
  abstract outcome `App.AnswerOutcome`, so the path from the handler's response to the app is not
  modelled.
- src/components/FileUpload.tsx is not part of this model. Its `application/pdf` type filter and the
  "Maximum file size: 10MB" text (which nothing enforces) belong to the upload widget, which decides
  whether `handleFileSelect` is called at all.
- src/components/icons.tsx, layout and styling, scrolling (the `useEffect` in the chat panel) and
  `console.error` logging are left out: they draw or log and decide nothing.
- pdf.js, `FileReader`, the worker URL assignment and the Gemini SDK are foreign libraries. Their
  results are inputs. A page's items are the strings `item.str`. A marked-content item has no `str`,
  and `join` renders it as "", so it appears as an empty item.
- Async interleaving is not modelled as concurrency. Begin and Complete are separate sequential events.
- `App.Session.CompleteAsk` allocates one copy for the matched entry. The source's `map` allocates one
  copy per match. Entries are distinct objects (`Session.Valid`), so there is at most one match.
- `ChatApi.Handler`: a `response.text` that is `undefined` (serialised as a payload without `answer`)
  is not modelled; the SDK's reply is a string or a throw. Non-string JSON values carry their
  JavaScript truthiness and template rendering (or that the rendering throws) as data
  (`ChatApi.JsonValue`) instead of computing them.
- Exceptions thrown while building the SDK client are folded into the model call's `Threw` outcome.
  Both lead to the same 500 response.
