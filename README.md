# AiPage session model

A Dafny model of the one piece of logic in the rag-frontend web page: the
`AiPage` component's session state machine (`src/app/aipage/page.tsx`).

The page holds five pieces of state: `loading`, `uploaded`, the question
text `data`, the `answer` text and the chosen `pdf` file. The user works it
through three handlers:

- `uploadPDF` sends the chosen file to the indexing service under the form
  field `pdf`.
- `askQuery` sends the question text to the query service.
- `resetAll` clears the page.

Each control's `disabled=` expression keeps the user from running a handler
at the wrong time.

The project has four modules:

- `JsString` (`js_string.dfy`): the JavaScript string semantics the page
  uses. These are `String.prototype.trim` with ECMA-262's whitespace and
  line-terminator set, and string truthiness. The lemma
  `BlankIffAllWhitespace` connects `!s.trim()` with "every character is
  whitespace".
- `PageModel` (`page_model.dfy`): the state as a value. Each asynchronous
  handler is split at its `await` into a Start function and a Finish
  function. The settled outcome of the remote call is an argument of the
  Finish function. Every handler half returns the request it sent, the toast
  it raised and the next state; the two input setters return the next state.
  This module also holds the controls' `disabled=` predicates, the display
  conditions and the lemmas that tie the controls to the handlers.
- `PageRuns` (`page_runs.dfy`): the page driven by a user. A disabled control
  ignores clicks. An enabled click runs its handler to completion before the
  next action. It defines the invariant `Consistent`, which holds between
  actions, and lemmas over whole runs.
- `AiPage` (`ai_page.dfy`): the component as a class `Session`. Its five
  fields are the five hooks, and each handler is a method that updates them
  one setter at a time. Every method is proved equal to its `PageModel`
  function. Three client methods replay end-to-end scenarios against the
  class.

## Model

| member | source | states |
|---|---|---|
| JsString.TrimStart | src/app/aipage/page.tsx:55 | the result is the suffix of the input that starts at its first non-whitespace character; everything dropped is whitespace |
| JsString.TrimEnd | src/app/aipage/page.tsx:55 | the result is the prefix of the input that ends at its last non-whitespace character; everything dropped is whitespace |
| JsString.IsWhitespace | src/app/aipage/page.tsx:55 | the code points `trim()` removes: ECMA-262's WhiteSpace and LineTerminator characters |
| JsString.Truthy | src/app/aipage/page.tsx:134 | JavaScript truthiness of a string: only `""` is falsy |
| JsString.Trim | src/app/aipage/page.tsx:55 | `trim()` returns a slice `s[i..j]` of its input where everything cut off, `s[..i]` and `s[j..]`, is whitespace; the result has no whitespace at either end, and a string that already has none is returned unchanged |
| JsString.TrimIsSlice | src/app/aipage/page.tsx:55 | trimming cuts the input to a slice and drops only whitespace from its two ends |
| JsString.IsBlank | src/app/aipage/page.tsx:55 | the guard `!data.trim()`: the trimmed question is empty |
| JsString.BlankIffAllWhitespace | src/app/aipage/page.tsx:55 | `!data.trim()` holds exactly when every character of `data` is whitespace |
| JsString.TrimIdempotent | src/app/aipage/page.tsx:55 | trimming twice is trimming once |
| PageModel.SelectFile | src/app/aipage/page.tsx:97 | choosing a file (or cancelling, which gives none) replaces `pdf` and nothing else |
| PageModel.SetQuestion | src/app/aipage/page.tsx:130 | typing replaces `data` and nothing else |
| PageModel.StartUpload | src/app/aipage/page.tsx:22-41 | a request goes out exactly when a file is chosen; without a file: the "No file selected" toast and no state change; with a file: the request carries that file under field `pdf`, and only `loading` changes, to true |
| PageModel.FinishUpload | src/app/aipage/page.tsx:42-51 | afterwards `loading` is false; `uploaded` becomes true on success and is unchanged on failure; file, question and answer are untouched; the toast names the outcome |
| PageModel.StartAsk | src/app/aipage/page.tsx:54-63 | a request goes out exactly when the question is not all whitespace; a blank question is dropped silently with no state change; otherwise the untrimmed question is the prompt and only `loading` changes, to true |
| PageModel.FinishAsk | src/app/aipage/page.tsx:64-73 | afterwards `loading` is false; on success `answer` is exactly the reply; on failure the old answer stays; `uploaded`, `data` and `pdf` are untouched |
| PageModel.Reset | src/app/aipage/page.tsx:76-83 | file, question and answer are cleared and `uploaded` is false; `loading` is left as it was; from an idle page the result is the initial state; the "Reset complete" toast is raised |
| PageModel.Disabled | src/app/aipage/page.tsx:96-134 | the five `disabled=` expressions: the file input is disabled when loading or uploaded; upload when loading, uploaded or no file is chosen; reset when loading; the question input when not uploaded or loading; ask when not uploaded, the question is empty, or loading |
| PageModel.BadgeShown | src/app/aipage/page.tsx:116 | the "Upload Complete" badge is rendered exactly when `uploaded` |
| PageModel.AnswerShown | src/app/aipage/page.tsx:141 | the answer panel is rendered exactly when `answer` is a non-empty string |
| PageModel.UploadCaption | src/app/aipage/page.tsx:105 | the upload button reads "Uploading..." while `loading` and "Upload PDF" otherwise |
| PageModel.ControlEnablement | src/app/aipage/page.tsx:96-134 | the file input is enabled iff idle and not indexed; upload iff idle, not indexed and a file is chosen; reset iff idle; the question input iff indexed and idle; ask iff indexed, the question is non-empty and idle |
| PageModel.InFlightLocksControls | src/app/aipage/page.tsx:96-134 | while `loading` every control is disabled, so no second request and no reset can start |
| PageModel.IndexedLocksUpload | src/app/aipage/page.tsx:96-102 | once `uploaded`, the file input and the upload button stay disabled |
| PageModel.EnabledUploadSends | src/app/aipage/page.tsx:102 | an enabled upload button always yields an indexing request with the chosen file |
| PageModel.HandlersIgnoreLoading | src/app/aipage/page.tsx:22-63 | the handlers do not check `loading` or `uploaded` themselves: mid-flight and after indexing they still send |
| PageModel.WhitespaceQuestionPassesAskButton | src/app/aipage/page.tsx:54-55 | on an indexed idle page, every non-empty all-whitespace question enables the ask button (line 134), yet the handler sends nothing, raises no toast and changes nothing |
| PageModel.SuccessfulUploadRound | src/app/aipage/page.tsx:29-51 | a successful upload ends idle and indexed, with the badge shown, the question input enabled and the upload button disabled |
| PageModel.FailedUploadAllowsRetry | src/app/aipage/page.tsx:46-51 | a failed upload returns the page to exactly its state before the click, file still chosen, so upload is enabled again |
| PageModel.SuccessfulAskShowsReply | src/app/aipage/page.tsx:56-73 | a successful ask changes only `answer`, to the reply verbatim, and the answer panel shows it unless the reply is empty |
| PageModel.FailedAskKeepsAnswer | src/app/aipage/page.tsx:68-73 | a failed ask returns the page to exactly its state before the click, so a previous answer stays on screen |
| PageModel.ResetIdempotent | src/app/aipage/page.tsx:76-83 | resetting twice is resetting once |
| PageModel.AskShowsUploadingCaption | src/app/aipage/page.tsx:105 | while a query is in flight the upload button reads "Uploading...", although no upload is running |
| PageRuns.Perform | src/app/aipage/page.tsx:22-83 | a completed action clears `loading` if it sent a request and leaves it alone otherwise; an indexing request comes only from an upload click and carries the chosen file under `pdf`; a query comes only from an ask click and carries the current question |
| PageRuns.Apply | src/app/aipage/page.tsx:96-134 | an action whose control is disabled is swallowed: no request, no change; an enabled one runs its handler |
| PageRuns.Run | src/app/aipage/page.tsx:96-134 | a run sends at most one request per action and never records an empty one |
| PageRuns.InitialConsistent | src/app/aipage/page.tsx:15-19 | the first render is consistent: idle, not indexed, empty question and answer |
| PageRuns.ApplyPreservesConsistent | src/app/aipage/page.tsx:22-134 | every user action through its control keeps the page consistent: idle, an indexed page still has its file, and a question or answer exists only on an indexed page |
| PageRuns.RunPreservesConsistent | src/app/aipage/page.tsx:22-134 | every run of user actions keeps the page consistent |
| PageRuns.UploadedOnlyBySuccess | src/app/aipage/page.tsx:42 | from a consistent unindexed page, an action sets `uploaded` exactly when it is an upload click that succeeds with a file chosen |
| PageRuns.RunUploadedNeedsSuccess | src/app/aipage/page.tsx:42 | a run from an unindexed page ends indexed only if it contains a successful upload |
| PageRuns.NoQueryBeforeUpload | src/app/aipage/page.tsx:128-134 | a run from an unindexed page with no successful upload sends no query and stays unindexed |
| AiPage.Session.constructor | src/app/aipage/page.tsx:15-19 | the hooks start as `loading = false`, `uploaded = false`, `data = ""`, `answer = ""`, `pdf = null` |
| AiPage.Session.OnFileChange | src/app/aipage/page.tsx:97 | the new state is `SelectFile` of the old one |
| AiPage.Session.OnQuestionChange | src/app/aipage/page.tsx:130 | the new state is `SetQuestion` of the old one |
| AiPage.Session.StartUpload | src/app/aipage/page.tsx:22-41 | the request, toast and new state are those of `StartUpload`; a request goes out iff a file was chosen |
| AiPage.Session.FinishUpload | src/app/aipage/page.tsx:42-51 | the toast and new state are those of `FinishUpload`: idle, and `uploaded` set iff it was already set or the call succeeded |
| AiPage.Session.StartAsk | src/app/aipage/page.tsx:54-63 | the request and new state are those of `StartAsk`; a request goes out iff the question is not all whitespace |
| AiPage.Session.FinishAsk | src/app/aipage/page.tsx:64-73 | the toast and new state are those of `FinishAsk`: idle, and `answer` the reply on success or the old answer on failure |
| AiPage.Session.ResetAll | src/app/aipage/page.tsx:76-83 | the toast and new state are those of `Reset`; `loading` is untouched |
| AiPage.UploadThenAsk | src/app/aipage/page.tsx:22-73 | on a fresh page, choosing a file, uploading it, and typing and asking a question sends exactly the file and then the untrimmed question, raises the two success toasts, and ends idle, indexed and holding the reply |
| AiPage.FailedUploadThenRetry | src/app/aipage/page.tsx:22-51 | after a failed upload the same file can be sent again, and a successful retry leaves the page indexed and idle |
| AiPage.AnswerThenReset | src/app/aipage/page.tsx:22-83 | resetting an indexed page that shows an answer gives the initial state, and a second reset keeps it |

## Left out

- `cn` in `src/lib/utils.ts` is not modelled. It only forwards to its class-name merging libraries, which are not part of this model.
- The HTTP calls are not modelled: the URLs, `FormData` and JSON encoding, headers and response parsing. A request is recorded as `Indexing(field, file)` or `Query(prompt)`. The call's outcome is an argument of the Finish half: a success flag for the upload, and the reply text (or none on failure) for the query.
- PageModel.FinishAsk: the reply is taken to be a string. A successful response whose `answer` field is missing or not a string is outside the model, and so is an empty response body: both store a non-string `answer` and raise the "Query answered" toast. A failed request, or a `null` body that makes `res.data.answer` throw, is the failure case.
- Toasts are recorded as a tag (`Notice`) without their titles or descriptions. `console.error` is not modelled.
- The markdown rendering of the answer, its `code` renderer with its regular expression, and all layout and styling are not modelled.
- Clearing the file input's DOM value on reset (page.tsx line 81) is not modelled.
- React's asynchronous state batching is not modelled, and neither are overlapping requests. A Start half and its Finish half are assumed to run with nothing in between. The Finish methods do not check that a request is pending.
- The browser File object is reduced to a name and its bytes.
- JavaScript strings are UTF-16 code units, while Dafny's `string` holds Unicode scalar values, so lone surrogates cannot be written. Every whitespace character `trim` removes lies in the Basic Multilingual Plane, so the blank test is unaffected.

## Behaviour worth noting

- The upload and ask handlers do not read `loading` or `uploaded`. Upload checks only that a file is chosen (page.tsx:23), and ask only that the trimmed question is non-empty (page.tsx:55). Mutual exclusion comes solely from the controls' `disabled=` expressions (`HandlersIgnoreLoading`, `InFlightLocksControls`).
- A failed upload does not touch `uploaded` (page.tsx:46-50, `FinishUpload`).
- No answer is the empty string (page.tsx:18, 79).
- `resetAll` does not touch `loading` (page.tsx:76-83). It gives the first-render state only from an idle page, and the reset button is enabled only then (page.tsx:111; `Reset`, `ControlEnablement`).
- A blank question returns without a toast (page.tsx:55), whereas a missing file raises one (page.tsx:23-27).
- A failed ask keeps the previous answer on screen (page.tsx:68-72, `FailedAskKeepsAnswer`).
- The upload button's caption follows `loading`, so it reads "Uploading..." during a query too (page.tsx:105, `AskShowsUploadingCaption`).
