/**
 * The state of the upload-and-ask page and its handlers, as values.
 *
 * The page holds five pieces of state: `loading`, `uploaded`, the question
 * text `data`, the `answer` text and the selected `pdf` file.  Each of the
 * two asynchronous handlers is split at its `await` into a Start half (up
 * to and including the request it sends) and a Finish half (the settled
 * outcome of that request, which is an input here).  Every half returns a
 * Step: the request it sent, the toast it raised and the next state.
 */
module PageModel {
  import opened JsString

  datatype Option<T> = None | Some(value: T)

  /** A file chosen in the file input; the browser's File object, reduced to its name and bytes. */
  datatype PdfFile = PdfFile(name: string, content: seq<bv8>)

  datatype State = State(
    loading: bool,
    uploaded: bool,
    data: string,
    answer: string,
    pdf: Option<PdfFile>)

  /** The state the page starts in. */
  const Initial := State(false, false, "", "", None)

  /** The multipart form field that carries the file in the indexing request. */
  const PdfField := "pdf"

  /** What a handler sends to the remote service. */
  datatype Request =
    | NoRequest
    | Indexing(field: string, file: PdfFile)  // POST /indexing, multipart form
    | Query(prompt: string)                   // POST /query, JSON body { prompt }

  /** The toast notifications the handlers raise. */
  datatype Notice =
    | NoFileSelected
    | UploadSuccessful
    | UploadFailed
    | QueryAnswered
    | QueryFailed
    | ResetComplete

  datatype Step = Step(request: Request, notice: Option<Notice>, next: State)

  /** t differs from s at most in the loading flag. */
  predicate SameExceptLoading(s: State, t: State) {
    s.uploaded == t.uploaded && s.data == t.data && s.answer == t.answer && s.pdf == t.pdf
  }

  // ---------------------------------------------------------------------
  // The input setters

  /** The file input's onChange: the first chosen file, or none. */
  function SelectFile(s: State, file: Option<PdfFile>): (r: State)
    ensures r.pdf == file
    ensures r.loading == s.loading && r.uploaded == s.uploaded
    ensures r.data == s.data && r.answer == s.answer
  {
    s.(pdf := file)
  }

  /** The question input's onChange. */
  function SetQuestion(s: State, text: string): (r: State)
    ensures r.data == text
    ensures r.loading == s.loading && r.uploaded == s.uploaded
    ensures r.answer == s.answer && r.pdf == s.pdf
  {
    s.(data := text)
  }

  // ---------------------------------------------------------------------
  // uploadPDF, split at its await

  /** uploadPDF up to the indexing request: fails fast without a file, else sets loading and sends the file. */
  function StartUpload(s: State): (r: Step)
    ensures r.request != NoRequest <==> s.pdf.Some?
    ensures s.pdf.None? ==> r.next == s && r.notice == Some(NoFileSelected)
    ensures s.pdf.Some? ==>
              && r.request == Indexing(PdfField, s.pdf.value)
              && r.notice == None
              && r.next.loading
              && SameExceptLoading(s, r.next)
  {
    match s.pdf
    case None => Step(NoRequest, Some(NoFileSelected), s)
    case Some(file) => Step(Indexing(PdfField, file), None, s.(loading := true))
  }

  /** uploadPDF after the request settled: uploaded is set only on success, loading is always cleared. */
  function FinishUpload(s: State, success: bool): (r: Step)
    ensures r.request == NoRequest
    ensures !r.next.loading
    ensures r.next.uploaded == (s.uploaded || success)
    ensures r.next.data == s.data && r.next.answer == s.answer && r.next.pdf == s.pdf
    ensures r.notice == Some(if success then UploadSuccessful else UploadFailed)
  {
    var settled := if success then s.(uploaded := true) else s;
    Step(NoRequest, Some(if success then UploadSuccessful else UploadFailed), settled.(loading := false))
  }

  // ---------------------------------------------------------------------
  // askQuery, split at its await

  /** askQuery up to the query request: a blank question is dropped silently, else the untrimmed text is sent. */
  function StartAsk(s: State): (r: Step)
    ensures r.notice == None
    ensures r.request != NoRequest <==> !AllWhitespace(s.data)
    ensures AllWhitespace(s.data) ==> r.next == s
    ensures !AllWhitespace(s.data) ==>
              && r.request == Query(s.data)
              && r.next.loading
              && SameExceptLoading(s, r.next)
  {
    BlankIffAllWhitespace(s.data);
    if IsBlank(s.data) then Step(NoRequest, None, s)
    else Step(Query(s.data), None, s.(loading := true))
  }

  /**
   * askQuery after the request settled; `reply` is the answer field of a
   * successful response, None when the request failed.  The answer is
   * replaced verbatim on success and kept (possibly stale) on failure.
   */
  function FinishAsk(s: State, reply: Option<string>): (r: Step)
    ensures r.request == NoRequest
    ensures !r.next.loading
    ensures r.next.answer == (if reply.Some? then reply.value else s.answer)
    ensures r.next.uploaded == s.uploaded && r.next.data == s.data && r.next.pdf == s.pdf
    ensures r.notice == Some(if reply.Some? then QueryAnswered else QueryFailed)
  {
    match reply
    case Some(text) => Step(NoRequest, Some(QueryAnswered), s.(answer := text, loading := false))
    case None => Step(NoRequest, Some(QueryFailed), s.(loading := false))
  }

  // ---------------------------------------------------------------------
  // resetAll

  /** resetAll: back to the initial state in everything but loading, which it does not touch. */
  function Reset(s: State): (r: Step)
    ensures r.request == NoRequest && r.notice == Some(ResetComplete)
    ensures r.next == Initial.(loading := s.loading)
    ensures !s.loading ==> r.next == Initial
  {
    Step(NoRequest, Some(ResetComplete), s.(pdf := None, data := "", answer := "", uploaded := false))
  }

  // ---------------------------------------------------------------------
  // The controls and what the page shows

  datatype Control = FileInput | UploadButton | ResetButton | QuestionInput | AskButton

  /** The `disabled=` expression of each control. */
  predicate Disabled(s: State, c: Control) {
    match c
    case FileInput => s.loading || s.uploaded
    case UploadButton => s.loading || s.uploaded || s.pdf.None?
    case ResetButton => s.loading
    case QuestionInput => !s.uploaded || s.loading
    case AskButton => !s.uploaded || !Truthy(s.data) || s.loading
  }

  /** The "Upload Complete" badge is rendered. */
  predicate BadgeShown(s: State) {
    s.uploaded
  }

  /** The answer panel is rendered. */
  predicate AnswerShown(s: State) {
    Truthy(s.answer)
  }

  /** The caption of the upload button. */
  function UploadCaption(s: State): string {
    if s.loading then "Uploading..." else "Upload PDF"
  }

  // ---------------------------------------------------------------------
  // The controls as guards on the handlers

  /** Each control's enablement, stated positively. */
  lemma ControlEnablement(s: State)
    ensures !Disabled(s, FileInput) <==> !s.loading && !s.uploaded
    ensures !Disabled(s, UploadButton) <==> !s.loading && !s.uploaded && s.pdf.Some?
    ensures !Disabled(s, ResetButton) <==> !s.loading
    ensures !Disabled(s, QuestionInput) <==> s.uploaded && !s.loading
    ensures !Disabled(s, AskButton) <==> s.uploaded && s.data != "" && !s.loading
  {
  }

  /** While a request is in flight every control is disabled, so no second request and no reset can start. */
  lemma InFlightLocksControls(s: State, c: Control)
    requires s.loading
    ensures Disabled(s, c)
  {
  }

  /** Once indexed, neither the file nor the upload can be used again until a reset. */
  lemma IndexedLocksUpload(s: State)
    requires s.uploaded
    ensures Disabled(s, FileInput) && Disabled(s, UploadButton)
  {
  }

  /** An enabled upload button always leads to an indexing request carrying the chosen file. */
  lemma EnabledUploadSends(s: State)
    requires !Disabled(s, UploadButton)
    ensures StartUpload(s).request == Indexing(PdfField, s.pdf.value)
  {
  }

  /** The handlers themselves do not look at loading or uploaded: only the controls keep them apart. */
  lemma HandlersIgnoreLoading(s: State)
    requires s.loading && s.uploaded && s.pdf.Some? && !AllWhitespace(s.data)
    ensures StartUpload(s).request.Indexing? && StartAsk(s).request.Query?
  {
  }

  /** A non-empty, all-whitespace question gets past the ask button but is dropped by the handler: no request, no toast, no change. */
  lemma WhitespaceQuestionPassesAskButton(s: State)
    requires s.uploaded && !s.loading && s.data != "" && AllWhitespace(s.data)
    ensures !Disabled(s, AskButton)
    ensures StartAsk(s) == Step(NoRequest, None, s)
  {
  }

  /** A successful upload round ends indexed and idle, opening the question input. */
  lemma SuccessfulUploadRound(s: State)
    requires !Disabled(s, UploadButton)
    ensures var t := FinishUpload(StartUpload(s).next, true).next;
      BadgeShown(t) && !t.loading && !Disabled(t, QuestionInput) && Disabled(t, UploadButton)
  {
  }

  /** A failed upload round ends idle with the file still chosen, so the upload button is enabled for a retry. */
  lemma FailedUploadAllowsRetry(s: State)
    requires !Disabled(s, UploadButton)
    ensures var t := FinishUpload(StartUpload(s).next, false).next;
      t == s && !Disabled(t, UploadButton)
  {
  }

  /** A successful ask stores the reply verbatim; the panel shows it unless the reply is empty. */
  lemma SuccessfulAskShowsReply(s: State, reply: string)
    requires !Disabled(s, AskButton) && !AllWhitespace(s.data)
    ensures var t := FinishAsk(StartAsk(s).next, Some(reply)).next;
      t == s.(answer := reply) && (AnswerShown(t) <==> reply != "")
  {
  }

  /** A failed ask leaves the previous answer on screen. */
  lemma FailedAskKeepsAnswer(s: State)
    requires !Disabled(s, AskButton) && !AllWhitespace(s.data)
    ensures var t := FinishAsk(StartAsk(s).next, None).next;
      t == s && AnswerShown(t) == AnswerShown(s)
  {
  }

  /** Resetting twice is resetting once. */
  lemma ResetIdempotent(s: State)
    ensures Reset(Reset(s).next) == Reset(s)
  {
  }

  /** Asking a question puts "Uploading..." on the upload button while the query is in flight. */
  lemma AskShowsUploadingCaption(s: State)
    requires !AllWhitespace(s.data)
    ensures UploadCaption(StartAsk(s).next) == "Uploading..."
  {
  }
}
