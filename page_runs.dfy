/**
 * The page driven by its user.  A disabled control ignores the user, so
 * every user action goes through its control's `disabled=` guard; an
 * enabled click runs its handler to completion (the Start half, then the
 * Finish half fed with the action's remote outcome) before the next action.
 */
module PageRuns {
  import opened JsString
  import opened PageModel

  /** A user action; the clicks carry the outcome the remote service gives if a request goes out. */
  datatype Action =
    | ChooseFile(file: Option<PdfFile>)
    | TypeQuestion(text: string)
    | ClickUpload(succeeds: bool)
    | ClickAsk(reply: Option<string>)
    | ClickReset

  /** The request an action sent (NoRequest if none) and the state it left. */
  datatype Effect = Effect(sent: Request, next: State)

  /** The requests a run sent, in order, and the state it ended in. */
  datatype Trace = Trace(sent: seq<Request>, final: State)

  /** The control an action goes through. */
  function ControlOf(a: Action): Control {
    match a
    case ChooseFile(_) => FileInput
    case TypeQuestion(_) => QuestionInput
    case ClickUpload(_) => UploadButton
    case ClickAsk(_) => AskButton
    case ClickReset => ResetButton
  }

  /** The handler of an action, run to completion. */
  function Perform(s: State, a: Action): (r: Effect)
    ensures r.sent == NoRequest ==> r.next.loading == s.loading
    ensures r.sent != NoRequest ==> !r.next.loading
    ensures r.sent.Indexing? ==> a.ClickUpload? && r.sent.field == PdfField && s.pdf == Some(r.sent.file)
    ensures r.sent.Query? ==> a.ClickAsk? && r.sent.prompt == s.data
  {
    match a
    case ChooseFile(file) => Effect(NoRequest, SelectFile(s, file))
    case TypeQuestion(text) => Effect(NoRequest, SetQuestion(s, text))
    case ClickUpload(ok) =>
      var start := StartUpload(s);
      if start.request == NoRequest then Effect(NoRequest, start.next)
      else Effect(start.request, FinishUpload(start.next, ok).next)
    case ClickAsk(reply) =>
      var start := StartAsk(s);
      if start.request == NoRequest then Effect(NoRequest, start.next)
      else Effect(start.request, FinishAsk(start.next, reply).next)
    case ClickReset => Effect(NoRequest, Reset(s).next)
  }

  /** One user action: ignored when its control is disabled. */
  function Apply(s: State, a: Action): Effect {
    if Disabled(s, ControlOf(a)) then Effect(NoRequest, s) else Perform(s, a)
  }

  /** A sequence of user actions, one after another. */
  function Run(s: State, acts: seq<Action>): (r: Trace)
    ensures |r.sent| <= |acts|
    ensures forall k :: 0 <= k < |r.sent| ==> r.sent[k] != NoRequest
    decreases |acts|
  {
    if acts == [] then Trace([], s)
    else
      var e := Apply(s, acts[0]);
      var rest := Run(e.next, acts[1..]);
      Trace((if e.sent == NoRequest then [] else [e.sent]) + rest.sent, rest.final)
  }

  /**
   * What holds between user actions: nothing is in flight, an indexed
   * session still has its file, and a question or answer exists only in
   * an indexed session.
   */
  predicate Consistent(s: State) {
    && !s.loading
    && (s.uploaded ==> s.pdf.Some?)
    && (!s.uploaded ==> s.data == "" && s.answer == "")
  }

  lemma InitialConsistent()
    ensures Consistent(Initial)
  {
  }

  /** Every action keeps the page consistent. */
  lemma ApplyPreservesConsistent(s: State, a: Action)
    requires Consistent(s)
    ensures Consistent(Apply(s, a).next)
  {
  }

  /** Every run keeps the page consistent. */
  lemma {:induction false} RunPreservesConsistent(s: State, acts: seq<Action>)
    requires Consistent(s)
    ensures Consistent(Run(s, acts).final)
    decreases |acts|
  {
    if acts != [] {
      ApplyPreservesConsistent(s, acts[0]);
      RunPreservesConsistent(Apply(s, acts[0]).next, acts[1..]);
    }
  }

  /** In a consistent state, an action sets `uploaded` exactly when it is an enabled upload click that succeeds. */
  lemma UploadedOnlyBySuccess(s: State, a: Action)
    requires Consistent(s) && !s.uploaded
    ensures Apply(s, a).next.uploaded <==> (a == ClickUpload(true) && s.pdf.Some?)
  {
  }

  /** A run from an unindexed state ends indexed only if it contains a successful upload. */
  lemma {:induction false} RunUploadedNeedsSuccess(s: State, acts: seq<Action>)
    requires Consistent(s) && !s.uploaded
    ensures Run(s, acts).final.uploaded ==> ClickUpload(true) in acts
    decreases |acts|
  {
    if acts != [] {
      var e := Apply(s, acts[0]);
      ApplyPreservesConsistent(s, acts[0]);
      if acts[0] != ClickUpload(true) {
        UploadedOnlyBySuccess(s, acts[0]);
        RunUploadedNeedsSuccess(e.next, acts[1..]);
        if ClickUpload(true) in acts[1..] {
          var k :| 0 <= k < |acts[1..]| && acts[1..][k] == ClickUpload(true);
          assert acts[k + 1] == ClickUpload(true);
        }
      }
    }
  }

  /** A run from an unindexed state without a successful upload sends no query. */
  lemma {:induction false} NoQueryBeforeUpload(s: State, acts: seq<Action>)
    requires Consistent(s) && !s.uploaded
    requires forall k :: 0 <= k < |acts| ==> acts[k] != ClickUpload(true)
    ensures forall k :: 0 <= k < |Run(s, acts).sent| ==> !Run(s, acts).sent[k].Query?
    ensures !Run(s, acts).final.uploaded
    decreases |acts|
  {
    if acts != [] {
      var e := Apply(s, acts[0]);
      ApplyPreservesConsistent(s, acts[0]);
      UploadedOnlyBySuccess(s, acts[0]);
      NoQueryBeforeUpload(e.next, acts[1..]);
    }
  }
}
