/**
 * The AiPage component as an object: its five state hooks are fields and
 * its handlers are methods that update them one setter at a time.  Each
 * asynchronous handler is two methods, split at its `await`; the remote
 * outcome is the argument of the second one.  Every method is proved to
 * do what the matching function of PageModel says.
 */
module AiPage {
  import opened JsString
  import opened PageModel

  class Session {
    var loading: bool
    var uploaded: bool
    var data: string
    var answer: string
    var pdf: Option<PdfFile>

    /** The current state as a value. */
    function Snapshot(): State
      reads this
    {
      State(loading, uploaded, data, answer, pdf)
    }

    /** The component's first render. */
    constructor ()
      ensures Snapshot() == Initial
    {
      loading, uploaded := false, false;
      data, answer := "", "";
      pdf := None;
    }

    /** The file input's onChange. */
    method OnFileChange(file: Option<PdfFile>)
      modifies this
      ensures Snapshot() == SelectFile(old(Snapshot()), file)
    {
      pdf := file;
    }

    /** The question input's onChange. */
    method OnQuestionChange(text: string)
      modifies this
      ensures Snapshot() == SetQuestion(old(Snapshot()), text)
    {
      data := text;
    }

    /** uploadPDF up to its await. */
    method StartUpload() returns (request: Request, notice: Option<Notice>)
      modifies this
      ensures Step(request, notice, Snapshot()) == PageModel.StartUpload(old(Snapshot()))
      ensures request != NoRequest <==> old(pdf).Some?
    {
      if pdf.None? {
        request, notice := NoRequest, Some(NoFileSelected);
        return;
      }
      loading := true;
      request, notice := Indexing(PdfField, pdf.value), None;
    }

    /** uploadPDF after its await: the try, catch and finally blocks. */
    method FinishUpload(success: bool) returns (notice: Notice)
      modifies this
      ensures Step(NoRequest, Some(notice), Snapshot()) == PageModel.FinishUpload(old(Snapshot()), success)
      ensures !loading && uploaded == (old(uploaded) || success)
    {
      if success {
        uploaded := true;
        notice := UploadSuccessful;
      } else {
        notice := UploadFailed;
      }
      loading := false;
    }

    /** askQuery up to its await. */
    method StartAsk() returns (request: Request)
      modifies this
      ensures Step(request, None, Snapshot()) == PageModel.StartAsk(old(Snapshot()))
      ensures request != NoRequest <==> !AllWhitespace(old(data))
    {
      if IsBlank(data) {
        return NoRequest;
      }
      loading := true;
      request := Query(data);
    }

    /** askQuery after its await; `reply` is the answer of a successful response, None on failure. */
    method FinishAsk(reply: Option<string>) returns (notice: Notice)
      modifies this
      ensures Step(NoRequest, Some(notice), Snapshot()) == PageModel.FinishAsk(old(Snapshot()), reply)
      ensures !loading && answer == (if reply.Some? then reply.value else old(answer))
    {
      if reply.Some? {
        answer := reply.value;
        notice := QueryAnswered;
      } else {
        notice := QueryFailed;
      }
      loading := false;
    }

    /** resetAll: four setters in sequence. */
    method ResetAll() returns (notice: Notice)
      modifies this
      ensures Step(NoRequest, Some(notice), Snapshot()) == Reset(old(Snapshot()))
      ensures loading == old(loading)
    {
      pdf := None;
      data := "";
      answer := "";
      uploaded := false;
      notice := ResetComplete;
    }
  }

  /**
   * A fresh page: choose a file, upload it, type a question and ask it.
   * Both requests go out with the file and the question as typed, and the
   * page ends indexed, idle and showing the reply.
   */
  method UploadThenAsk(file: PdfFile, question: string, reply: string)
    returns (sent: seq<Request>, notices: seq<Notice>, final: State)
    requires !AllWhitespace(question)
    ensures sent == [Indexing(PdfField, file), Query(question)]
    ensures notices == [UploadSuccessful, QueryAnswered]
    ensures final == State(false, true, question, reply, Some(file))
  {
    var page := new Session();
    page.OnFileChange(Some(file));
    assert !Disabled(page.Snapshot(), UploadButton);
    var indexing, _ := page.StartUpload();
    var uploadNotice := page.FinishUpload(true);
    assert !Disabled(page.Snapshot(), QuestionInput);
    page.OnQuestionChange(question);
    var query := page.StartAsk();
    var askNotice := page.FinishAsk(Some(reply));
    sent, notices, final := [indexing, query], [uploadNotice, askNotice], page.Snapshot();
  }

  /**
   * A fresh page: choose a file, the upload fails, the user retries and it
   * succeeds.  The same file goes out twice and the page ends indexed.
   */
  method FailedUploadThenRetry(file: PdfFile)
    returns (sent: seq<Request>, notices: seq<Notice>, final: State)
    ensures sent == [Indexing(PdfField, file), Indexing(PdfField, file)]
    ensures notices == [UploadFailed, UploadSuccessful]
    ensures final.uploaded && !final.loading && final.pdf == Some(file)
  {
    var page := new Session();
    page.OnFileChange(Some(file));
    var first, _ := page.StartUpload();
    var failed := page.FinishUpload(false);
    assert !Disabled(page.Snapshot(), UploadButton);
    var second, _ := page.StartUpload();
    var succeeded := page.FinishUpload(true);
    sent, notices, final := [first, second], [failed, succeeded], page.Snapshot();
  }

  /**
   * An indexed page that has shown an answer, reset: it is back to the
   * state of the first render, and a second reset changes nothing.
   */
  method AnswerThenReset(file: PdfFile, question: string, reply: string)
    returns (afterReset: State, afterSecondReset: State)
    requires !AllWhitespace(question)
    ensures afterReset == Initial && afterSecondReset == Initial
  {
    var page := new Session();
    page.OnFileChange(Some(file));
    var _, _ := page.StartUpload();
    var _ := page.FinishUpload(true);
    assert page.Snapshot() == State(false, true, "", "", Some(file));
    page.OnQuestionChange(question);
    var _ := page.StartAsk();
    var _ := page.FinishAsk(Some(reply));
    assert page.Snapshot() == State(false, true, question, reply, Some(file));
    var _ := page.ResetAll();
    afterReset := page.Snapshot();
    var _ := page.ResetAll();
    afterSecondReset := page.Snapshot();
  }
}
