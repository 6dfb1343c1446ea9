/**
 * The application's session state and the three handlers that change it:
 * selecting a file, asking a question and starting over.
 *
 * Each asynchronous handler is split at its `await` into a Begin method (the
 * state updates made before the call) and a Complete method (those made when
 * the call settles). The completions are applied as they arrive, whatever
 * happened in between, as the handlers do.
 */
module App {
  import opened Types
  import JsText
  import PdfProcessor
  import ChatInterface

  /** A selected file: its name and what reading its bytes yields. */
  datatype File = File(name: string, content: PdfProcessor.FileRead)

  /** What `getAnswerFromDocument` settles to. */
  datatype AnswerOutcome = Answered(answer: string) | AnswerFailed

  const ProcessFailedMessage := "Failed to process the PDF file. It might be corrupted or in an unsupported format. Please try another file."
  const AnswerFailedMessage := "Sorry, an error occurred while generating the answer. Please try again."

  /**
   * `!extractedText || !question.trim()` is false: there is document text (the
   * empty string is falsy) and the question is not blank.
   */
  function AcceptsQuestion(extractedText: Option<string>, question: string): (ok: bool)
    ensures ok <==> extractedText.Some? && extractedText.value != "" && !JsText.IsBlank(question)
    ensures extractedText == Some("") ==> !ok
  {
    JsText.TrimEmptyIffBlank(question);
    !(extractedText.None? || extractedText.value == "" || JsText.Trim(question) == "")
  }

  /**
   * `prev.map(qa => qa === target ? replacement : qa)`: every other entry stays
   * the same object, and the target leaves the history.
   */
  function Replace(history: seq<QAPair>, target: QAPair, replacement: QAPair): (r: seq<QAPair>)
    ensures |r| == |history|
    ensures forall i :: 0 <= i < |history| && history[i] != target ==> r[i] == history[i]
    ensures forall i :: 0 <= i < |history| && history[i] == target ==> r[i] == replacement
    ensures replacement != target ==> target !in r
  {
    seq(|history|, i requires 0 <= i < |history| => if history[i] == target then replacement else history[i])
  }

  /** The map replaces every position holding the target object, not only the first. */
  lemma ReplaceEveryMatch(t: QAPair, x: QAPair)
    ensures Replace([t, t], t, x) == [x, x]
  {
  }

  /** In a history without repeated objects, replacing an entry changes that one position only. */
  lemma ReplaceOne(history: seq<QAPair>, k: nat, replacement: QAPair)
    requires Distinct(history) && k < |history|
    ensures Replace(history, history[k], replacement) == history[k := replacement]
  {
  }

  /** Replacing an object the history does not hold changes nothing. */
  lemma ReplaceAbsent(history: seq<QAPair>, target: QAPair, replacement: QAPair)
    requires target !in history
    ensures Replace(history, target, replacement) == history
  {
  }

  /** Replacing by a new object keeps the history free of repetitions. */
  lemma ReplaceKeepsDistinct(history: seq<QAPair>, target: QAPair, replacement: QAPair)
    requires Distinct(history) && replacement !in history
    ensures Distinct(Replace(history, target, replacement))
  {
  }

  /** Appending a new object keeps the history free of repetitions. */
  lemma AppendKeepsDistinct(history: seq<QAPair>, x: QAPair)
    requires Distinct(history) && x !in history
    ensures Distinct(history + [x])
  {
  }

  /** A set of at most one element that holds `x` holds nothing else. */
  lemma AtMostOne<T>(xs: set<T>, x: T)
    requires x in xs && |xs| <= 1
    ensures xs == {x}
  {
    var rest := xs - {x};
    assert |rest| == |xs| - 1 == 0;
    assert rest == {};
    assert xs == rest + {x};
  }

  class Session {
    var file: Option<File>
    var fileName: string
    var extractedText: Option<string>
    var processingFile: bool
    var qaHistory: seq<QAPair>
    var isLoadingAnswer: bool
    var error: Option<string>
    /** The exchanges whose answer request has been sent and has not settled yet. */
    ghost var outstanding: set<QAPair>

    ghost predicate Valid()
      reads this
    {
      Distinct(qaHistory)
    }

    /** At most one answer request is in flight, and the loading flag says whether one is. */
    ghost predicate SingleFlight()
      reads this
    {
      |outstanding| <= 1 && (isLoadingAnswer <==> outstanding != {})
    }

    constructor ()
      ensures Valid() && SingleFlight()
      ensures file == None && fileName == "" && extractedText == None && !processingFile
      ensures qaHistory == [] && !isLoadingAnswer && error == None && outstanding == {}
    {
      file, fileName, extractedText, processingFile := None, "", None, false;
      qaHistory, isLoadingAnswer, error := [], false, None;
      outstanding := {};
    }

    /**
     * `handleFileSelect` up to the extraction: a missing file changes nothing;
     * otherwise the file is taken, processing starts and the previous error,
     * text and history are discarded.
     */
    method BeginUpload(selected: Option<File>)
      requires Valid()
      modifies this
      ensures Valid()
      ensures selected.None? ==> unchanged(this)
      ensures selected.Some? ==>
        && file == selected && fileName == selected.value.name && processingFile
        && error == None && extractedText == None && qaHistory == []
        && isLoadingAnswer == old(isLoadingAnswer) && outstanding == old(outstanding)
    {
      if selected.None? {
        return;
      }
      file := selected;
      fileName := selected.value.name;
      processingFile := true;
      error := None;
      extractedText := None;
      qaHistory := [];
    }

    /**
     * `handleFileSelect` after the extraction settles: the text on success,
     * the fixed message on failure; processing ends either way.
     */
    method CompleteUpload(outcome: Result<string, PdfProcessor.ExtractError>)
      requires Valid()
      modifies this
      ensures Valid() && !processingFile
      ensures extractedText == if outcome.Success? then Some(outcome.value) else old(extractedText)
      ensures error == if outcome.Success? then old(error) else Some(ProcessFailedMessage)
      ensures file == old(file) && fileName == old(fileName) && qaHistory == old(qaHistory)
      ensures isLoadingAnswer == old(isLoadingAnswer) && outstanding == old(outstanding)
    {
      match outcome {
        case Success(text) =>
          extractedText := Some(text);
        case Failure(_) =>
          error := Some(ProcessFailedMessage);
      }
      processingFile := false;
    }

    /** `handleFileSelect` with the extractor run in between. */
    method HandleFileSelect(selected: Option<File>, libraryLoaded: bool)
      requires Valid()
      modifies this
      ensures Valid()
      ensures selected.None? ==> unchanged(this)
      ensures selected.Some? ==>
        var outcome := PdfProcessor.Extraction(libraryLoaded, selected.value.content);
        && file == selected && fileName == selected.value.name && !processingFile && qaHistory == []
        && extractedText == (if outcome.Success? then Some(outcome.value) else None)
        && error == (if outcome.Success? then None else Some(ProcessFailedMessage))
        && isLoadingAnswer == old(isLoadingAnswer) && outstanding == old(outstanding)
    {
      BeginUpload(selected);
      if selected.Some? {
        var outcome := PdfProcessor.ExtractTextFromPdf(libraryLoaded, selected.value.content);
        CompleteUpload(outcome);
      }
    }

    /**
     * `handleAskQuestion` up to the answer request. A rejected question changes
     * nothing. An accepted one appends a new pending exchange (the question as
     * given, an empty answer), turns the loading flag on and clears the error;
     * the exchange is returned so that the completion can find it again.
     */
    method BeginAsk(question: string) returns (asked: Option<QAPair>)
      requires Valid()
      modifies this
      ensures Valid()
      ensures asked.Some? <==> AcceptsQuestion(old(extractedText), question)
      ensures asked.None? ==> unchanged(this)
      ensures asked.Some? ==> fresh(asked.value)
      ensures asked.Some? ==> asked.value.question == question && asked.value.answer == "" && !asked.value.isError
      ensures asked.Some? ==> qaHistory == old(qaHistory) + [asked.value]
      ensures asked.Some? ==> isLoadingAnswer && error == None
      ensures asked.Some? ==> outstanding == old(outstanding) + {asked.value}
      ensures file == old(file) && fileName == old(fileName) && extractedText == old(extractedText)
      ensures processingFile == old(processingFile)
    {
      if AcceptsQuestion(extractedText, question) {
        var pair := new QAPair(question, "", false);
        AppendKeepsDistinct(qaHistory, pair);
        isLoadingAnswer, error := true, None;
        qaHistory := qaHistory + [pair];
        outstanding := outstanding + {pair};
        asked := Some(pair);
      } else {
        asked := None;
      }
    }

    /**
     * `handleAskQuestion` after the answer request settles. The exchange that
     * was appended for this question, if the history still holds it, is
     * replaced by a copy carrying the answer (or the fixed error text, marked
     * as an error); every other entry stays. A failure also sets the session
     * error. The loading flag goes off either way.
     */
    method CompleteAsk(pending: QAPair, outcome: AnswerOutcome)
      requires Valid()
      modifies this
      ensures Valid()
      ensures |qaHistory| == |old(qaHistory)|
      ensures forall i :: 0 <= i < |qaHistory| && old(qaHistory)[i] != pending ==> qaHistory[i] == old(qaHistory)[i]
      ensures pending !in qaHistory
      ensures pending !in old(qaHistory) ==> qaHistory == old(qaHistory)
      ensures forall k :: 0 <= k < |old(qaHistory)| && old(qaHistory)[k] == pending ==>
        Values(qaHistory) == Values(old(qaHistory))[k := match outcome
          case Answered(answer) => Exchange(pending.question, answer, pending.isError)
          case AnswerFailed => Exchange(pending.question, AnswerFailedMessage, true)]
      ensures error == if outcome.Answered? then old(error) else Some(AnswerFailedMessage)
      ensures !isLoadingAnswer && outstanding == old(outstanding) - {pending}
      ensures file == old(file) && fileName == old(fileName) && extractedText == old(extractedText)
      ensures processingFile == old(processingFile)
    {
      var resolved;
      match outcome {
        case Answered(answer) =>
          resolved := new QAPair(pending.question, answer, pending.isError);
        case AnswerFailed =>
          error := Some(AnswerFailedMessage);
          resolved := new QAPair(pending.question, AnswerFailedMessage, true);
      }
      ghost var before := qaHistory;
      ReplaceKeepsDistinct(before, pending, resolved);
      qaHistory := Replace(qaHistory, pending, resolved);
      if pending in before {
        forall k | 0 <= k < |before| && before[k] == pending
          ensures Values(qaHistory) == Values(before)[k := ValueOf(resolved)]
        {
          ReplaceOne(before, k, resolved);
        }
      } else {
        ReplaceAbsent(before, pending, resolved);
      }
      isLoadingAnswer := false;
      outstanding := outstanding - {pending};
    }

    /** `handleReset`: back to no document and no conversation; the loading flags are left alone. */
    method HandleReset()
      requires Valid()
      modifies this
      ensures Valid()
      ensures file == None && fileName == "" && extractedText == None && qaHistory == [] && error == None
      ensures processingFile == old(processingFile) && isLoadingAnswer == old(isLoadingAnswer)
      ensures outstanding == old(outstanding)
    {
      file := None;
      fileName := "";
      extractedText := None;
      qaHistory := [];
      error := None;
    }
  }

  // ---------------------------------------------------------------------------
  // The app with its chat panel

  /**
   * A question typed into the chat panel reaches the app only through the
   * panel's submit guard, which refuses while an answer is loading. Composed,
   * they keep at most one request in flight, and an accepted question shows
   * the pending indicator.
   */
  method SubmitFromPanel(s: Session, form: ChatInterface.ChatForm) returns (asked: Option<QAPair>)
    requires s.Valid() && s.SingleFlight()
    modifies s, form
    ensures s.Valid() && s.SingleFlight()
    ensures asked.Some? ==> old(s.outstanding) == {} && s.outstanding == {asked.value}
    ensures asked.Some? ==> ChatInterface.ShowsPendingIndicator(s.isLoadingAnswer, Values(s.qaHistory))
    ensures asked.Some? <==>
      ChatInterface.SubmitAccepts(old(s.isLoadingAnswer), old(form.question)) && old(s.extractedText).Some? && old(s.extractedText).value != ""
    ensures asked.Some? ==> s.qaHistory == old(s.qaHistory) + [asked.value]
    ensures asked.Some? ==> ValueOf(asked.value) == Exchange(old(form.question), "", false)
    ensures asked.None? ==> unchanged(s)
    ensures form.question == if ChatInterface.SubmitAccepts(old(s.isLoadingAnswer), old(form.question)) then "" else old(form.question)
  {
    var forwarded := form.HandleSubmit(s.isLoadingAnswer);
    if forwarded.None? {
      return None;
    }
    asked := s.BeginAsk(forwarded.value);
  }

  /** Settling the one request in flight leaves none in flight. */
  method SettleAnswer(s: Session, pending: QAPair, outcome: AnswerOutcome)
    requires s.Valid() && s.SingleFlight() && pending in s.outstanding
    modifies s
    ensures s.Valid() && s.SingleFlight() && s.outstanding == {}
  {
    AtMostOne(s.outstanding, pending);
    s.CompleteAsk(pending, outcome);
  }

  /**
   * The app's own guard does not look at the loading flag: asking twice
   * without the panel leaves two requests in flight.
   */
  method AskTwiceBypassingPanel(s: Session, q1: string, q2: string) returns (first: QAPair, second: QAPair)
    requires s.Valid() && s.SingleFlight() && !s.isLoadingAnswer
    requires AcceptsQuestion(s.extractedText, q1) && AcceptsQuestion(s.extractedText, q2)
    modifies s
    ensures s.outstanding == {first, second} && first != second
    ensures !s.SingleFlight()
  {
    var a := s.BeginAsk(q1);
    var b := s.BeginAsk(q2);
    first, second := a.value, b.value;
  }

  /**
   * With two requests in flight, settling the first leaves the second
   * exchange in place, so its answer can still land.
   */
  method SettleFirstOfTwo(s: Session, first: QAPair, second: QAPair, outcome: AnswerOutcome)
    requires s.Valid() && s.qaHistory == [first, second]
    modifies s
    ensures |s.qaHistory| == 2 && s.qaHistory[1] == second && first !in s.qaHistory
  {
    assert s.qaHistory[0] != s.qaHistory[1];
    s.CompleteAsk(first, outcome);
  }

  /**
   * Resolving the same exchange twice: the first resolution replaced it by a
   * copy, so the second finds nothing to replace and leaves the history as the
   * first one left it.
   */
  method ResolveTwice(s: Session, pending: QAPair, firstOutcome: AnswerOutcome, secondOutcome: AnswerOutcome)
    returns (afterFirst: seq<QAPair>)
    requires s.Valid()
    modifies s
    ensures s.qaHistory == afterFirst && pending !in afterFirst
  {
    s.CompleteAsk(pending, firstOutcome);
    afterFirst := s.qaHistory;
    s.CompleteAsk(pending, secondOutcome);
  }

  /** Loading the two-page document "Hello" / "World" makes its text available and the history empty. */
  method UploadScenario() returns (s: Session)
    ensures s.Valid() && s.SingleFlight() && !s.isLoadingAnswer
    ensures s.extractedText == Some("Hello\n\nWorld\n\n") && s.qaHistory == [] && s.error == None
  {
    s := new Session();
    var pdf := File("doc.pdf", PdfProcessor.Read(PdfProcessor.Parsed(
      [PdfProcessor.Fetched(["Hello"]), PdfProcessor.Fetched(["World"])])));
    PdfProcessor.TwoPages();
    s.HandleFileSelect(Some(pdf), true);
  }

  /**
   * A question asked through the panel is appended as a pending exchange, and
   * a second one is refused while the answer is loading.
   */
  method AskScenario(s: Session, form: ChatInterface.ChatForm) returns (asked: QAPair)
    requires s.Valid() && s.SingleFlight() && !s.isLoadingAnswer
    requires s.extractedText == Some("Hello\n\nWorld\n\n") && s.qaHistory == []
    modifies s, form
    ensures s.Valid() && s.SingleFlight() && asked in s.outstanding
    ensures s.qaHistory == [asked] && ValueOf(asked) == Exchange("What is page 1?", "", false)
    ensures ChatInterface.ShowsPendingIndicator(s.isLoadingAnswer, Values(s.qaHistory))
  {
    form.Change("What is page 1?");
    assert !JsText.IsWhitespace("What is page 1?"[0]);
    var first := SubmitFromPanel(s, form);
    assert first.Some? && form.question == "";
    asked := first.value;

    form.Change("And page 2?");
    var again := SubmitFromPanel(s, form);
    assert again.None?;
  }

  /** The answer to the pending question lands in its exchange and the loading ends. */
  method AnswerScenario(s: Session, asked: QAPair)
    requires s.Valid() && s.SingleFlight() && asked in s.outstanding
    requires s.qaHistory == [asked] && ValueOf(asked) == Exchange("What is page 1?", "", false)
    modifies s
    ensures Values(s.qaHistory) == [Exchange("What is page 1?", "Hello", false)]
    ensures !s.isLoadingAnswer && s.outstanding == {}
  {
    AtMostOne(s.outstanding, asked);
    s.CompleteAsk(asked, Answered("Hello"));
  }
}
