/** Values shared by the app, the chat interface and the services. */
module Types {

  datatype Option<+T> = None | Some(value: T)

  /** A settled promise: the value it resolved to, or the error it rejected with. */
  datatype Result<+T, +E> = Success(value: T) | Failure(error: E)

  /**
   * One question/answer exchange of the conversation. JavaScript compares
   * these objects by identity, so they are objects here too; every field is
   * constant because the app never mutates one: it replaces it by a copy.
   * The optional `isError` property is `false` when absent.
   */
  class QAPair {
    const question: string
    const answer: string
    const isError: bool

    constructor (question: string, answer: string, isError: bool)
      ensures this.question == question && this.answer == answer && this.isError == isError
    {
      this.question := question;
      this.answer := answer;
      this.isError := isError;
    }
  }

  /** The value of an exchange, forgetting which object holds it. */
  datatype Exchange = Exchange(question: string, answer: string, isError: bool)

  function ValueOf(qa: QAPair): Exchange {
    Exchange(qa.question, qa.answer, qa.isError)
  }

  /** The values of a history, in history order. */
  function Values(history: seq<QAPair>): (r: seq<Exchange>)
    ensures |r| == |history|
    ensures forall i :: 0 <= i < |history| ==> r[i] == ValueOf(history[i])
  {
    seq(|history|, i requires 0 <= i < |history| => ValueOf(history[i]))
  }

  /** No object occurs twice in the history. */
  predicate Distinct(history: seq<QAPair>) {
    forall i, j :: 0 <= i < j < |history| ==> history[i] != history[j]
  }
}
