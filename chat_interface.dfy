/**
 * The chat panel: its own `question` input state, the submit guard that
 * forwards a question to the app, and the conditions under which it renders
 * bubbles, the pending indicator and the disabled controls.
 */
module ChatInterface {
  import opened Types
  import JsText

  /** `question.trim() && !isLoading`: the guard of `handleSubmit`. */
  function SubmitAccepts(isLoading: bool, question: string): (ok: bool)
    ensures ok <==> !isLoading && !JsText.IsBlank(question)
  {
    JsText.TrimEmptyIffBlank(question);
    JsText.Trim(question) != "" && !isLoading
  }

  /** The text input is disabled while an answer is loading; no question can be submitted then. */
  function InputDisabled(isLoading: bool): (disabled: bool)
    ensures disabled ==> forall question :: !SubmitAccepts(isLoading, question)
  {
    isLoading
  }

  /** The send button is disabled exactly when submitting would do nothing. */
  function SendDisabled(isLoading: bool, question: string): (disabled: bool)
    ensures disabled <==> !SubmitAccepts(isLoading, question)
    ensures InputDisabled(isLoading) ==> disabled
  {
    isLoading || JsText.Trim(question) == ""
  }

  /** The form's state: the text typed so far. */
  class ChatForm {
    var question: string

    constructor ()
      ensures question == ""
    {
      question := "";
    }

    /** `onChange`: the input's value becomes the question. */
    method Change(value: string)
      modifies this
      ensures question == value
    {
      question := value;
    }

    /**
     * `handleSubmit`: forwards the question exactly as typed (not trimmed) when
     * the guard holds, and then clears the input; otherwise nothing happens.
     */
    method HandleSubmit(isLoading: bool) returns (forwarded: Option<string>)
      modifies this
      ensures forwarded == if SubmitAccepts(isLoading, old(question)) then Some(old(question)) else None
      ensures question == if forwarded.Some? then "" else old(question)
    {
      if JsText.Trim(question) != "" && !isLoading {
        forwarded := Some(question);
        question := "";
      } else {
        forwarded := None;
      }
    }
  }

  // ---------------------------------------------------------------------------
  // Rendering

  /** A chat bubble: the user's question, or the bot's answer with its error styling. */
  datatype Bubble = UserBubble(text: string) | BotBubble(text: string, isError: bool)

  /** One exchange's bubbles: the question, then the answer only if it is non-empty. */
  function ExchangeBubbles(qa: Exchange): (r: seq<Bubble>)
    ensures 1 <= |r| <= 2 && r[0] == UserBubble(qa.question)
    ensures |r| == 2 <==> qa.answer != ""
    ensures |r| == 2 ==> r[1] == BotBubble(qa.answer, qa.isError)
  {
    [UserBubble(qa.question)] + if qa.answer != "" then [BotBubble(qa.answer, qa.isError)] else []
  }

  /**
   * The bubbles of the whole history, in history order: at least one per
   * exchange, and never an answer bubble without text.
   */
  function Bubbles(history: seq<Exchange>): (r: seq<Bubble>)
    ensures |history| <= |r| <= 2 * |history|
    ensures forall i :: 0 <= i < |r| && r[i].BotBubble? ==> r[i].text != ""
    ensures history != [] ==> r[0] == UserBubble(history[0].question)
  {
    if history == [] then [] else ExchangeBubbles(history[0]) + Bubbles(history[1..])
  }

  function UserTexts(bubbles: seq<Bubble>): seq<string> {
    if bubbles == [] then []
    else (if bubbles[0].UserBubble? then [bubbles[0].text] else []) + UserTexts(bubbles[1..])
  }

  function BotTexts(bubbles: seq<Bubble>): seq<string> {
    if bubbles == [] then []
    else (if bubbles[0].BotBubble? then [bubbles[0].text] else []) + BotTexts(bubbles[1..])
  }

  function Questions(history: seq<Exchange>): (qs: seq<string>)
    ensures |qs| == |history| && forall i :: 0 <= i < |history| ==> qs[i] == history[i].question
  {
    if history == [] then [] else [history[0].question] + Questions(history[1..])
  }

  /** The answers that have text, in history order. */
  function ShownAnswers(history: seq<Exchange>): seq<string> {
    if history == [] then []
    else (if history[0].answer != "" then [history[0].answer] else []) + ShownAnswers(history[1..])
  }

  lemma {:induction false} UserTextsAppend(a: seq<Bubble>, b: seq<Bubble>)
    ensures UserTexts(a + b) == UserTexts(a) + UserTexts(b)
  {
    if a != [] {
      assert (a + b)[1..] == a[1..] + b;
      UserTextsAppend(a[1..], b);
    } else {
      assert a + b == b;
    }
  }

  lemma {:induction false} BotTextsAppend(a: seq<Bubble>, b: seq<Bubble>)
    ensures BotTexts(a + b) == BotTexts(a) + BotTexts(b)
  {
    if a != [] {
      assert (a + b)[1..] == a[1..] + b;
      BotTextsAppend(a[1..], b);
    } else {
      assert a + b == b;
    }
  }

  /**
   * Every question is shown, in history order, and an answer bubble is shown
   * for exactly the entries whose answer is non-empty, in the same order.
   */
  lemma {:induction false} BubblesFollowHistory(history: seq<Exchange>)
    ensures UserTexts(Bubbles(history)) == Questions(history)
    ensures BotTexts(Bubbles(history)) == ShownAnswers(history)
    ensures |Bubbles(history)| == |history| + |ShownAnswers(history)|
  {
    if history != [] {
      var head := ExchangeBubbles(history[0]);
      BubblesFollowHistory(history[1..]);
      UserTextsAppend(head, Bubbles(history[1..]));
      BotTextsAppend(head, Bubbles(history[1..]));
      assert UserTexts(head) == [history[0].question] by {
        assert head[1..] == [] || head[1..] == [BotBubble(history[0].answer, history[0].isError)];
      }
      assert BotTexts(head) == if history[0].answer != "" then [history[0].answer] else [] by {
        assert head[1..] == [] || head[1..] == [BotBubble(history[0].answer, history[0].isError)];
      }
    }
  }

  /**
   * `isLoading && qaHistory[qaHistory.length - 1]?.answer === ''`: the pending
   * indicator. On an empty history the optional chain yields `undefined`,
   * which is not `''`.
   */
  function ShowsPendingIndicator(isLoading: bool, history: seq<Exchange>): (shown: bool)
    ensures shown <==> isLoading && history != [] && history[|history| - 1].answer == ""
    ensures history == [] ==> !shown
  {
    isLoading && LastAnswer(history) == Some("")
  }

  /** `qaHistory[qaHistory.length - 1]?.answer`, with `None` for `undefined`. */
  function LastAnswer(history: seq<Exchange>): (a: Option<string>)
    ensures a.None? <==> history == []
    ensures a.Some? ==> a.value == history[|history| - 1].answer
  {
    if |history| - 1 >= 0 then Some(history[|history| - 1].answer) else None
  }
}
