/**
 * The `handleSubmit` of the chat container component: a guard on the input
 * and the loading flag, the user message appended with the trimmed input,
 * then an assistant message appended only once a body reader exists and
 * grown chunk by chunk, and a separate apology message appended on failure.
 * The component's React state becomes the fields of a `Container` object;
 * the network is the `Outcome` parameter and `Date.now()` the clock readings
 * the ids are built from.
 */
module ChatContainer {
  import opened Options
  import opened Text
  import opened Chat
  import UseChat

  const SubmitErrorText := "Sorry, there was an error processing your request."

  /** `Date.now().toString()`. */
  function ClockId(now: nat): string {
    Decimal(now)
  }

  /** The apology a failed submit appends. */
  function Apology(errorId: string): Message {
    Message(errorId, Assistant, SubmitErrorText)
  }

  /**
   * The message list one accepted submit leaves behind: the user message,
   * then by outcome the apology, nothing, or the streamed assistant message
   * (followed by the apology when a read fails).
   */
  function SubmitResult(messages: seq<Message>, question: string, userId: string, assistantId: string,
                        errorId: string, outcome: Outcome): seq<Message>
  {
    AfterReply(messages + [Message(userId, User, question)], assistantId, errorId, outcome)
  }

  /** The message list after the reply phase, from the list holding the user message. */
  function AfterReply(withUser: seq<Message>, assistantId: string, errorId: string, outcome: Outcome): seq<Message> {
    match outcome
    case FetchFails => withUser + [Apology(errorId)]
    case NotOk => withUser + [Apology(errorId)]
    case NoBody => withUser
    case Streamed(chunks, readFails) =>
      var placed := withUser + [Message(assistantId, Assistant, "")];
      var streamed := if chunks == [] then placed else SetContent(placed, assistantId, Concat(chunks));
      streamed + (if readFails then [Apology(errorId)] else [])
  }

  /** Whether `handleSubmit` returns at its first line: blank input or a request in flight. */
  predicate Ignored(input: string, isLoading: bool) {
    Trim(input) == "" || isLoading
  }

  class Container {
    var mode: Mode
    var messages: seq<Message>
    var input: string
    var isLoading: bool

    constructor()
      ensures mode == Quick && messages == [] && input == "" && !isLoading
    {
      mode := Quick;
      messages := [];
      input := "";
      isLoading := false;
    }

    /**
     * `handleSubmit`. When the guard passes, the request carries the trimmed
     * input and the current mode, the input is cleared, and `isLoading` is
     * set before the request and cleared at the end.
     */
    method HandleSubmit(userNow: nat, assistantNow: nat, errorNow: nat, outcome: Outcome)
      returns (request: Option<ChatRequest>, ghost loadingAtRequest: bool)
      modifies this
      ensures mode == old(mode)
      ensures Ignored(old(input), old(isLoading)) ==>
        request.None? && messages == old(messages) && input == old(input) && isLoading == old(isLoading)
      ensures !Ignored(old(input), old(isLoading)) ==>
        request == Some(ChatRequest(Trim(old(input)), old(mode))) && loadingAtRequest
        && input == "" && !isLoading
        && messages == SubmitResult(old(messages), Trim(old(input)), ClockId(userNow),
                                    ClockId(assistantNow + 1), ClockId(errorNow), outcome)
    {
      var question := Trim(input);
      if question == "" || isLoading {
        return None, false;
      }
      var sent;
      sent, loadingAtRequest := Submit(question, ClockId(userNow), ClockId(assistantNow + 1), ClockId(errorNow), outcome);
      request := Some(sent);
    }

    /** The part of `handleSubmit` after the guard. */
    method Submit(question: string, userId: string, assistantId: string, errorId: string, outcome: Outcome)
      returns (request: ChatRequest, ghost loadingAtRequest: bool)
      modifies this
      ensures mode == old(mode) && input == "" && !isLoading
      ensures request == ChatRequest(question, old(mode)) && loadingAtRequest
      ensures messages == SubmitResult(old(messages), question, userId, assistantId, errorId, outcome)
    {
      messages := messages + [Message(userId, User, question)];
      input := "";
      isLoading := true;

      request := ChatRequest(question, mode);
      loadingAtRequest := isLoading;
      AwaitReply(assistantId, errorId, outcome);
      isLoading := false;
    }

    /** The `try`/`catch` around the request. */
    method AwaitReply(assistantId: string, errorId: string, outcome: Outcome)
      modifies this
      ensures mode == old(mode) && input == old(input) && isLoading == old(isLoading)
      ensures messages == AfterReply(old(messages), assistantId, errorId, outcome)
    {
      match outcome {
        case Streamed(chunks, readFails) =>
          messages := messages + [Message(assistantId, Assistant, "")];
          var _, _ := ReadStream(assistantId, chunks);
          if readFails {
            messages := messages + [Apology(errorId)];
          }
        case NoBody =>
        case _ =>
          messages := messages + [Apology(errorId)];
      }
    }

    /**
     * The read loop: each chunk extends the answer, and the assistant message
     * is set to the answer so far. `states` lists the message list after each
     * per-chunk `setMessages`.
     */
    method ReadStream(assistantId: string, chunks: seq<string>)
      returns (assistantMessage: string, ghost states: seq<seq<Message>>)
      modifies this
      ensures assistantMessage == Concat(chunks)
      ensures states == StreamStates(old(messages), assistantId, chunks)
      ensures messages == if chunks == [] then old(messages) else SetContent(old(messages), assistantId, assistantMessage)
      ensures mode == old(mode) && input == old(input) && isLoading == old(isLoading)
    {
      assistantMessage := "";
      states := [];
      var i := 0;
      while i < |chunks|
        invariant 0 <= i <= |chunks|
        invariant mode == old(mode) && input == old(input) && isLoading == old(isLoading)
        invariant assistantMessage == Concat(chunks[..i])
        invariant states == StreamStates(old(messages), assistantId, chunks[..i])
        invariant messages == if i == 0 then old(messages) else SetContent(old(messages), assistantId, assistantMessage)
      {
        StreamStep(old(messages), assistantId, chunks, i);
        assert chunks[..i + 1][..i] == chunks[..i];
        assistantMessage := assistantMessage + chunks[i];
        messages := SetContent(messages, assistantId, assistantMessage);
        states := states + [messages];
        i := i + 1;
      }
      assert chunks[..i] == chunks;
    }
  }

  /**
   * When the clock does not run backwards and the assistant id is fresh, an
   * accepted submit appends the user message and then exactly: the apology
   * on a failed or non-ok request, nothing without a body, or the assistant
   * message holding the whole answer (even an empty one), followed by the
   * apology when a read fails. Earlier messages are untouched.
   */
  lemma SubmitAppends(messages: seq<Message>, question: string, userNow: nat, assistantNow: nat,
                      errorId: string, outcome: Outcome)
    requires userNow <= assistantNow && ClockId(assistantNow + 1) !in Ids(messages)
    ensures SubmitResult(messages, question, ClockId(userNow), ClockId(assistantNow + 1), errorId, outcome)
      == messages + [Message(ClockId(userNow), User, question)]
         + match outcome
           case FetchFails => [Apology(errorId)]
           case NotOk => [Apology(errorId)]
           case NoBody => []
           case Streamed(chunks, readFails) =>
             [Message(ClockId(assistantNow + 1), Assistant, Concat(chunks))]
             + (if readFails then [Apology(errorId)] else [])
  {
    var aid := ClockId(assistantNow + 1);
    var withUser := messages + [Message(ClockId(userNow), User, question)];
    if outcome.Streamed? {
      assert aid != ClockId(userNow) by {
        if aid == ClockId(userNow) {
          DecimalInjective(assistantNow + 1, userNow);
        }
      }
      assert aid !in Ids(withUser);
      SetContentAppend(withUser, [Message(aid, Assistant, "")], aid, Concat(outcome.chunks));
    }
  }

  /**
   * The two front ends part ways on an empty answer: the hook's placeholder
   * shows the fallback text, the container's assistant message stays empty.
   */
  lemma EmptyAnswerDiffers(messages: seq<Message>, content: string, userNow: nat, assistantNow: nat)
    requires UseChat.AssistantId(assistantNow) !in Ids(messages)
    requires userNow <= assistantNow && ClockId(assistantNow + 1) !in Ids(messages)
    ensures UseChat.SendResult(messages, content, UseChat.UserId(userNow), UseChat.AssistantId(assistantNow),
                                Streamed([], false))[|messages| + 1].content == UseChat.NoResponseText
    ensures SubmitResult(messages, content, ClockId(userNow), ClockId(assistantNow + 1), ClockId(assistantNow),
                         Streamed([], false))[|messages| + 1].content == ""
  {
    UseChat.SendAppendsTwo(messages, content, userNow, assistantNow, Streamed([], false));
    SubmitAppends(messages, content, userNow, assistantNow, ClockId(assistantNow), Streamed([], false));
  }

  /**
   * On a read that fails midway the hook replaces the partial answer with
   * its apology, while the container keeps the partial answer and appends a
   * third message.
   */
  lemma MidStreamFailureDiffers(messages: seq<Message>, content: string, userNow: nat, assistantNow: nat,
                                errorNow: nat, chunks: seq<string>)
    requires UseChat.AssistantId(assistantNow) !in Ids(messages)
    requires userNow <= assistantNow && ClockId(assistantNow + 1) !in Ids(messages)
    ensures var r := UseChat.SendResult(messages, content, UseChat.UserId(userNow),
                                        UseChat.AssistantId(assistantNow), Streamed(chunks, true));
      |r| == |messages| + 2 && r[|messages| + 1].content == UseChat.ErrorText
    ensures var r := SubmitResult(messages, content, ClockId(userNow), ClockId(assistantNow + 1),
                                  ClockId(errorNow), Streamed(chunks, true));
      |r| == |messages| + 3 && r[|messages| + 1].content == Concat(chunks)
      && r[|messages| + 2] == Apology(ClockId(errorNow))
  {
    UseChat.SendAppendsTwo(messages, content, userNow, assistantNow, Streamed(chunks, true));
    SubmitAppends(messages, content, userNow, assistantNow, ClockId(errorNow), Streamed(chunks, true));
  }
}
