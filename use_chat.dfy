/**
 * The `useChat` hook's `sendMessage`: it appends the user's message and an
 * empty assistant placeholder, posts the question, and fills the placeholder
 * from the streamed answer, with a fallback text for an empty answer and an
 * apology for any failure. The hook's two pieces of React state become the
 * fields of a `ChatHook` object; the network is the `Outcome` parameter and
 * `Date.now()` the two clock readings the ids are built from.
 */
module UseChat {
  import opened Text
  import opened Chat

  const NoResponseText := "Sorry, I could not generate a response."
  const ErrorText := "I apologize, but I encountered an error. Please try again."

  function UserId(now: nat): string {
    "user-" + Decimal(now)
  }

  function AssistantId(now: nat): string {
    "assistant-" + Decimal(now)
  }

  /** The placeholder's last content: the answer, or the empty-answer fallback, or the apology. */
  function FinalContent(outcome: Outcome): string {
    match outcome
    case Streamed(chunks, false) =>
      if Trim(Concat(chunks)) == "" then NoResponseText else Concat(chunks)
    case _ => ErrorText
  }

  /** The message list a send leaves: both new messages appended, then the placeholder's id updated. */
  function SendResult(messages: seq<Message>, content: string, userId: string, assistantId: string,
                      outcome: Outcome): seq<Message>
  {
    SetContent(messages + [Message(userId, User, content)] + [Message(assistantId, Assistant, "")],
               assistantId, FinalContent(outcome))
  }

  /**
   * How many `setMessages` calls the reply phase makes: one per chunk, plus
   * one for the fallback or the apology, which a non-blank completed stream
   * does not need.
   */
  function ReplyUpdateCount(outcome: Outcome): nat {
    match outcome
    case Streamed(chunks, readFails) => |chunks| + (if readFails || Trim(Concat(chunks)) == "" then 1 else 0)
    case _ => 1
  }

  /**
   * What the reply phase writes into the placeholder `id` of `placed`: one
   * list per `setMessages`, for a stream first the per-chunk lists, and the
   * last list holds the placeholder's final content.
   */
  ghost predicate ReplyUpdates(placed: seq<Message>, id: string, outcome: Outcome, updates: seq<seq<Message>>) {
    && |updates| == ReplyUpdateCount(outcome)
    && updates != []
    && updates[|updates| - 1] == SetContent(placed, id, FinalContent(outcome))
    && (outcome.Streamed? ==>
          |updates| >= |outcome.chunks| && updates[..|outcome.chunks|] == StreamStates(placed, id, outcome.chunks))
  }

  class ChatHook {
    var messages: seq<Message>
    var isLoading: bool

    constructor()
      ensures messages == [] && !isLoading
    {
      messages := [];
      isLoading := false;
    }

    /**
     * `sendMessage(content, mode = 'quick')`. `updates` lists the message
     * list after each `setMessages`, in order: the user message, the
     * placeholder, one update per chunk, then the fallback or the apology if
     * any. `isLoading` is set before the request is made and cleared last.
     */
    method SendMessage(content: string, userNow: nat, assistantNow: nat, outcome: Outcome, mode: Mode := Quick)
      returns (request: ChatRequest, ghost loadingAtRequest: bool, ghost updates: seq<seq<Message>>)
      modifies this
      ensures request == ChatRequest(content, mode) && loadingAtRequest
      ensures messages == SendResult(old(messages), content, UserId(userNow), AssistantId(assistantNow), outcome)
      ensures !isLoading
      ensures |updates| >= 2 && updates[0] == old(messages) + [Message(UserId(userNow), User, content)]
      ensures updates[1] == updates[0] + [Message(AssistantId(assistantNow), Assistant, "")]
      ensures ReplyUpdates(updates[1], AssistantId(assistantNow), outcome, updates[2..])
    {
      var userMessage := Message(UserId(userNow), User, content);
      messages := messages + [userMessage];
      updates := [messages];
      isLoading := true;

      var assistantMessageId := AssistantId(assistantNow);
      messages := messages + [Message(assistantMessageId, Assistant, "")];
      updates := updates + [messages];

      request := ChatRequest(content, mode);
      loadingAtRequest := isLoading;
      ghost var replyUpdates := AwaitReply(assistantMessageId, outcome);
      assert (updates + replyUpdates)[2..] == replyUpdates;
      updates := updates + replyUpdates;
      isLoading := false;
    }

    /**
     * The `try`/`catch` around the request: the placeholder ends with the
     * answer, the empty-answer fallback, or the apology. `updates` lists the
     * message list after each `setMessages`.
     */
    method AwaitReply(assistantMessageId: string, outcome: Outcome) returns (ghost updates: seq<seq<Message>>)
      modifies this
      ensures messages == SetContent(old(messages), assistantMessageId, FinalContent(outcome))
      ensures isLoading == old(isLoading)
      ensures ReplyUpdates(old(messages), assistantMessageId, outcome, updates)
    {
      match outcome {
        case Streamed(chunks, readFails) =>
          var accumulatedContent, states := ReadStream(assistantMessageId, chunks);
          updates := states;
          if readFails || Trim(accumulatedContent) == "" {
            var text := if readFails then ErrorText else NoResponseText;
            SetContentTwice(old(messages), assistantMessageId, accumulatedContent, text);
            messages := SetContent(messages, assistantMessageId, text);
            updates := states + [messages];
            StreamThenFinal(old(messages), assistantMessageId, chunks, readFails, states, messages);
          } else {
            StreamOnly(old(messages), assistantMessageId, chunks);
          }
        case _ =>
          messages := SetContent(messages, assistantMessageId, ErrorText);
          updates := [messages];
      }
    }

    /** The read loop: each chunk extends the answer, and the placeholder is set to the answer so far. */
    method ReadStream(assistantMessageId: string, chunks: seq<string>)
      returns (accumulatedContent: string, ghost states: seq<seq<Message>>)
      modifies this
      ensures accumulatedContent == Concat(chunks)
      ensures states == StreamStates(old(messages), assistantMessageId, chunks)
      ensures messages == if chunks == [] then old(messages) else SetContent(old(messages), assistantMessageId, accumulatedContent)
      ensures isLoading == old(isLoading)
    {
      accumulatedContent := "";
      states := [];
      var i := 0;
      while i < |chunks|
        invariant 0 <= i <= |chunks| && isLoading == old(isLoading)
        invariant accumulatedContent == Concat(chunks[..i])
        invariant states == StreamStates(old(messages), assistantMessageId, chunks[..i])
        invariant messages == if i == 0 then old(messages)
          else SetContent(old(messages), assistantMessageId, accumulatedContent)
      {
        StreamStep(old(messages), assistantMessageId, chunks, i);
        assert chunks[..i + 1][..i] == chunks[..i];
        accumulatedContent := accumulatedContent + chunks[i];
        messages := SetContent(messages, assistantMessageId, accumulatedContent);
        states := states + [messages];
        i := i + 1;
      }
      assert chunks[..i] == chunks;
    }
  }

  /** A stream followed by one last update to the final content is a complete reply. */
  lemma StreamThenFinal(placed: seq<Message>, id: string, chunks: seq<string>, readFails: bool,
                        states: seq<seq<Message>>, last: seq<Message>)
    requires readFails || Trim(Concat(chunks)) == ""
    requires states == StreamStates(placed, id, chunks)
    requires last == SetContent(placed, id, FinalContent(Streamed(chunks, readFails)))
    ensures ReplyUpdates(placed, id, Streamed(chunks, readFails), states + [last])
  {
    assert (states + [last])[..|chunks|] == states;
  }

  /** A non-blank answer needs no update after its last chunk. */
  lemma StreamOnly(placed: seq<Message>, id: string, chunks: seq<string>)
    requires Trim(Concat(chunks)) != ""
    ensures ReplyUpdates(placed, id, Streamed(chunks, false), StreamStates(placed, id, chunks))
  {
    var outcome := Streamed(chunks, false);
    var states := StreamStates(placed, id, chunks);
    assert FinalContent(outcome) == Concat(chunks);
    assert ReplyUpdateCount(outcome) == |chunks| == |states|;
    assert chunks != [];
    assert states[|states| - 1] == SetContent(placed, id, Concat(chunks));
    assert states[..|chunks|] == states;
  }

  /**
   * Every list the reply phase stores is the placed list with only the
   * placeholder changed: update `k` of a stream holds the first `k + 1`
   * chunks joined, and the one after the stream the final content.
   */
  lemma EveryUpdateSetsPlaceholder(placed: seq<Message>, id: string, outcome: Outcome,
                                   updates: seq<seq<Message>>, k: nat)
    requires ReplyUpdates(placed, id, outcome, updates) && k < |updates|
    ensures updates[k] == SetContent(placed, id,
      if outcome.Streamed? && k < |outcome.chunks| then Concat(outcome.chunks[..k + 1]) else FinalContent(outcome))
  {
    if outcome.Streamed? && k < |outcome.chunks| {
      assert updates[k] == updates[..|outcome.chunks|][k];
      StreamStatesAt(placed, id, outcome.chunks, k);
    } else {
      assert |updates| <= (if outcome.Streamed? then |outcome.chunks| else 0) + 1;
      assert k == |updates| - 1;
    }
  }

  /** The user id and the assistant id of a send never clash, whatever the clock says. */
  lemma UserIdIsNotAssistantId(userNow: nat, assistantNow: nat)
    ensures UserId(userNow) != AssistantId(assistantNow)
  {
    assert UserId(userNow)[0] == 'u' && AssistantId(assistantNow)[0] == 'a';
  }

  /**
   * With a fresh assistant id, a send appends exactly the user message and the
   * assistant message, and every earlier message keeps its place and contents.
   */
  lemma SendAppendsTwo(messages: seq<Message>, content: string, userNow: nat, assistantNow: nat, outcome: Outcome)
    requires AssistantId(assistantNow) !in Ids(messages)
    ensures SendResult(messages, content, UserId(userNow), AssistantId(assistantNow), outcome)
      == messages + [Message(UserId(userNow), User, content),
                     Message(AssistantId(assistantNow), Assistant, FinalContent(outcome))]
  {
    var aid := AssistantId(assistantNow);
    UserIdIsNotAssistantId(userNow, assistantNow);
    var added := [Message(UserId(userNow), User, content), Message(aid, Assistant, "")];
    assert messages + [added[0]] + [added[1]] == messages + added;
    SetContentAppend(messages, added, aid, FinalContent(outcome));
  }

  /**
   * Every earlier message that already carries the new assistant id (two sends
   * in one millisecond, say) is overwritten along with the placeholder.
   */
  lemma StaleIdOverwritten(messages: seq<Message>, content: string, userNow: nat, assistantNow: nat,
                           outcome: Outcome, j: nat)
    requires j < |messages| && messages[j].id == AssistantId(assistantNow)
    ensures SendResult(messages, content, UserId(userNow), AssistantId(assistantNow), outcome)[j]
      == messages[j].(content := FinalContent(outcome))
  {
    var placed := messages + [Message(UserId(userNow), User, content)] + [Message(AssistantId(assistantNow), Assistant, "")];
    assert placed[j] == messages[j];
    SetContentAt(placed, AssistantId(assistantNow), FinalContent(outcome), j);
  }

  /** The assistant message never ends empty or blank. */
  lemma FinalNeverBlank(outcome: Outcome)
    ensures Trim(FinalContent(outcome)) != ""
  {
    var text := FinalContent(outcome);
    if outcome.Streamed? && !outcome.readFails && Trim(Concat(outcome.chunks)) != "" {
      assert text == Concat(outcome.chunks);
    } else if outcome.Streamed? && !outcome.readFails {
      assert text == NoResponseText;
      NoResponseTextNotBlank();
    } else {
      assert text == ErrorText;
      ErrorTextNotBlank();
    }
  }

  lemma NoResponseTextNotBlank()
    ensures Trim(NoResponseText) != ""
  {
    assert NoResponseText[|NoResponseText| - 1] == '.';
    NotBlank(NoResponseText);
  }

  lemma ErrorTextNotBlank()
    ensures Trim(ErrorText) != ""
  {
    assert ErrorText[|ErrorText| - 1] == '.';
    NotBlank(ErrorText);
  }

  /**
   * A non-blank answer is shown exactly as streamed, not trimmed; a read that
   * fails midway discards the partial text like any other failure.
   */
  lemma FinalContentKeepsAnswer(chunks: seq<string>)
    ensures Trim(Concat(chunks)) != "" ==> FinalContent(Streamed(chunks, false)) == Concat(chunks)
    ensures FinalContent(Streamed(chunks, true)) == FinalContent(FetchFails) == FinalContent(NotOk)
      == FinalContent(NoBody)
  {
  }
}
