/**
 * What the two chat front ends share: the message record, the request they
 * post to `/api/chat`, the outcome of that request as the browser sees it,
 * and the two list operations a turn is built from.
 */
module Chat {
  import opened Text

  datatype Role = User | Assistant

  /** A chat message; its timestamp is not modelled. */
  datatype Message = Message(id: string, role: Role, content: string)

  datatype Mode = Quick | Detailed

  /** The JSON body `{question, mode}` a front end posts. */
  datatype ChatRequest = ChatRequest(question: string, mode: Mode)

  /**
   * How the request to `/api/chat` ends: `fetch` rejects, the response is not
   * ok, it has no body, or its body is read as a sequence of decoded chunks,
   * after which the stream either ends or a read throws.
   */
  datatype Outcome =
    | FetchFails
    | NotOk
    | NoBody
    | Streamed(chunks: seq<string>, readFails: bool)

  /** The chunks joined in order. */
  function Concat(chunks: seq<string>): (r: string)
    ensures chunks == [] ==> r == ""
  {
    if chunks == [] then "" else Concat(chunks[..|chunks| - 1]) + chunks[|chunks| - 1]
  }

  /** One more chunk extends the joined text by that chunk. */
  lemma ConcatSnoc(chunks: seq<string>, c: string)
    ensures Concat(chunks + [c]) == Concat(chunks) + c
  {
    assert (chunks + [c])[..|chunks|] == chunks;
  }

  /** The joined text is as long as the chunks together, and starts with the join of any prefix. */
  lemma {:induction false} ConcatPrefix(chunks: seq<string>, k: nat)
    requires k <= |chunks|
    ensures |Concat(chunks[..k])| <= |Concat(chunks)|
    ensures Concat(chunks)[..|Concat(chunks[..k])|] == Concat(chunks[..k])
    decreases |chunks| - k
  {
    if k < |chunks| {
      ConcatPrefix(chunks, k + 1);
      assert chunks[..k + 1] == chunks[..k] + [chunks[k]];
      ConcatSnoc(chunks[..k], chunks[k]);
    } else {
      assert chunks[..k] == chunks;
    }
  }

  /**
   * `messages.map(msg => msg.id === id ? {...msg, content} : msg)`: every
   * message carrying `id` gets the new content, every other message stays.
   */
  function SetContent(messages: seq<Message>, id: string, content: string): (r: seq<Message>)
    ensures |r| == |messages|
  {
    if messages == [] then []
    else
      var m := messages[|messages| - 1];
      SetContent(messages[..|messages| - 1], id, content) + [if m.id == id then m.(content := content) else m]
  }

  /** The ids of a message list. */
  function Ids(messages: seq<Message>): (r: set<string>)
    ensures forall i :: 0 <= i < |messages| ==> messages[i].id in r
    ensures forall x :: x in r ==> exists i :: 0 <= i < |messages| && messages[i].id == x
  {
    set i | 0 <= i < |messages| :: messages[i].id
  }

  /** Message `i` after the update: the new content if it carries `id`, unchanged otherwise. */
  lemma {:induction false} SetContentAt(messages: seq<Message>, id: string, content: string, i: nat)
    requires i < |messages|
    ensures SetContent(messages, id, content)[i]
      == if messages[i].id == id then messages[i].(content := content) else messages[i]
    decreases |messages|
  {
    if i < |messages| - 1 {
      SetContentAt(messages[..|messages| - 1], id, content, i);
    }
  }

  /** `SetContentAt` for every position at once. */
  lemma SetContentEach(messages: seq<Message>, id: string, content: string)
    ensures forall i :: 0 <= i < |messages| ==>
      SetContent(messages, id, content)[i]
        == if messages[i].id == id then messages[i].(content := content) else messages[i]
  {
    forall i | 0 <= i < |messages| {
      SetContentAt(messages, id, content, i);
    }
  }

  /** A later update of the same message overrides an earlier one. */
  lemma SetContentTwice(messages: seq<Message>, id: string, a: string, b: string)
    ensures SetContent(SetContent(messages, id, a), id, b) == SetContent(messages, id, b)
  {
    SetContentEach(messages, id, a);
    SetContentEach(SetContent(messages, id, a), id, b);
    SetContentEach(messages, id, b);
  }

  /** Updating a list whose ids avoid `id` leaves it alone; the update distributes over `+`. */
  lemma SetContentAppend(prefix: seq<Message>, rest: seq<Message>, id: string, content: string)
    requires id !in Ids(prefix)
    ensures SetContent(prefix + rest, id, content) == prefix + SetContent(rest, id, content)
  {
    var l := SetContent(prefix + rest, id, content);
    var r := prefix + SetContent(rest, id, content);
    SetContentEach(prefix + rest, id, content);
    SetContentEach(rest, id, content);
    assert forall i :: 0 <= i < |prefix| ==> (prefix + rest)[i] == prefix[i];
    assert forall i :: 0 <= i < |prefix| ==> l[i] == r[i];
    assert forall i :: |prefix| <= i < |l| ==> (prefix + rest)[i] == rest[i - |prefix|];
    assert forall i :: |prefix| <= i < |l| ==> l[i] == r[i];
  }

  /**
   * One turn of a read loop: the message set to the first `i` chunks joined
   * (or not yet touched when `i == 0`), set again to that text plus chunk
   * `i`, holds the first `i + 1` chunks joined.
   */
  lemma StreamStep(base: seq<Message>, id: string, chunks: seq<string>, i: nat)
    requires i < |chunks|
    ensures Concat(chunks[..i + 1]) == Concat(chunks[..i]) + chunks[i]
    ensures SetContent(if i == 0 then base else SetContent(base, id, Concat(chunks[..i])), id,
                       Concat(chunks[..i]) + chunks[i])
      == SetContent(base, id, Concat(chunks[..i + 1]))
  {
    ConcatSnoc(chunks[..i], chunks[i]);
    assert chunks[..i + 1] == chunks[..i] + [chunks[i]];
    SetContentTwice(base, id, Concat(chunks[..i]), Concat(chunks[..i]) + chunks[i]);
  }

  /** The message lists after each per-chunk update of a streamed answer into message `id`. */
  function StreamStates(placed: seq<Message>, id: string, chunks: seq<string>): (r: seq<seq<Message>>)
    ensures |r| == |chunks|
  {
    if chunks == [] then []
    else StreamStates(placed, id, chunks[..|chunks| - 1]) + [SetContent(placed, id, Concat(chunks))]
  }

  /** After `k + 1` chunks the streamed message holds exactly the first `k + 1` chunks joined. */
  lemma {:induction false} StreamStatesAt(placed: seq<Message>, id: string, chunks: seq<string>, k: nat)
    requires k < |chunks|
    ensures StreamStates(placed, id, chunks)[k] == SetContent(placed, id, Concat(chunks[..k + 1]))
    decreases |chunks|
  {
    if k + 1 < |chunks| {
      var init := chunks[..|chunks| - 1];
      StreamStatesAt(placed, id, init, k);
      assert init[..k + 1] == chunks[..k + 1];
    } else {
      assert chunks[..k + 1] == chunks;
    }
  }
}
