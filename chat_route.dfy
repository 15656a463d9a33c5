/**
 * The `POST /api/chat` proxy route as a decision: from the parsed request
 * body, the configured knowledge-service URL and the upstream outcome, the
 * response it returns and the upstream call it makes, if any. The route
 * reads the URL once when the module loads; here it is a parameter.
 */
module ChatRoute {
  import opened Options
  import opened Chat

  /** A value `JSON.parse` can produce. */
  datatype Json =
    | JNull
    | JBool(b: bool)
    | JNumber(n: real)
    | JString(s: string)
    | JArray(items: seq<Json>)
    | JObject(members: seq<(string, Json)>)

  /** The value of a member of a parsed object: the last member with the key wins, as in `JSON.parse`. */
  function Member(members: seq<(string, Json)>, key: string): (r: Option<Json>)
    ensures r.Some? <==> exists i :: 0 <= i < |members| && members[i].0 == key
    ensures r.Some? ==> exists i ::
      && 0 <= i < |members| && members[i] == (key, r.value)
      && forall j :: i < j < |members| ==> members[j].0 != key
  {
    if members == [] then None
    else if members[|members| - 1].0 == key then Some(members[|members| - 1].1)
    else Member(members[..|members| - 1], key)
  }

  /**
   * `value.key` for the two keys the route reads: an object's own member,
   * `undefined` for any other value. (Reading a property of `null` throws; the
   * route handles that case before it gets here.)
   */
  function Property(value: Json, key: string): Option<Json> {
    match value
    case JObject(members) => Member(members, key)
    case _ => None
  }

  /** The upstream response: its HTTP status and the chunks of its body. */
  datatype Upstream = Unreachable | Answered(status: nat, chunks: seq<string>)

  /** `response.ok`: a status in the range 200 to 299. */
  predicate Ok(status: nat) {
    200 <= status <= 299
  }

  datatype ReplyBody = Text(text: string) | Relay(chunks: seq<string>)
  datatype Reply = Reply(status: nat, body: ReplyBody, headers: seq<(string, string)>)

  /** The single `POST` the route makes: `${url}/api/ask` with `{question, mode}`. */
  datatype UpstreamCall = UpstreamCall(url: string, question: string, mode: Json)

  datatype Decision = Decision(reply: Reply, call: Option<UpstreamCall>)

  const BadRequest := Reply(400, Text("Invalid question format"), [])
  const ServerError := Reply(500, Text("Internal Server Error"), [])
  const StreamHeaders := [("Content-Type", "text/plain; charset=utf-8"), ("Transfer-Encoding", "chunked")]

  /** `question` is truthy and a string: a non-empty string. */
  predicate ValidQuestion(question: Option<Json>) {
    question.Some? && question.value.JString? && question.value.s != ""
  }

  /** The environment variable holds a truthy value: it is set and not empty. */
  predicate Configured(serviceUrl: Option<string>) {
    serviceUrl.Some? && serviceUrl.value != ""
  }

  /** The body passes validation: it is JSON, not `null`, and has a valid `question`. */
  predicate Accepted(body: Option<Json>) {
    body.Some? && body.value != JNull && ValidQuestion(Property(body.value, "question"))
  }

  /**
   * `POST`. `body` is `None` when `req.json()` rejects. Every exception in the
   * `try` (a body that is not JSON, destructuring `null`, a missing URL,
   * an unreachable or non-ok upstream) ends in the same 500.
   */
  function Post(body: Option<Json>, serviceUrl: Option<string>, upstream: Upstream): (d: Decision)
    ensures d.reply.status in {200, 400, 500}
    ensures d.call.Some? <==> Accepted(body) && Configured(serviceUrl)
    ensures d.reply.status == 400 <==> body.Some? && body.value != JNull && !Accepted(body)
    ensures d.reply.status == 200 <==> d.call.Some? && upstream.Answered? && Ok(upstream.status)
  {
    if body.None? || body.value == JNull then Decision(ServerError, None)
    else
      var question := Property(body.value, "question");
      var mode := match Property(body.value, "mode") case Some(m) => m case None => JString("detailed");
      if !ValidQuestion(question) then Decision(BadRequest, None)
      else if !Configured(serviceUrl) then Decision(ServerError, None)
      else
        var call := Some(UpstreamCall(serviceUrl.value + "/api/ask", question.value.s, mode));
        match upstream
        case Answered(status, chunks) =>
          if Ok(status) then Decision(Reply(200, Relay(chunks), StreamHeaders), call)
          else Decision(ServerError, call)
        case Unreachable => Decision(ServerError, call)
  }

  /** A body that is not JSON is a server error, not a client error, and nothing is forwarded. */
  lemma MalformedBodyIsServerError(serviceUrl: Option<string>, upstream: Upstream)
    ensures Post(None, serviceUrl, upstream) == Decision(ServerError, None)
  {
  }

  /** A missing, empty or non-string `question` is rejected with 400 before anything else. */
  lemma InvalidQuestionRejected(members: seq<(string, Json)>, serviceUrl: Option<string>, upstream: Upstream)
    requires !ValidQuestion(Member(members, "question"))
    ensures Post(Some(JObject(members)), serviceUrl, upstream) == Decision(BadRequest, None)
  {
  }

  /**
   * A valid question is forwarded once to the service's `/api/ask` with the
   * given mode, or `"detailed"` when the body has none; an upstream reply is
   * relayed unchanged exactly when it is ok, and its status is never passed on.
   */
  lemma ValidQuestionForwarded(question: string, mode: Option<Json>, url: string, upstream: Upstream)
    requires question != "" && url != ""
    ensures var body := JObject([("question", JString(question))] + (if mode.Some? then [("mode", mode.value)] else []));
      var d := Post(Some(body), Some(url), upstream);
      d.call == Some(UpstreamCall(url + "/api/ask", question, if mode.Some? then mode.value else JString("detailed")))
      && (upstream.Answered? && Ok(upstream.status) ==> d.reply == Reply(200, Relay(upstream.chunks), StreamHeaders))
      && (!(upstream.Answered? && Ok(upstream.status)) ==> d.reply == ServerError)
  {
    var body := JObject([("question", JString(question))] + (if mode.Some? then [("mode", mode.value)] else []));
    if mode.Some? {
      assert Member(body.members, "mode") == Some(mode.value);
      assert body.members[..1] == [("question", JString(question))];
      assert Member(body.members, "question") == Member(body.members[..1], "question");
    } else {
      assert Member(body.members, "mode") == Member(body.members[..0], "mode");
    }
  }

  /** A valid question with no configured URL is a server error and nothing is forwarded. */
  lemma MissingUrlIsServerError(body: Json, serviceUrl: Option<string>, upstream: Upstream)
    requires Accepted(Some(body)) && !Configured(serviceUrl)
    ensures Post(Some(body), serviceUrl, upstream) == Decision(ServerError, None)
  {
  }

  function ModeName(mode: Mode): string {
    match mode
    case Quick => "quick"
    case Detailed => "detailed"
  }

  /** The JSON body a front end posts for a request. */
  function RequestJson(request: ChatRequest): Json {
    JObject([("question", JString(request.question)), ("mode", JString(ModeName(request.mode)))])
  }

  /**
   * A front-end request is rejected exactly when its question is empty; a
   * whitespace-only question passes, since the route does not trim.
   */
  lemma FrontEndRequest(request: ChatRequest, serviceUrl: Option<string>, upstream: Upstream)
    ensures Post(Some(RequestJson(request)), serviceUrl, upstream).reply.status == 400 <==> request.question == ""
    ensures Configured(serviceUrl) && request.question != "" ==>
      Post(Some(RequestJson(request)), serviceUrl, upstream).call
        == Some(UpstreamCall(serviceUrl.value + "/api/ask", request.question, JString(ModeName(request.mode))))
  {
    var ms := RequestJson(request).members;
    assert ms[..1] == [("question", JString(request.question))];
    assert Member(ms, "question") == Member(ms[..1], "question") == Some(JString(request.question));
  }
}
