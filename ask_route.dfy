/**
 * The `POST /api/ask` handler: validate the request, retrieve context for the question,
 * wrap it in the system prompt and ask the chat model.
 *
 * OpenAI (embeddings, chat completion) and the Supabase `match_documents` RPC are oracles in
 * an `Env`; each either answers or fails. Logging is left out.
 */
module AskRoute {
  import opened Wrappers
  import opened Text

  /** A JSON value as `req.json()` produces it (numbers are only carried, never computed with). */
  datatype JsValue =
    | Undefined
    | Null
    | Bool(b: bool)
    | Number(n: real)
    | Str(s: string)
    | Array(items: seq<JsValue>)
    | Object(fields: map<string, JsValue>)

  /** Something thrown: an `Error` instance with its message, or any other value. */
  datatype Failure = ErrorInstance(message: string) | OtherThrown

  const EmbeddingModel := "text-embedding-3-small"
  const EmbeddingDimensions := 1536
  const CompletionModel := "gpt-4.1-nano"
  const TopKContext := 3
  const SimilarityThreshold := 0.2
  const MatchFunction := "match_documents"
  const MaxTokens := 150
  const Temperature := 0.3

  type Vector = seq<real>

  datatype EmbeddingRequest = EmbeddingRequest(model: string, input: string, dimensions: int)

  datatype RpcRequest = RpcRequest(functionName: string, queryEmbedding: Vector, matchThreshold: real, matchCount: int)

  datatype Row = Row(content: string)

  /** The `{ data, error }` pair of a completed RPC; `None` stands for `null`. */
  datatype RpcReply = RpcReply(data: Option<seq<Row>>, error: Option<string>)

  /** What the chat model is sent: `system`, the history items as given, then `user`. */
  datatype ApiMessage = SystemMessage(content: string) | Passed(item: JsValue) | UserMessage(content: string)

  datatype CompletionRequest = CompletionRequest(model: string, messages: seq<ApiMessage>, maxTokens: int, temperature: real)

  /** A completion's `choices[0].message.content` (which may be `null`), or what was thrown. */
  datatype CompletionReply = Completed(content: Option<string>) | CompletionFailed(failure: Failure)

  /**
   * The outside world. `embed` and `rpc` give `None` when the call throws or (for `embed`)
   * the reply has no embedding; `destructureFailure` is what the runtime throws when the
   * body is `null`.
   */
  datatype Env = Env(
    embed: EmbeddingRequest -> Option<Vector>,
    rpc: RpcRequest -> Option<RpcReply>,
    complete: CompletionRequest -> CompletionReply,
    destructureFailure: Failure)

  datatype Response = Response(status: int, body: JsValue)

  // ---------------------------------------------------------------------------
  // getQueryEmbedding and findRelevantContext

  /** `text.replace(/\n/g, " ")`. */
  function EmbeddingInput(text: string): (r: string)
    ensures |r| == |text| && '\n' !in r
    ensures forall i :: 0 <= i < |text| ==> r[i] == if text[i] == '\n' then ' ' else text[i]
  {
    seq(|text|, i requires 0 <= i < |text| => if text[i] == '\n' then ' ' else text[i])
  }

  /** Text without line feeds is embedded as it is. */
  lemma EmbeddingInputWithoutNewlines(text: string)
    requires '\n' !in text
    ensures EmbeddingInput(text) == text
  {
  }

  function Contents(rows: seq<Row>): (r: seq<string>)
    ensures |r| == |rows| && forall i :: 0 <= i < |rows| ==> r[i] == rows[i].content
  {
    seq(|rows|, i requires 0 <= i < |rows| => rows[i].content)
  }

  /** The RPC answered with rows: the embedding worked, the RPC completed without error, `data` is not `null`. */
  ghost predicate Retrieved(env: Env, query: string, topK: int, threshold: real, rows: seq<Row>) {
    var e := env.embed(EmbeddingRequest(EmbeddingModel, EmbeddingInput(query), EmbeddingDimensions));
    && e.Some?
    && env.rpc(RpcRequest(MatchFunction, e.value, threshold, topK)) == Some(RpcReply(Some(rows), None))
  }

  /**
   * `findRelevantContext`: the `content` of every returned row, in RPC order; any failure on
   * the way, an RPC `error`, or `null`/empty data gives `[]` instead of an exception.
   */
  function FindRelevantContext(env: Env, query: string, topK: int, threshold: real): (r: seq<string>)
    ensures r != [] <==> exists rows :: Retrieved(env, query, topK, threshold, rows) && rows != []
    ensures forall rows :: Retrieved(env, query, topK, threshold, rows) ==> r == Contents(rows)
  {
    match env.embed(EmbeddingRequest(EmbeddingModel, EmbeddingInput(query), EmbeddingDimensions))
    case None => []
    case Some(e) =>
      match env.rpc(RpcRequest(MatchFunction, e, threshold, topK))
      case None => []
      case Some(reply) =>
        if reply.error.Some? then []
        else if reply.data.None? || reply.data.value == [] then []
        else
          assert Retrieved(env, query, topK, threshold, reply.data.value);
          Contents(reply.data.value)
  }

  /** A failed embedding means no context, whatever the database holds. */
  lemma EmbeddingFailureGivesNoContext(env: Env, query: string, topK: int, threshold: real)
    requires env.embed(EmbeddingRequest(EmbeddingModel, EmbeddingInput(query), EmbeddingDimensions)).None?
    ensures FindRelevantContext(env, query, topK, threshold) == []
  {
  }

  /** An RPC that reports an error means no context. */
  lemma RpcErrorGivesNoContext(env: Env, query: string, topK: int, threshold: real, e: Vector, reply: RpcReply)
    requires env.embed(EmbeddingRequest(EmbeddingModel, EmbeddingInput(query), EmbeddingDimensions)) == Some(e)
    requires env.rpc(RpcRequest(MatchFunction, e, threshold, topK)) == Some(reply) && reply.error.Some?
    ensures FindRelevantContext(env, query, topK, threshold) == []
  {
  }

  // ---------------------------------------------------------------------------
  // The prompt

  const NoContextPlaceholder := "No specific context found matching the query."
  const ContextSeparator := "\n\n"

  /** `relevantContexts.join("\n\n")`, or the placeholder when there are none. */
  function ContextString(contexts: seq<string>): (r: string)
    ensures contexts == [] ==> r == NoContextPlaceholder
    ensures contexts != [] ==> r == Join(contexts, ContextSeparator)
    ensures forall k :: 0 <= k < |contexts| ==> IsInfix(contexts[k], r)
  {
    if |contexts| > 0 then
      assert forall k :: 0 <= k < |contexts| ==> IsInfix(contexts[k], Join(contexts, ContextSeparator)) by {
        forall k | 0 <= k < |contexts|
          ensures IsInfix(contexts[k], Join(contexts, ContextSeparator))
        {
          JoinContainsParts(contexts, ContextSeparator, k);
        }
      }
      Join(contexts, ContextSeparator)
    else NoContextPlaceholder
  }

  /** A single context is used verbatim. */
  lemma SingleContextVerbatim(c: string)
    ensures ContextString([c]) == c
  {
  }

  const PromptHead :=
    "You are an AI assistant answering questions about Youssef based *primarily* on the provided context "
    + "and the ongoing conversation. If the context doesn't contain the answer, state that you don't have "
    + "that information based on the provided details. Refer to previous messages if relevant. "
    + "Keep responses concise and professional.\n\nContext about Youssef:\n--- START CONTEXT ---\n"
  const PromptTail := "\n--- END CONTEXT ---"

  /** The system prompt: the fixed instructions, then the context on its own lines between the START and END markers. */
  function SystemPrompt(contextString: string): (r: string)
    ensures |r| == |PromptHead| + |contextString| + |PromptTail|
    ensures r[..|PromptHead|] == PromptHead
    ensures r[|r| - |PromptTail|..] == PromptTail
  {
    PromptHead + contextString + PromptTail
  }

  /** The context between the markers of a prompt. */
  function PromptContext(prompt: string): string
    requires |prompt| >= |PromptHead| + |PromptTail|
  {
    prompt[|PromptHead|..|prompt| - |PromptTail|]
  }

  /** Round trip: the context can be read back from the prompt, so different contexts give different prompts. */
  lemma PromptRoundTrip(contextString: string)
    ensures PromptContext(SystemPrompt(contextString)) == contextString
  {
    var r := SystemPrompt(contextString);
    assert r == PromptHead + contextString + PromptTail;
    assert r[|PromptHead|..|r| - |PromptTail|] == contextString;
  }

  lemma SystemPromptInjective(a: string, b: string)
    requires SystemPrompt(a) == SystemPrompt(b)
    ensures a == b
  {
    PromptRoundTrip(a);
    PromptRoundTrip(b);
  }

  /** Every retrieved context appears in the prompt. */
  lemma ContextsInPrompt(contexts: seq<string>, k: nat)
    requires k < |contexts|
    ensures IsInfix(contexts[k], SystemPrompt(ContextString(contexts)))
  {
    InfixOfMiddle(contexts[k], PromptHead, ContextString(contexts), PromptTail);
  }

  /** `[{ role: "system", … }, ...conversationHistory, { role: "user", content: message }]`. */
  function BuildMessages(systemPrompt: string, history: seq<JsValue>, message: string): (r: seq<ApiMessage>)
    ensures |r| == |history| + 2
    ensures r[0] == SystemMessage(systemPrompt) && r[|r| - 1] == UserMessage(message)
    ensures forall i :: 0 <= i < |history| ==> r[i + 1] == Passed(history[i])
  {
    [SystemMessage(systemPrompt)] + seq(|history|, i requires 0 <= i < |history| => Passed(history[i])) + [UserMessage(message)]
  }

  // ---------------------------------------------------------------------------
  // POST

  /** Property access `v.key` on a parsed body that is not `null`: absent keys and non-objects give `undefined`. */
  function Field(v: JsValue, key: string): (r: JsValue)
    ensures v.Object? && key in v.fields ==> r == v.fields[key]
    ensures !(v.Object? && key in v.fields) ==> r == Undefined
  {
    if v.Object? && key in v.fields then v.fields[key] else Undefined
  }

  /** `!message || typeof message !== "string"` fails: a non-empty string. */
  predicate ValidMessage(m: JsValue) {
    m.Str? && m.s != ""
  }

  /** `Array.isArray(history) ? history : []`. */
  function ConversationHistory(h: JsValue): (r: seq<JsValue>)
    ensures h.Array? ==> r == h.items
    ensures !h.Array? ==> r == []
  {
    if h.Array? then h.items else []
  }

  /** What `POST` does before calling the model: reject the request, or send this completion request. */
  datatype Plan = Reject(response: Response) | Ask(request: CompletionRequest)

  const BadRequest := Response(400, Object(map["error" := Str("Invalid message format")]))

  /** `error instanceof Error ? error.message : "An unknown error occurred"`. */
  function Details(f: Failure): string {
    match f
    case ErrorInstance(m) => m
    case OtherThrown => "An unknown error occurred"
  }

  function InternalError(f: Failure): (r: Response)
    ensures r.status == 500
  {
    Response(500, Object(map["error" := Str("Internal server error"), "details" := Str(Details(f))]))
  }

  /** Validation, history defaulting, retrieval and prompt assembly for a parsed body. */
  function PlanRequest(env: Env, body: JsValue): (p: Plan)
    ensures body.Null? || body.Undefined? ==> p == Reject(InternalError(env.destructureFailure))
    ensures !(body.Null? || body.Undefined?) && !ValidMessage(Field(body, "message")) ==> p == Reject(BadRequest)
    ensures p.Ask? ==> ValidMessage(Field(body, "message"))
  {
    if body.Null? || body.Undefined? then Reject(InternalError(env.destructureFailure))
    else
      var message := Field(body, "message");
      if !ValidMessage(message) then Reject(BadRequest)
      else
        var history := ConversationHistory(Field(body, "history"));
        var contexts := FindRelevantContext(env, message.s, TopKContext, SimilarityThreshold);
        var prompt := SystemPrompt(ContextString(contexts));
        Ask(CompletionRequest(CompletionModel, BuildMessages(prompt, history, message.s), MaxTokens, Temperature))
  }

  /**
   * `POST(req)`: `body` is the outcome of `req.json()`. Anything thrown becomes a 500 whose
   * `details` is the error's message; the model's answer is returned as `response`.
   */
  function Post(env: Env, body: Result<JsValue>): (r: Response)
    ensures body.Failed? ==> r == InternalError(body.failure)
    ensures r.status in {200, 400, 500}
    ensures r.status == 200 <==>
              body.Parsed? && PlanRequest(env, body.value).Ask?
              && env.complete(PlanRequest(env, body.value).request).Completed?
  {
    match body
    case Failed(f) => InternalError(f)
    case Parsed(v) =>
      match PlanRequest(env, v)
      case Reject(resp) => resp
      case Ask(req) =>
        match env.complete(req)
        case CompletionFailed(f) => InternalError(f)
        case Completed(content) =>
          Response(200, Object(map["response" := if content.Some? then Str(content.value) else Null]))
  }

  /** The outcome of `req.json()`: a value, or the parse error it throws. */
  datatype Result<T> = Parsed(value: T) | Failed(failure: Failure)

  /** An invalid message is answered with 400 before any oracle is consulted: no retrieval, no completion. */
  lemma InvalidMessageRejected(env1: Env, env2: Env, body: JsValue)
    requires !body.Null? && !body.Undefined?
    requires !ValidMessage(Field(body, "message"))
    ensures Post(env1, Parsed(body)) == BadRequest
    ensures Post(env1, Parsed(body)) == Post(env2, Parsed(body))
  {
  }

  /** A `history` that is not an array is the same as an empty one. */
  lemma NonArrayHistoryIsEmpty(env: Env, fields: map<string, JsValue>)
    requires "history" in fields ==> !fields["history"].Array?
    ensures PlanRequest(env, Object(fields)) == PlanRequest(env, Object(fields["history" := Array([])]))
  {
    var f2 := fields["history" := Array([])];
    assert Field(Object(f2), "message") == Field(Object(fields), "message");
    assert ConversationHistory(Field(Object(f2), "history")) == [];
    assert ConversationHistory(Field(Object(fields), "history")) == [];
  }

  /**
   * For a valid message, the model is sent `[system, ...history, user]`: the system prompt
   * carries every retrieved context (or the placeholder), the history is kept in order, the
   * user's message comes last.
   */
  lemma ValidRequestMessages(env: Env, body: JsValue)
    requires !body.Null? && !body.Undefined? && ValidMessage(Field(body, "message"))
    ensures var p := PlanRequest(env, body);
            var message := Field(body, "message").s;
            var history := ConversationHistory(Field(body, "history"));
            var contexts := FindRelevantContext(env, message, TopKContext, SimilarityThreshold);
            var msgs := p.request.messages;
            && p.Ask?
            && p.request.model == CompletionModel && p.request.maxTokens == MaxTokens
            && |msgs| == |history| + 2
            && msgs[0].SystemMessage? && PromptContext(msgs[0].content) == ContextString(contexts)
            && (forall i :: 0 <= i < |history| ==> msgs[i + 1] == Passed(history[i]))
            && msgs[|msgs| - 1] == UserMessage(message)
  {
    var message := Field(body, "message").s;
    var contexts := FindRelevantContext(env, message, TopKContext, SimilarityThreshold);
    PromptRoundTrip(ContextString(contexts));
  }

  /** A failing completion call becomes a 500 carrying the error's message. */
  lemma CompletionFailureIs500(env: Env, body: JsValue, f: Failure)
    requires PlanRequest(env, body).Ask?
    requires env.complete(PlanRequest(env, body).request) == CompletionFailed(f)
    ensures Post(env, Parsed(body)) == InternalError(f)
    ensures Post(env, Parsed(body)).status == 500
  {
  }

  /** A valid request whose completion succeeds is answered with 200 and the model's text as `response` (`null` when it has none). */
  lemma CompletionSuccessIs200(env: Env, body: JsValue, content: Option<string>)
    requires !body.Null? && !body.Undefined? && ValidMessage(Field(body, "message"))
    requires env.complete(PlanRequest(env, body).request) == Completed(content)
    ensures Post(env, Parsed(body)) == Response(200, Object(map["response" := if content.Some? then Str(content.value) else Null]))
  {
    assert PlanRequest(env, body).Ask?;
  }
}
