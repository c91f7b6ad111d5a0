/**
  The request worker. One request is served as an atomic transition from the
  context the worker finds to the context it leaves, together with a log of
  what happened in order: every locked update of shared state and every
  callback invocation. The network is a nondeterministic input: request
  building, connecting and sending either fail or deliver the response bytes.
 */
module Worker {
  import opened Common
  import opened History
  import Response
  import TokenQueue
  import opened ChatContext
  import opened StreamParser

  /** What the network part of a request came to. */
  datatype NetOutcome = BuildFailed | ConnectFailed | SendFailed | Delivered(bytes: string)

  const BuildError: string := "Failed to create request"
  const ConnectError: string := "Connection failed"
  const SendError: string := "Send failed"

  /** The error message the worker stores for a failed request. */
  function ErrorText(net: NetOutcome): string
    requires !net.Delivered?
  {
    match net
    case BuildFailed => BuildError
    case ConnectFailed => ConnectError
    case SendFailed => SendError
  }

  /** One step of a request: a locked update of the context, or a callback invocation. */
  datatype Event =
    | HistoryAppended(entry: Message)
    | ResponseAppended(text: string)
    | TokenBuffered(token: string)
    | Finished(error: Option<string>)
    | TokenCallback(token: string)
    | DoneCallback(response: Option<string>)
    | ErrorCallback(reason: string)

  /** The effect of one event on the context; callbacks change nothing. */
  function Apply(c: Context, e: Event): (r: Context)
    requires c.response.Valid()
    ensures r.response.Valid()
  {
    match e
    case HistoryAppended(m) => c.(history := History.Append(c.history, m.role, m.content))
    case ResponseAppended(t) => c.(response := Response.Append(c.response, t))
    case TokenBuffered(t) => c.(tokens := TokenQueue.Push(c.tokens, t))
    case Finished(err) => if err.Some? then c.(error := err, isDone := true) else c.(isDone := true)
    case TokenCallback(_) => c
    case DoneCallback(_) => c
    case ErrorCallback(_) => c
  }

  /** The context after the events of a log have been applied in order. */
  function Replay(c: Context, log: seq<Event>): (r: Context)
    requires c.response.Valid()
    ensures r.response.Valid()
    decreases |log|
  {
    if |log| == 0 then c else Replay(Apply(c, log[0]), log[1..])
  }

  /** A request in progress: the context so far and the log so far. */
  datatype Run = Run(ctx: Context, log: seq<Event>)

  /** Performs one event and records it. */
  function Emit(r: Run, e: Event): (r': Run)
    requires r.ctx.response.Valid()
    ensures r'.ctx.response.Valid()
  {
    Run(Apply(r.ctx, e), r.log + [e])
  }

  /** The log of one token: appended to the response, buffered, then passed to `on_token` if registered. */
  function TokenEvents(token: string, onToken: bool): seq<Event> {
    [ResponseAppended(token), TokenBuffered(token)] + (if onToken then [TokenCallback(token)] else [])
  }

  /** The log of a sequence of tokens, each token's events before the next token's. */
  function StreamEvents(tokens: seq<string>, onToken: bool): seq<Event> {
    if |tokens| == 0 then [] else TokenEvents(tokens[0], onToken) + StreamEvents(tokens[1..], onToken)
  }

  /** The body of the parser's token branch for one token. */
  function EmitToken(r: Run, token: string): (r': Run)
    requires r.ctx.response.Valid()
    ensures r'.ctx.response.Valid()
    ensures r'.ctx == r.ctx.(tokens := r.ctx.tokens + [token], response := Response.Append(r.ctx.response, token))
    ensures r'.log == r.log + TokenEvents(token, r.ctx.callbacks.onToken)
  {
    var r1 := Emit(r, ResponseAppended(token));
    var r2 := Emit(r1, TokenBuffered(token));
    if r2.ctx.callbacks.onToken then Emit(r2, TokenCallback(token)) else r2
  }

  /** Handling the tokens of a response in order, one `EmitToken` each. */
  function EmitTokens(r: Run, tokens: seq<string>): (r': Run)
    requires r.ctx.response.Valid()
    ensures r'.ctx.response.Valid()
    decreases |tokens|
  {
    if |tokens| == 0 then r else EmitTokens(EmitToken(r, tokens[0]), tokens[1..])
  }

  /**
    Handling tokens grows the token buffer by the tokens themselves, and
    changes nothing in the context but the buffer and the response.
   */
  lemma {:induction false} EmitTokensBuffer(r: Run, tokens: seq<string>)
    requires r.ctx.response.Valid()
    ensures var r' := EmitTokens(r, tokens);
      && r'.ctx.tokens == r.ctx.tokens + tokens
      && r'.ctx == r.ctx.(tokens := r'.ctx.tokens, response := r'.ctx.response)
    decreases |tokens|
  {
    if |tokens| > 0 {
      EmitTokensBuffer(EmitToken(r, tokens[0]), tokens[1..]);
      assert tokens == [tokens[0]] + tokens[1..];
    }
  }

  /**
    Handling tokens grows the response text by their concatenation; the
    response exists afterwards exactly when it existed before or a token
    arrived.
   */
  lemma {:induction false} EmitTokensText(r: Run, tokens: seq<string>)
    requires r.ctx.response.Valid()
    ensures var r' := EmitTokens(r, tokens);
      && r'.ctx.response.Text() == r.ctx.response.Text() + Concat(tokens)
      && (r'.ctx.response.buf.Some? <==> r.ctx.response.buf.Some? || |tokens| > 0)
    decreases |tokens|
  {
    if |tokens| > 0 {
      var r1 := EmitToken(r, tokens[0]);
      EmitTokensText(r1, tokens[1..]);
      assert r1.ctx.response.buf.Some?;
      assert Concat(tokens) == tokens[0] + Concat(tokens[1..]);
    }
  }

  /** Handling tokens extends the log by each token's events, in order. */
  lemma {:induction false} EmitTokensLog(r: Run, tokens: seq<string>)
    requires r.ctx.response.Valid()
    ensures EmitTokens(r, tokens).log == r.log + StreamEvents(tokens, r.ctx.callbacks.onToken)
    decreases |tokens|
  {
    if |tokens| > 0 {
      var r1 := EmitToken(r, tokens[0]);
      EmitTokensLog(r1, tokens[1..]);
    }
  }

  /** A failure path: `is_done` and the error message are set, then `on_error` fires if registered. */
  function Fail(r: Run, reason: string): (r': Run)
    requires r.ctx.response.Valid()
    ensures r'.ctx.response.Valid()
    ensures r'.ctx == r.ctx.(error := Some(reason), isDone := true)
    ensures r'.log == r.log + [Finished(Some(reason))] + (if r.ctx.callbacks.onError then [ErrorCallback(reason)] else [])
  {
    var r1 := Emit(r, Finished(Some(reason)));
    if r1.ctx.callbacks.onError then Emit(r1, ErrorCallback(reason)) else r1
  }

  /**
    The end of a delivered request: an assistant message holding the response
    is appended only when the response is non-empty, then `is_done` is set,
    then `on_done` fires with the response if registered.
   */
  function Complete(r: Run): (r': Run)
    requires r.ctx.response.Valid()
    ensures r'.ctx.response.Valid()
    ensures var text := r.ctx.response.Text();
      && r'.ctx == r.ctx.(history := r.ctx.history + (if |text| > 0 then [Message(AssistantRole, text)] else []), isDone := true)
      && r'.log == r.log
                   + (if |text| > 0 then [HistoryAppended(Message(AssistantRole, text))] else [])
                   + [Finished(None)]
                   + (if r.ctx.callbacks.onDone then [DoneCallback(r.ctx.response.buf)] else [])
  {
    var response := r.ctx.response;
    var r1 :=
      if response.buf.Some? && |response.buf.value| > 0
      then Emit(r, HistoryAppended(Message(AssistantRole, response.buf.value)))
      else r;
    var r2 := Emit(r1, Finished(None));
    if r2.ctx.callbacks.onDone then Emit(r2, DoneCallback(r2.ctx.response.buf)) else r2
  }

  /** The streaming path of a request: every token handled in order, then the completion. */
  function Deliver(r: Run, tokens: seq<string>): (r': Run)
    requires r.ctx.response.Valid()
    ensures r'.ctx.response.Valid()
    ensures var text := r'.ctx.response.Text();
      && text == r.ctx.response.Text() + Concat(tokens)
      && r'.ctx == r.ctx.(tokens := r.ctx.tokens + tokens, response := r'.ctx.response,
                          history := r.ctx.history + (if |text| > 0 then [Message(AssistantRole, text)] else []),
                          isDone := true)
      && r'.log == r.log
                   + StreamEvents(tokens, r.ctx.callbacks.onToken)
                   + (if |text| > 0 then [HistoryAppended(Message(AssistantRole, text))] else [])
                   + [Finished(None)]
                   + (if r.ctx.callbacks.onDone then [DoneCallback(r'.ctx.response.buf)] else [])
  {
    EmitTokensBuffer(r, tokens);
    EmitTokensText(r, tokens);
    EmitTokensLog(r, tokens);
    Complete(EmitTokens(r, tokens))
  }

  /**
    One request of `worker_loop`. The user message is appended to the history
    first. A build, connect or send failure then ends the request with its
    error message and `on_error`. Otherwise the response is streamed, an
    assistant message holding the response is appended only when the response
    is non-empty, and the request ends with `on_done`. Every path sets
    `is_done` before its final callback, and the log records the order.
   */
  function ServeRequest(c: Context, msg: string, net: NetOutcome, decode: Decoder): (r: Run)
    requires c.response.Valid()
    ensures r.ctx.response.Valid() && r.ctx.isDone
    ensures SameConfig(c, r.ctx) && r.ctx.pending == c.pending && r.ctx.callbacks == c.callbacks
    ensures 0 < |r.log| && r.log[0] == HistoryAppended(Message(UserRole, msg))
    ensures !net.Delivered? ==>
      && r.ctx.history == c.history + [Message(UserRole, msg)]
      && r.ctx.error == Some(ErrorText(net))
      && r.ctx.tokens == c.tokens
      && r.ctx.response == c.response
      && r.log == [HistoryAppended(Message(UserRole, msg)), Finished(Some(ErrorText(net)))]
                  + (if c.callbacks.onError then [ErrorCallback(ErrorText(net))] else [])
    ensures net.Delivered? ==>
      var tokens := StreamResponse(net.bytes, decode).tokens;
      var text := r.ctx.response.Text();
      && text == c.response.Text() + Concat(tokens)
      && r.ctx.tokens == c.tokens + tokens
      && r.ctx.error == c.error
      && r.ctx.history == c.history + [Message(UserRole, msg)]
                          + (if |text| > 0 then [Message(AssistantRole, text)] else [])
      && r.log == [HistoryAppended(Message(UserRole, msg))]
                  + StreamEvents(tokens, c.callbacks.onToken)
                  + (if |text| > 0 then [HistoryAppended(Message(AssistantRole, text))] else [])
                  + [Finished(None)]
                  + (if c.callbacks.onDone then [DoneCallback(r.ctx.response.buf)] else [])
  {
    var r0 := Emit(Run(c, []), HistoryAppended(Message(UserRole, msg)));
    match net
    case BuildFailed => Fail(r0, BuildError)
    case ConnectFailed => Fail(r0, ConnectError)
    case SendFailed => Fail(r0, SendError)
    case Delivered(bytes) =>
      var tokens := StreamResponse(bytes, decode).tokens;
      assert r0.log == [HistoryAppended(Message(UserRole, msg))];
      assert r0.ctx == c.(history := c.history + [Message(UserRole, msg)]);
      Deliver(r0, tokens)
  }

  /** Whether a request delivered a response with at least one token. */
  predicate Answered(net: NetOutcome, decode: Decoder) {
    net.Delivered? && |StreamResponse(net.bytes, decode).tokens| > 0
  }

  /**
    A request on a freshly reset response buffer: the response exists exactly
    when at least one token arrived, and is then their concatenation; the
    history grows by the user message, plus an assistant message holding the
    response exactly in that case, so by two or by one.
   */
  lemma {:induction false} FreshRequestOutcome(c: Context, msg: string, net: NetOutcome, decode: Decoder)
    requires c.response == Response.Empty
    ensures var r := ServeRequest(c, msg, net, decode);
      && (r.ctx.response.buf.Some? <==> Answered(net, decode))
      && (Answered(net, decode) ==> r.ctx.response.buf == Some(Concat(StreamResponse(net.bytes, decode).tokens)))
      && r.ctx.history == c.history + [Message(UserRole, msg)]
         + (if Answered(net, decode) then [Message(AssistantRole, r.ctx.response.buf.value)] else [])
      && |r.ctx.history| == |c.history| + (if Answered(net, decode) then 2 else 1)
  {
    var r := ServeRequest(c, msg, net, decode);
    if net.Delivered? {
      var tokens := StreamResponse(net.bytes, decode).tokens;
      ConcatEmptyIff(tokens);
      assert c.response.Text() == [];
      var text := r.ctx.response.Text();
      assert text == Concat(tokens);
      assert |text| > 0 <==> Answered(net, decode);
      if Answered(net, decode) {
        assert r.ctx.response.buf == Some(text);
      } else {
        assert tokens == [];
      }
    } else {
      assert r.ctx.response == Response.Empty;
    }
  }

  /** What the worker does with the context it finds. */
  datatype WorkerStep = Waiting | Served(run: Run)

  /**
    One pass of `worker_loop`: with no pending message the worker keeps
    waiting; otherwise it takes the message, clearing the slot, and serves it.
   */
  function Step(c: Context, net: NetOutcome, decode: Decoder): (w: WorkerStep)
    requires c.response.Valid()
    ensures w.Waiting? <==> c.pending.None?
    ensures w.Served? ==> w.run.ctx.pending.None? && w.run.ctx.isDone
    ensures w.Served? ==> |c.history| < |w.run.ctx.history| && w.run.ctx.history[..|c.history|] == c.history
    ensures w.Served? && Valid(c) ==> Valid(w.run.ctx)
  {
    match c.pending
    case None => Waiting
    case Some(msg) => Served(ServeRequest(c.(pending := None), msg, net, decode))
  }

  /** The result of `chat_send_blocking`, the context it leaves, and the log of the request it ran. */
  datatype Blocking = Blocking(result: Option<string>, ctx: Context, log: seq<Event>)

  /**
    `chat_send_blocking`: a busy context returns NULL at once and is left as
    it was. Otherwise the request runs to its end and the response is
    returned: NULL after a failure and also when no token arrived, else the
    concatenation of the tokens. The history grows by the user message, and
    then by an assistant message holding the answer exactly when one is
    returned. `SendBlockingLeaves` states the rest of the context it leaves.
   */
  function SendBlocking(c: Context, message: string, onToken: bool, net: NetOutcome, decode: Decoder): (b: Blocking)
    requires Valid(c)
    ensures !c.isDone ==> b == Blocking(None, c, [])
    ensures c.isDone ==>
      && Valid(b.ctx) && b.ctx.isDone && b.ctx.pending.None?
      && |c.history| < |b.ctx.history|
      && b.ctx.history[..|c.history|] == c.history
      && b.ctx.history[|c.history|] == Message(UserRole, message)
      && (b.result.Some? <==> net.Delivered? && |StreamResponse(net.bytes, decode).tokens| > 0)
      && (b.result.Some? ==> b.result.value == Concat(StreamResponse(net.bytes, decode).tokens))
      && |b.ctx.history| == |c.history| + (if b.result.Some? then 2 else 1)
      && (b.result.Some? ==> b.ctx.history[|c.history| + 1] == Message(AssistantRole, b.result.value))
    ensures c.isDone ==>
      b.log == ServeRequest(c.(isDone := false, response := Response.Empty, error := None, tokens := [],
                               callbacks := Callbacks(onToken, false, false), pending := None),
                            message, net, decode).log
  {
    var s := SendAsync(c, message, Callbacks(onToken, false, false));
    if s.status != 0 then Blocking(None, c, [])
    else
      var w := Step(s.ctx, net, decode);
      FreshRequestOutcome(s.ctx.(pending := None), message, net, decode);
      Blocking(GetResponse(w.run.ctx), w.run.ctx, w.run.log)
  }

  /**
    What `chat_send_blocking` leaves for the other calls: the context the
    worker leaves after serving the request, so the configuration is kept,
    `chat_get_error` gives the failed path's message, `chat_get_response`
    gives the returned answer, and the response's tokens are still buffered
    for `chat_poll_tokens`.
   */
  lemma SendBlockingLeaves(c: Context, message: string, onToken: bool, net: NetOutcome, decode: Decoder)
    requires Valid(c) && c.isDone
    ensures var b := SendBlocking(c, message, onToken, net, decode);
      && b.ctx == ServeRequest(c.(isDone := false, response := Response.Empty, error := None, tokens := [],
                                  callbacks := Callbacks(onToken, false, false), pending := None),
                               message, net, decode).ctx
      && SameConfig(c, b.ctx)
      && b.ctx.callbacks == Callbacks(onToken, false, false)
      && b.ctx.error == (if net.Delivered? then None else Some(ErrorText(net)))
      && b.ctx.tokens == (if net.Delivered? then StreamResponse(net.bytes, decode).tokens else [])
      && GetResponse(b.ctx) == b.result
  {
  }
}
