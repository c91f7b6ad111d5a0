/**
  Properties of the request worker that relate several steps: the log is a
  complete account of the context's change, token callbacks see exactly the
  response, exactly one terminal event closes a request, and the public
  scenarios the client promises.
 */
module WorkerProperties {
  import opened Common
  import opened History
  import Response
  import opened ChatContext
  import StreamParser
  import opened Worker
  import ExampleData

  // The log as a complete account of the state change.

  lemma {:induction false} ReplaySnoc(c: Context, log: seq<Event>, e: Event)
    requires c.response.Valid()
    ensures Replay(c, log + [e]) == Apply(Replay(c, log), e)
    decreases |log|
  {
    if |log| == 0 {
      assert log + [e] == [e];
    } else {
      assert (log + [e])[1..] == log[1..] + [e];
      ReplaySnoc(Apply(c, log[0]), log[1..], e);
    }
  }

  /** Replaying the run's log from `start` gives the run's context. */
  predicate LogReplaysTo(start: Context, r: Run)
    requires start.response.Valid()
  {
    Replay(start, r.log) == r.ctx
  }

  lemma EmitReplays(start: Context, r: Run, e: Event)
    requires start.response.Valid() && r.ctx.response.Valid() && LogReplaysTo(start, r)
    ensures LogReplaysTo(start, Emit(r, e))
  {
    ReplaySnoc(start, r.log, e);
  }

  lemma EmitTokenReplays(start: Context, r: Run, token: string)
    requires start.response.Valid() && r.ctx.response.Valid() && LogReplaysTo(start, r)
    ensures LogReplaysTo(start, EmitToken(r, token))
  {
    var r1 := Emit(r, ResponseAppended(token));
    EmitReplays(start, r, ResponseAppended(token));
    var r2 := Emit(r1, TokenBuffered(token));
    EmitReplays(start, r1, TokenBuffered(token));
    if r2.ctx.callbacks.onToken {
      EmitReplays(start, r2, TokenCallback(token));
    }
  }

  lemma {:induction false} EmitTokensReplays(start: Context, r: Run, tokens: seq<string>)
    requires start.response.Valid() && r.ctx.response.Valid() && LogReplaysTo(start, r)
    ensures LogReplaysTo(start, EmitTokens(r, tokens))
    decreases |tokens|
  {
    if |tokens| > 0 {
      EmitTokenReplays(start, r, tokens[0]);
      EmitTokensReplays(start, EmitToken(r, tokens[0]), tokens[1..]);
    }
  }

  lemma FailReplays(start: Context, r: Run, reason: string)
    requires start.response.Valid() && r.ctx.response.Valid() && LogReplaysTo(start, r)
    ensures LogReplaysTo(start, Fail(r, reason))
  {
    var r1 := Emit(r, Finished(Some(reason)));
    EmitReplays(start, r, Finished(Some(reason)));
    if r1.ctx.callbacks.onError {
      EmitReplays(start, r1, ErrorCallback(reason));
    }
  }

  lemma CompleteReplays(start: Context, r: Run)
    requires start.response.Valid() && r.ctx.response.Valid() && LogReplaysTo(start, r)
    ensures LogReplaysTo(start, Complete(r))
  {
    var response := r.ctx.response;
    var r1 :=
      if response.buf.Some? && |response.buf.value| > 0
      then Emit(r, HistoryAppended(Message(AssistantRole, response.buf.value)))
      else r;
    if response.buf.Some? && |response.buf.value| > 0 {
      EmitReplays(start, r, HistoryAppended(Message(AssistantRole, response.buf.value)));
    }
    var r2 := Emit(r1, Finished(None));
    EmitReplays(start, r1, Finished(None));
    if r2.ctx.callbacks.onDone {
      EmitReplays(start, r2, DoneCallback(r2.ctx.response.buf));
    }
  }

  /** Applying the logged events of a request, in order, to the context it started from gives the context it left. */
  lemma ServeRequestReplays(c: Context, msg: string, net: NetOutcome, decode: StreamParser.Decoder)
    requires c.response.Valid()
    ensures Replay(c, ServeRequest(c, msg, net, decode).log) == ServeRequest(c, msg, net, decode).ctx
  {
    var r := Run(c, []);
    assert LogReplaysTo(c, r);
    var r0 := Emit(r, HistoryAppended(Message(UserRole, msg)));
    EmitReplays(c, r, HistoryAppended(Message(UserRole, msg)));
    match net
    case BuildFailed => FailReplays(c, r0, BuildError);
    case ConnectFailed => FailReplays(c, r0, ConnectError);
    case SendFailed => FailReplays(c, r0, SendError);
    case Delivered(bytes) =>
      var tokens := StreamParser.StreamResponse(bytes, decode).tokens;
      EmitTokensReplays(c, r0, tokens);
      CompleteReplays(c, EmitTokens(r0, tokens));
  }

  // What the callbacks observe.

  /** The tokens passed to `on_token`, in the order of the log. */
  function CallbackTokens(log: seq<Event>): seq<string> {
    if |log| == 0 then []
    else (if log[0].TokenCallback? then [log[0].token] else []) + CallbackTokens(log[1..])
  }

  lemma {:induction false} CallbackTokensAppend(a: seq<Event>, b: seq<Event>)
    ensures CallbackTokens(a + b) == CallbackTokens(a) + CallbackTokens(b)
    decreases |a|
  {
    if |a| == 0 {
      assert a + b == b;
    } else {
      assert (a + b)[0] == a[0];
      assert (a + b)[1..] == a[1..] + b;
      CallbackTokensAppend(a[1..], b);
      var first := if a[0].TokenCallback? then [a[0].token] else [];
      assert CallbackTokens(a + b) == first + CallbackTokens(a[1..] + b);
      assert first + (CallbackTokens(a[1..]) + CallbackTokens(b)) == (first + CallbackTokens(a[1..])) + CallbackTokens(b);
    }
  }

  /** A streamed token reaches `on_token` exactly when one is registered, in stream order. */
  lemma {:induction false} StreamCallbackTokens(tokens: seq<string>, onToken: bool)
    ensures CallbackTokens(StreamEvents(tokens, onToken)) == if onToken then tokens else []
    decreases |tokens|
  {
    if |tokens| > 0 {
      var t := tokens[0];
      CallbackTokensAppend(TokenEvents(t, onToken), StreamEvents(tokens[1..], onToken));
      StreamCallbackTokens(tokens[1..], onToken);
      CallbackTokensAppend([ResponseAppended(t), TokenBuffered(t)], if onToken then [TokenCallback(t)] else []);
      assert CallbackTokens([ResponseAppended(t), TokenBuffered(t)]) == [];
      if onToken {
        assert CallbackTokens([TokenCallback(t)]) == [t];
        assert tokens == [t] + tokens[1..];
      }
    }
  }

  /** Events after the stream that carry no token to `on_token`. */
  lemma TailWithoutTokens(assistant: seq<Event>, fin: Event, done: seq<Event>)
    requires |assistant| <= 1 && (|assistant| == 1 ==> assistant[0].HistoryAppended?)
    requires fin.Finished?
    requires |done| <= 1 && (|done| == 1 ==> done[0].DoneCallback?)
    ensures CallbackTokens(assistant + [fin] + done) == []
  {
    CallbackTokensAppend(assistant + [fin], done);
    CallbackTokensAppend(assistant, [fin]);
    assert [fin][1..] == [];
    if |assistant| == 1 {
      assert assistant[1..] == [];
    }
    if |done| == 1 {
      assert done[1..] == [];
    }
  }

  /** On the streaming path `on_token` sees exactly the stream's tokens, in order, when it is registered. */
  lemma DeliverCallbackTokens(r: Run, tokens: seq<string>)
    requires r.ctx.response.Valid()
    ensures CallbackTokens(Deliver(r, tokens).log)
         == CallbackTokens(r.log) + (if r.ctx.callbacks.onToken then tokens else [])
  {
    var r' := Deliver(r, tokens);
    var text := r'.ctx.response.Text();
    var assistant := if |text| > 0 then [HistoryAppended(Message(AssistantRole, text))] else [];
    var done := if r.ctx.callbacks.onDone then [DoneCallback(r'.ctx.response.buf)] else [];
    var s := StreamEvents(tokens, r.ctx.callbacks.onToken);
    var tail := assistant + [Finished(None)] + done;
    assert r'.log == r.log + s + tail;
    TailWithoutTokens(assistant, Finished(None), done);
    CallbackTokensAppend(r.log + s, tail);
    CallbackTokensAppend(r.log, s);
    StreamCallbackTokens(tokens, r.ctx.callbacks.onToken);
  }

  /** Over a whole delivered request, a registered `on_token` receives exactly the parsed tokens, in order. */
  lemma DeliveredCallbackTokens(c: Context, msg: string, bytes: string, decode: StreamParser.Decoder)
    requires c.response.Valid()
    ensures CallbackTokens(ServeRequest(c, msg, Delivered(bytes), decode).log)
         == if c.callbacks.onToken then StreamParser.StreamResponse(bytes, decode).tokens else []
  {
    var r0 := Emit(Run(c, []), HistoryAppended(Message(UserRole, msg)));
    var tokens := StreamParser.StreamResponse(bytes, decode).tokens;
    assert ServeRequest(c, msg, Delivered(bytes), decode) == Deliver(r0, tokens);
    DeliverCallbackTokens(r0, tokens);
    assert r0.log[1..] == [];
  }

  /** A failed request calls `on_token` for nothing. */
  lemma FailedCallbackTokens(c: Context, msg: string, net: NetOutcome, decode: StreamParser.Decoder)
    requires c.response.Valid() && !net.Delivered?
    ensures CallbackTokens(ServeRequest(c, msg, net, decode).log) == []
  {
    var e := ErrorText(net);
    var err := if c.callbacks.onError then [ErrorCallback(e)] else [];
    var log := [HistoryAppended(Message(UserRole, msg)), Finished(Some(e))] + err;
    assert ServeRequest(c, msg, net, decode).log == log;
    TailWithoutTokens([HistoryAppended(Message(UserRole, msg))], Finished(Some(e)), []);
    assert [HistoryAppended(Message(UserRole, msg))] + [Finished(Some(e))] + [] == log[..2];
    CallbackTokensAppend(log[..2], err);
    if |err| == 1 {
      assert err[1..] == [];
    }
    assert log == log[..2] + err;
  }

  /**
    During `chat_send_blocking`, the token callback receives exactly the
    parsed tokens of the delivered response, in order, when one was given,
    and is called for nothing otherwise.
   */
  lemma BlockingCallbackTokens(c: Context, msg: string, onToken: bool, net: NetOutcome, decode: StreamParser.Decoder)
    requires Valid(c) && IsDone(c)
    ensures CallbackTokens(SendBlocking(c, msg, onToken, net, decode).log)
         == if onToken && net.Delivered? then StreamParser.StreamResponse(net.bytes, decode).tokens else []
  {
    var c' := c.(isDone := false, response := Response.Empty, error := None, tokens := [],
                 callbacks := Callbacks(onToken, false, false), pending := None);
    if net.Delivered? {
      DeliveredCallbackTokens(c', msg, net.bytes, decode);
    } else {
      FailedCallbackTokens(c', msg, net, decode);
    }
  }

  /**
    The tokens `on_token` receives during a request are exactly the parsed
    tokens in order, and concatenated they equal the final response.
   */
  lemma TokensConcatenateToResponse(c: Context, msg: string, bytes: string, decode: StreamParser.Decoder)
    requires c.response == Response.Empty && c.callbacks.onToken
    ensures var r := ServeRequest(c, msg, Delivered(bytes), decode);
      && CallbackTokens(r.log) == StreamParser.StreamResponse(bytes, decode).tokens
      && Concat(CallbackTokens(r.log)) == r.ctx.response.Text()
  {
    DeliveredCallbackTokens(c, msg, bytes, decode);
    assert c.response.Text() == [];
  }

  // How a request ends.

  predicate IsFinished(e: Event) {
    e.Finished?
  }

  predicate IsTerminalCallback(e: Event) {
    e.DoneCallback? || e.ErrorCallback?
  }

  /** The events of a log that satisfy `keep`, in order. */
  function Select(log: seq<Event>, keep: Event -> bool): seq<Event> {
    if |log| == 0 then []
    else (if keep(log[0]) then [log[0]] else []) + Select(log[1..], keep)
  }

  lemma {:induction false} SelectAppend(a: seq<Event>, b: seq<Event>, keep: Event -> bool)
    ensures Select(a + b, keep) == Select(a, keep) + Select(b, keep)
    decreases |a|
  {
    if |a| == 0 {
      assert a + b == b;
    } else {
      assert (a + b)[0] == a[0];
      assert (a + b)[1..] == a[1..] + b;
      SelectAppend(a[1..], b, keep);
      var first := if keep(a[0]) then [a[0]] else [];
      assert Select(a + b, keep) == first + Select(a[1..] + b, keep);
      assert first + (Select(a[1..], keep) + Select(b, keep)) == (first + Select(a[1..], keep)) + Select(b, keep);
    }
  }

  lemma SelectSingle(e: Event, keep: Event -> bool)
    ensures Select([e], keep) == if keep(e) then [e] else []
  {
    assert [e][1..] == [];
  }

  /** Token handling neither ends a request nor fires `on_done` or `on_error`. */
  lemma {:induction false} StreamEventsNotTerminal(tokens: seq<string>, onToken: bool)
    ensures Select(StreamEvents(tokens, onToken), IsFinished) == []
    ensures Select(StreamEvents(tokens, onToken), IsTerminalCallback) == []
    decreases |tokens|
  {
    if |tokens| > 0 {
      var t := tokens[0];
      var one := TokenEvents(t, onToken);
      SelectAppend(one, StreamEvents(tokens[1..], onToken), IsFinished);
      SelectAppend(one, StreamEvents(tokens[1..], onToken), IsTerminalCallback);
      StreamEventsNotTerminal(tokens[1..], onToken);
      assert Select(one, IsFinished) == [] && Select(one, IsTerminalCallback) == [] by {
        SelectAppend([ResponseAppended(t), TokenBuffered(t)], if onToken then [TokenCallback(t)] else [], IsFinished);
        SelectAppend([ResponseAppended(t), TokenBuffered(t)], if onToken then [TokenCallback(t)] else [], IsTerminalCallback);
      }
    }
  }

  /**
    `log` holds exactly one `Finished` event, `fin`, and after it only the
    terminal callbacks `tail`, which are all of the log's terminal callbacks.
   */
  predicate ClosedBy(log: seq<Event>, fin: Event, tail: seq<Event>) {
    && Select(log, IsFinished) == [fin]
    && Select(log, IsTerminalCallback) == tail
    && |tail| < |log|
    && log[|log| - 1 - |tail|] == fin
    && log[|log| - |tail|..] == tail
  }

  /**
    A log made of events that neither finish nor end a request, then one
    `Finished`, then at most one terminal callback.
   */
  lemma EndShape(body: seq<Event>, fin: Event, tail: seq<Event>)
    requires Select(body, IsFinished) == [] && Select(body, IsTerminalCallback) == []
    requires fin.Finished? && |tail| <= 1 && (|tail| == 1 ==> IsTerminalCallback(tail[0]))
    ensures ClosedBy(body + [fin] + tail, fin, tail)
  {
    SelectAppend(body, [fin], IsFinished);
    SelectAppend(body, [fin], IsTerminalCallback);
    SelectAppend(body + [fin], tail, IsFinished);
    SelectAppend(body + [fin], tail, IsTerminalCallback);
    SelectSingle(fin, IsFinished);
    SelectSingle(fin, IsTerminalCallback);
    if |tail| == 1 {
      assert tail == [tail[0]];
      SelectSingle(tail[0], IsFinished);
      SelectSingle(tail[0], IsTerminalCallback);
    }
    var log := body + [fin] + tail;
    assert log[|log| - |tail|..] == tail;
  }

  lemma DeliveredBodyQuiet(msg: string, tokens: seq<string>, onToken: bool, assistant: seq<Event>)
    requires forall i | 0 <= i < |assistant| :: assistant[i].HistoryAppended?
    requires |assistant| <= 1
    ensures var body := [HistoryAppended(Message(UserRole, msg))] + StreamEvents(tokens, onToken) + assistant;
      Select(body, IsFinished) == [] && Select(body, IsTerminalCallback) == []
  {
    var head := [HistoryAppended(Message(UserRole, msg))];
    var s := StreamEvents(tokens, onToken);
    StreamEventsNotTerminal(tokens, onToken);
    SelectAppend(head, s, IsFinished);
    SelectAppend(head, s, IsTerminalCallback);
    SelectAppend(head + s, assistant, IsFinished);
    SelectAppend(head + s, assistant, IsTerminalCallback);
    SelectSingle(head[0], IsFinished);
    SelectSingle(head[0], IsTerminalCallback);
    if |assistant| == 1 {
      assert assistant == [assistant[0]];
      SelectSingle(assistant[0], IsFinished);
      SelectSingle(assistant[0], IsTerminalCallback);
    }
  }

  lemma DeliveredEnd(c: Context, msg: string, bytes: string, decode: StreamParser.Decoder)
    requires c.response.Valid()
    ensures var r := ServeRequest(c, msg, Delivered(bytes), decode);
      ClosedBy(r.log, Finished(None), if c.callbacks.onDone then [DoneCallback(r.ctx.response.buf)] else [])
  {
    var r := ServeRequest(c, msg, Delivered(bytes), decode);
    var tokens := StreamParser.StreamResponse(bytes, decode).tokens;
    var text := r.ctx.response.Text();
    var assistant := if |text| > 0 then [HistoryAppended(Message(AssistantRole, text))] else [];
    var done := if c.callbacks.onDone then [DoneCallback(r.ctx.response.buf)] else [];
    var body := [HistoryAppended(Message(UserRole, msg))] + StreamEvents(tokens, c.callbacks.onToken) + assistant;
    assert r.log == body + [Finished(None)] + done;
    DeliveredBodyQuiet(msg, tokens, c.callbacks.onToken, assistant);
    EndShape(body, Finished(None), done);
  }

  lemma FailedEnd(c: Context, msg: string, net: NetOutcome, decode: StreamParser.Decoder)
    requires c.response.Valid() && !net.Delivered?
    ensures var r := ServeRequest(c, msg, net, decode);
      ClosedBy(r.log, Finished(Some(ErrorText(net))), if c.callbacks.onError then [ErrorCallback(ErrorText(net))] else [])
  {
    var r := ServeRequest(c, msg, net, decode);
    var e := ErrorText(net);
    var head := [HistoryAppended(Message(UserRole, msg))];
    var err := if c.callbacks.onError then [ErrorCallback(e)] else [];
    assert r.log == head + [Finished(Some(e))] + err;
    SelectSingle(head[0], IsFinished);
    SelectSingle(head[0], IsTerminalCallback);
    EndShape(head, Finished(Some(e)), err);
  }

  /**
    Every request is marked finished exactly once, and after that only its
    terminal callback can follow: `on_done` on the stream-end path and
    `on_error` on a failure path, each if registered, never both. With both
    registered, exactly one fires, as the last event.
   */
  lemma ExactlyOneEnd(c: Context, msg: string, net: NetOutcome, decode: StreamParser.Decoder)
    requires c.response.Valid()
    ensures var r := ServeRequest(c, msg, net, decode);
      ClosedBy(r.log,
               Finished(if net.Delivered? then None else Some(ErrorText(net))),
               if net.Delivered?
               then (if c.callbacks.onDone then [DoneCallback(r.ctx.response.buf)] else [])
               else (if c.callbacks.onError then [ErrorCallback(ErrorText(net))] else []))
  {
    if net.Delivered? {
      DeliveredEnd(c, msg, net.bytes, decode);
    } else {
      FailedEnd(c, msg, net, decode);
    }
  }

  // Scenarios of the public interface.

  /**
    The handshake: an idle context accepts a request and is busy until the
    worker has served it, rejecting other requests meanwhile; afterwards it is
    idle again and accepts the next request.
   */
  lemma RequestLifecycle(c: Context, msg: string, cb: Callbacks, other: string, cb2: Callbacks,
                         net: NetOutcome, decode: StreamParser.Decoder)
    requires Valid(c) && IsDone(c)
    ensures var s := SendAsync(c, msg, cb);
      && s.status == 0 && Valid(s.ctx) && !IsDone(s.ctx)
      && SendAsync(s.ctx, other, cb2).status == -1
      && Step(s.ctx, net, decode).Served?
      && var after := Step(s.ctx, net, decode).run.ctx;
         Valid(after) && IsDone(after) && SendAsync(after, other, cb2).status == 0
  {
  }

  /**
    Polling after a request drains exactly the tokens the response yielded,
    in order, and leaves the buffer empty.
   */
  lemma PollAfterRequest(c: Context, msg: string, bytes: string, decode: StreamParser.Decoder)
    requires c.response.Valid() && c.tokens == []
    ensures var tokens := StreamParser.StreamResponse(bytes, decode).tokens;
      var p := PollTokens(ServeRequest(c, msg, Delivered(bytes), decode).ctx);
      && p.count == |tokens|
      && p.tokens == (if |tokens| == 0 then None else Some(tokens))
      && p.ctx.tokens == []
  {
    var tokens := StreamParser.StreamResponse(bytes, decode).tokens;
    assert [] + tokens == tokens;
  }

  /**
    An unreachable server: the error is "Connection failed", `on_error` is the
    last event when registered, there is no response, and the history holds
    the user message and nothing more.
   */
  lemma ConnectionFailure(c: Context, msg: string, cb: Callbacks, decode: StreamParser.Decoder)
    requires Valid(c) && IsDone(c)
    ensures var s := SendAsync(c, msg, cb);
      var w := Step(s.ctx, ConnectFailed, decode);
      && w.Served?
      && GetError(w.run.ctx) == Some(ConnectError)
      && GetResponse(w.run.ctx).None?
      && w.run.ctx.history == c.history + [Message(UserRole, msg)]
      && (cb.onError ==> w.run.log[|w.run.log| - 1] == ErrorCallback(ConnectError))
      && IsDone(w.run.ctx)
  {
  }

  /** An answered blocking request appends exactly its user message and the answer it returns. */
  lemma BlockingAnswerHistory(c: Context, msg: string, onToken: bool, net: NetOutcome, decode: StreamParser.Decoder)
    requires Valid(c) && IsDone(c) && Answered(net, decode)
    ensures var b := SendBlocking(c, msg, onToken, net, decode);
      && b.result.Some?
      && b.ctx.history == c.history + [Message(UserRole, msg), Message(AssistantRole, b.result.value)]
  {
    var b := SendBlocking(c, msg, onToken, net, decode);
    var h, n := b.ctx.history, |c.history|;
    assert |h| == n + 2 && h[..n] == c.history;
    assert h == h[..n] + [h[n], h[n + 1]];
  }

  /** After clearing the history, an answered blocking request leaves exactly its user message and the answer. */
  lemma ClearThenAnswered(c: Context, msg: string, onToken: bool, net: NetOutcome, decode: StreamParser.Decoder)
    requires Valid(c) && IsDone(c) && Answered(net, decode)
    ensures var b := SendBlocking(Clear(c), msg, onToken, net, decode);
      && b.result.Some?
      && b.ctx.history == [Message(UserRole, msg), Message(AssistantRole, b.result.value)]
  {
    BlockingAnswerHistory(Clear(c), msg, onToken, net, decode);
  }

  /** A blocking request answered by the example response returns "Hi!" and records both messages. */
  lemma ExampleBlockingRequest(c: Context, msg: string, decode: StreamParser.Decoder)
    requires Valid(c) && IsDone(c)
    requires decode(ExampleData.FirstEvent) == Some(StreamParser.Event(Some(StreamParser.JBool(false)), Some(StreamParser.JObject(Some(StreamParser.JString("Hi"))))))
    requires decode(ExampleData.LastEvent) == Some(StreamParser.Event(Some(StreamParser.JBool(true)), Some(StreamParser.JObject(Some(StreamParser.JString("!"))))))
    ensures var b := SendBlocking(c, msg, true, Delivered(ExampleData.Response), decode);
      b.result == Some("Hi!") && |b.ctx.history| == |c.history| + 2
  {
    ExampleData.ExampleResponseTokens(decode);
  }
}
