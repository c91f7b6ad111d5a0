/**
  The chat context and its public operations, each a locked section of the
  source taken as one atomic step. Callbacks are represented by which of them
  the caller registered; the opaque user data pointer is not modelled.
 */
module ChatContext {
  import opened Common
  import opened History
  import Response
  import TokenQueue

  const DefaultHost: string := "192.168.0.61"
  const DefaultPort: int := 11434
  const DefaultModel: string := "nemotron-3-nano"
  const DefaultTimeout: int := 60

  /** Which callbacks the current request registered (a NULL callback is `false`). */
  datatype Callbacks = Callbacks(onToken: bool, onDone: bool, onError: bool)

  const NoCallbacks: Callbacks := Callbacks(false, false, false)

  datatype Context = Context(
    host: string,
    port: int,
    model: string,
    timeout: int,
    history: seq<Message>,
    pending: Option<string>,
    callbacks: Callbacks,
    tokens: seq<string>,
    response: Response.Accumulator,
    error: Option<string>,
    isDone: bool)

  /**
    What every operation keeps: a positive port and timeout, a well-formed
    response buffer, and a pending message only while a request is in flight.
   */
  predicate Valid(c: Context) {
    && c.port > 0
    && c.timeout > 0
    && c.response.Valid()
    && (c.pending.Some? ==> !c.isDone)
  }

  /** The connection configuration is the same in both contexts. */
  predicate SameConfig(a: Context, b: Context) {
    a.host == b.host && a.port == b.port && a.model == b.model && a.timeout == b.timeout
  }

  /**
    `chat_context_new`: a missing host or model and a non-positive port take
    their defaults, the timeout is 60 seconds, and no request is in flight.
   */
  function NewContext(host: Option<string>, port: int, model: Option<string>): (c: Context)
    ensures Valid(c)
    ensures c.host == host.ValueOr(DefaultHost) && c.model == model.ValueOr(DefaultModel)
    ensures port > 0 ==> c.port == port
    ensures port <= 0 ==> c.port == DefaultPort
    ensures c.timeout == DefaultTimeout
    ensures c.isDone && c.pending.None?
    ensures c.history == [] && c.tokens == [] && c.response.buf.None? && c.error.None?
  {
    Context(
      host.ValueOr(DefaultHost),
      if port > 0 then port else DefaultPort,
      model.ValueOr(DefaultModel),
      DefaultTimeout,
      [], None, NoCallbacks, [], Response.Empty, None, true)
  }

  /** `chat_set_timeout`: a positive value is stored, anything else falls back to 60; nothing else changes. */
  function SetTimeout(c: Context, seconds: int): (r: Context)
    ensures r.timeout > 0
    ensures seconds > 0 ==> r.timeout == seconds
    ensures seconds <= 0 ==> r.timeout == DefaultTimeout
    ensures r.(timeout := c.timeout) == c
    ensures Valid(c) ==> Valid(r)
  {
    c.(timeout := if seconds > 0 then seconds else DefaultTimeout)
  }

  /** The result of `chat_send_async`: 0 or -1, and the context afterwards. */
  datatype Submitted = Submitted(status: int, ctx: Context)

  /**
    `chat_send_async`: a context with a request in flight rejects the message
    with -1 and is left exactly as it was. Otherwise the request is marked in
    flight, the response, error and token buffer are cleared, the callbacks are
    stored and the message is published for the worker; the result is 0.
   */
  function SendAsync(c: Context, message: string, callbacks: Callbacks): (s: Submitted)
    ensures s.status == 0 || s.status == -1
    ensures s.status == -1 <==> !c.isDone
    ensures s.status == -1 ==> s.ctx == c
    ensures s.status == 0 ==>
      && !s.ctx.isDone
      && s.ctx.pending == Some(message)
      && s.ctx.callbacks == callbacks
      && s.ctx.tokens == []
      && s.ctx.response == Response.Empty
      && s.ctx.error.None?
      && s.ctx.history == c.history
      && SameConfig(c, s.ctx)
    ensures Valid(c) ==> Valid(s.ctx)
  {
    if !c.isDone then Submitted(-1, c)
    else
      Submitted(0, c.(
        isDone := false,
        response := Response.Empty,
        error := None,
        tokens := [],
        callbacks := callbacks,
        pending := Some(message)))
  }

  /** `chat_is_done`: 1 when no request was made or the last one finished. */
  function IsDone(c: Context): bool {
    c.isDone
  }

  /** `chat_get_response`: the response buffer, NULL when there is none. */
  function GetResponse(c: Context): Option<string> {
    c.response.buf
  }

  /** `chat_get_error`: the last error message, NULL when there is none. */
  function GetError(c: Context): Option<string> {
    c.error
  }

  /** `chat_clear`: the history becomes empty; configuration and request state are untouched. */
  function Clear(c: Context): (r: Context)
    ensures r.history == []
    ensures SameConfig(c, r)
    ensures r.pending == c.pending && r.isDone == c.isDone && r.callbacks == c.callbacks
    ensures r.tokens == c.tokens && r.response == c.response && r.error == c.error
    ensures Valid(c) ==> Valid(r)
  {
    c.(history := [])
  }

  /** `chat_get_message_count`. */
  function MessageCount(c: Context): int {
    |c.history|
  }

  /** `chat_get_message`: 0 and the message for an index from 0 to count-1, -1 and nothing otherwise. */
  function GetMessage(c: Context, index: int): (r: (int, Option<Message>))
    ensures r.0 == 0 <==> 0 <= index < |c.history|
    ensures r.0 != 0 ==> r.0 == -1 && r.1.None?
    ensures r.0 == 0 ==> r.1 == Some(c.history[index])
  {
    var m := History.Get(c.history, index);
    if m.None? then (-1, None) else (0, m)
  }

  /** `chat_add_message`: one message joins the history; nothing else changes. */
  function AddMessage(c: Context, role: string, content: string): (r: Context)
    ensures |r.history| == |c.history| + 1
    ensures r.history[..|c.history|] == c.history
    ensures r.history[|c.history|] == Message(role, content)
    ensures r.(history := c.history) == c
    ensures Valid(c) ==> Valid(r)
  {
    c.(history := History.Append(c.history, role, content))
  }

  /** The result of `chat_poll_tokens`: the array (NULL when empty), the count, and the context afterwards. */
  datatype Polled = Polled(tokens: Option<seq<string>>, count: int, ctx: Context)

  /**
    `chat_poll_tokens`: every buffered token in FIFO order with their number,
    leaving the buffer empty; NULL and 0 when none is buffered. Nothing else changes.
   */
  function PollTokens(c: Context): (p: Polled)
    ensures p.count == |c.tokens|
    ensures p.tokens.None? <==> |c.tokens| == 0
    ensures p.tokens.Some? ==> p.tokens.value == c.tokens
    ensures p.ctx == c.(tokens := [])
    ensures Valid(c) ==> Valid(p.ctx)
  {
    var d := TokenQueue.Drain(c.tokens);
    Polled(d.tokens, d.count, c.(tokens := d.rest))
  }

  /** A second poll with no tokens buffered in between yields NULL and a count of 0, and changes nothing. */
  lemma PollTwice(c: Context)
    ensures var second := PollTokens(PollTokens(c).ctx);
      second.tokens.None? && second.count == 0 && second.ctx == PollTokens(c).ctx
  {
  }

  /** Clearing the history keeps the connection configuration and leaves no message to look up. */
  lemma ClearKeepsConfig(c: Context, index: int)
    ensures SameConfig(c, Clear(c))
    ensures MessageCount(Clear(c)) == 0 && GetMessage(Clear(c), index).0 == -1
  {
  }

  /** A busy context rejects a second request and keeps the first one's message and callbacks. */
  lemma SecondSendRejected(c: Context, first: string, second: string, cb1: Callbacks, cb2: Callbacks)
    requires IsDone(c)
    ensures var s1 := SendAsync(c, first, cb1);
      var s2 := SendAsync(s1.ctx, second, cb2);
      s1.status == 0 && s2.status == -1 && s2.ctx == s1.ctx && s2.ctx.pending == Some(first)
  {
  }
}
