/**
  The token buffer: tokens waiting for a polling caller, oldest first. The
  source keeps a linked list and a separate `token_count`; here the count is
  the queue's length.
 */
module TokenQueue {
  import opened Common

  /** `buffer_token`: the token joins the tail and the count grows by one. */
  function Push(queue: seq<string>, token: string): (r: seq<string>)
    ensures |r| == |queue| + 1
    ensures r[..|queue|] == queue && r[|queue|] == token
  {
    queue + [token]
  }

  /** Tokens pushed one after another, first token first. */
  function PushAll(queue: seq<string>, tokens: seq<string>): seq<string>
    decreases |tokens|
  {
    if |tokens| == 0 then queue else PushAll(Push(queue, tokens[0]), tokens[1..])
  }

  /** Pushing tokens in order leaves them at the tail in that order. */
  lemma {:induction false} PushAllAppends(queue: seq<string>, tokens: seq<string>)
    ensures PushAll(queue, tokens) == queue + tokens
    decreases |tokens|
  {
    if |tokens| > 0 {
      PushAllAppends(queue + [tokens[0]], tokens[1..]);
      assert queue + [tokens[0]] + tokens[1..] == queue + tokens;
    }
  }

  /** What a poll hands back: the array (NULL when empty), the count, and the queue left behind. */
  datatype Drained = Drained(tokens: Option<seq<string>>, count: int, rest: seq<string>)

  /**
    The drain in `chat_poll_tokens`: every queued token in FIFO order with the
    count, leaving the queue empty; no array and a count of 0 when nothing is queued.
   */
  function Drain(queue: seq<string>): (d: Drained)
    ensures d.rest == []
    ensures d.count == |queue|
    ensures d.tokens.None? <==> |queue| == 0
    ensures d.tokens.Some? ==> d.tokens.value == queue
  {
    if |queue| == 0 then Drained(None, 0, []) else Drained(Some(queue), |queue|, [])
  }

  /** A poll right after a poll finds nothing. */
  lemma DrainTwice(queue: seq<string>)
    ensures Drain(Drain(queue).rest) == Drained(None, 0, [])
  {
  }

  /** Draining after pushing tokens onto an empty queue returns exactly those tokens, in order. */
  lemma DrainPushed(tokens: seq<string>)
    ensures Drain(PushAll([], tokens)).tokens == (if |tokens| == 0 then None else Some(tokens))
    ensures Drain(PushAll([], tokens)).count == |tokens|
  {
    PushAllAppends([], tokens);
    assert [] + tokens == tokens;
  }
}
