/**
  The response accumulator: the growable buffer holding the full response of
  the current (or last) request. `None` is the NULL buffer a request starts
  with; the capacity counts the bytes allocated, including the terminating NUL.
 */
module Response {
  import opened Common

  datatype Accumulator = Accumulator(buf: Option<string>, capacity: nat) {

    /** The buffer always has room for its text and the terminating NUL; no buffer, no capacity. */
    predicate Valid() {
      && (buf.None? ==> capacity == 0)
      && (buf.Some? ==> |buf.value| < capacity)
    }

    /** The accumulated text; `response_len` is its length. */
    function Text(): string {
      buf.ValueOr([])
    }
  }

  /** The state a new request resets the accumulator to. */
  const Empty: Accumulator := Accumulator(None, 0)

  /**
    The capacity after making room for `len + extra` bytes and a NUL: doubled,
    or grown to the needed size plus 1024 when doubling is not enough, and left
    alone when there is already room.
   */
  function Grow(capacity: nat, len: nat, extra: nat): (c: nat)
    ensures capacity <= c
    ensures len + extra < c
    ensures len + extra + 1 <= capacity ==> c == capacity
  {
    if len + extra + 1 > capacity then
      var doubled := capacity * 2;
      if doubled < len + extra + 1 then len + extra + 1024 else doubled
    else capacity
  }

  /**
    `append_to_response`: the text becomes the old text followed by `text`,
    its length grows by `|text|`, and it still fits the (possibly grown) buffer.
   */
  function Append(a: Accumulator, text: string): (r: Accumulator)
    requires a.Valid()
    ensures r.Valid()
    ensures r.buf == Some(a.Text() + text)
    ensures |r.Text()| == |a.Text()| + |text|
    ensures a.capacity <= r.capacity
  {
    Accumulator(Some(a.Text() + text), Grow(a.capacity, |a.Text()|, |text|))
  }
}
