/** Small value types shared by every part of the chat client model. */
module Common {

  /** A value that may be absent; `None` stands for the C client's NULL pointer. */
  datatype Option<T> = None | Some(value: T) {

    /** The value, or `fallback` for NULL. */
    function ValueOr(fallback: T): T {
      if Some? then value else fallback
    }
  }

  /** The in-order concatenation of a sequence of string fragments. */
  function Concat(parts: seq<string>): string {
    if |parts| == 0 then [] else parts[0] + Concat(parts[1..])
  }

  /** Concatenating non-empty fragments gives the empty string only for no fragments. */
  lemma {:induction false} ConcatEmptyIff(parts: seq<string>)
    requires forall i | 0 <= i < |parts| :: |parts[i]| > 0
    ensures |Concat(parts)| == 0 <==> |parts| == 0
  {
    if |parts| > 0 {
      assert |Concat(parts)| >= |parts[0]|;
    }
  }
}
