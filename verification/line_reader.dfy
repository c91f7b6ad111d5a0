/**
  The client's byte-at-a-time line reader over the response socket.

  The socket is modelled as the sequence of bytes it will still deliver; the end
  of that sequence is where the socket stops delivering bytes, by end of
  stream or a receive error. A receive timeout followed by more bytes is not
  represented.
 */
module LineReader {

  /** Size of the line buffer the stream parser hands to the reader. */
  const LineBufferSize: int := 8192

  /** The outcome of one read: -1 in the source, or a line and the bytes left unread. */
  datatype ReadResult = EndOfInput | Line(text: string, rest: string)

  /** Neither a carriage return nor a line feed occurs in `s`. */
  predicate NoLineBreaks(s: string) {
    '\r' !in s && '\n' !in s
  }

  /** Every byte of `s` is a carriage return (vacuously true of the empty string). */
  predicate AllCR(s: string) {
    forall i | 0 <= i < |s| :: s[i] == '\r'
  }

  /** `s` with every carriage return removed and all other bytes kept in order. */
  function DropCR(s: string): (r: string)
    ensures '\r' !in r
    ensures |r| <= |s|
    ensures '\n' in r <==> '\n' in s
  {
    if |s| == 0 then []
    else if s[0] == '\r' then DropCR(s[1..])
    else [s[0]] + DropCR(s[1..])
  }

  /** Removing carriage returns distributes over concatenation. */
  lemma {:induction false} DropCRAppend(a: string, b: string)
    ensures DropCR(a + b) == DropCR(a) + DropCR(b)
    decreases |a|
  {
    if |a| > 0 {
      assert (a + b)[1..] == a[1..] + b;
      DropCRAppend(a[1..], b);
    } else {
      assert a + b == b;
    }
  }

  /**
    One read with `acc` already stored in the buffer. The loop stops when the
    buffer holds `maxLen - 1` bytes (without consuming the next byte), at a
    line feed (consumed, not stored) or at end of input; carriage returns are
    consumed and never stored. End of input with nothing stored is -1.
   */
  function ReadLineFrom(input: string, acc: string, maxLen: int): (r: ReadResult)
    requires 1 <= maxLen
    requires |acc| <= maxLen - 1 && NoLineBreaks(acc)
    ensures r.EndOfInput? <==> acc == [] && 2 <= maxLen && AllCR(input)
    ensures r.Line? ==> |r.rest| <= |input| && r.rest == input[|input| - |r.rest|..]
    ensures r.Line? ==> NoLineBreaks(r.text) && |acc| <= |r.text| <= maxLen - 1
    decreases |input|
  {
    if |acc| >= maxLen - 1 then Line(acc, input)
    else if |input| == 0 then (if |acc| > 0 then Line(acc, input) else EndOfInput)
    else if input[0] == '\n' then Line(acc, input[1..])
    else if input[0] == '\r' then ReadLineFrom(input[1..], acc, maxLen)
    else ReadLineFrom(input[1..], acc + [input[0]], maxLen)
  }

  /**
    What a read stored, given the bytes it consumed and those it left: either
    the consumed bytes end at the first line feed and the text is `acc`
    followed by the bytes before it without carriage returns, or no line feed
    was consumed and the read stopped at end of input or with a full buffer.
   */
  ghost predicate ReadBy(consumed: string, rest: string, acc: string, maxLen: int, text: string) {
    || (0 < |consumed| && consumed[|consumed|-1] == '\n' && '\n' !in consumed[..|consumed|-1]
        && text == acc + DropCR(consumed[..|consumed|-1]))
    || ('\n' !in consumed && text == acc + DropCR(consumed) && (rest == [] || |text| == maxLen - 1))
  }

  /** Consuming one more byte in front of a read, as the reader's loop does. */
  lemma ReadByCons(c: char, consumed: string, rest: string, acc: string, maxLen: int, text: string)
    requires c != '\n'
    requires ReadBy(consumed, rest, if c == '\r' then acc else acc + [c], maxLen, text)
    ensures ReadBy([c] + consumed, rest, acc, maxLen, text)
  {
    var all := [c] + consumed;
    var acc' := if c == '\r' then acc else acc + [c];
    if 0 < |consumed| && consumed[|consumed|-1] == '\n' && '\n' !in consumed[..|consumed|-1]
       && text == acc' + DropCR(consumed[..|consumed|-1]) {
      var q := consumed[..|consumed|-1];
      assert all[..|all|-1] == [c] + q;
      assert ([c] + q)[1..] == q;
      assert DropCR([c] + q) == (if c == '\r' then [] else [c]) + DropCR(q);
    } else {
      assert all[1..] == consumed;
      assert DropCR(all) == (if c == '\r' then [] else [c]) + DropCR(consumed);
    }
  }

  /** A read that stops at once: full buffer, end of input, or a line feed next. */
  lemma ReadStopsText(input: string, acc: string, maxLen: int)
    requires 1 <= maxLen
    requires |acc| <= maxLen - 1 && NoLineBreaks(acc)
    requires |acc| >= maxLen - 1 || |input| == 0 || input[0] == '\n'
    ensures var r := ReadLineFrom(input, acc, maxLen);
      r.Line? ==> ReadBy(input[..|input| - |r.rest|], r.rest, acc, maxLen, r.text)
  {
    var r := ReadLineFrom(input, acc, maxLen);
    assert DropCR([]) == [];
    if |acc| >= maxLen - 1 || |input| == 0 {
      assert input[..|input| - |input|] == [];
    } else {
      assert r == Line(acc, input[1..]);
      assert input[..|input| - |r.rest|] == ['\n'];
      assert ['\n'][..0] == [];
    }
  }

  /** The stored text of a read is what `ReadBy` describes. */
  lemma {:induction false} ReadLineFromText(input: string, acc: string, maxLen: int)
    requires 1 <= maxLen
    requires |acc| <= maxLen - 1 && NoLineBreaks(acc)
    ensures var r := ReadLineFrom(input, acc, maxLen);
      r.Line? ==> ReadBy(input[..|input| - |r.rest|], r.rest, acc, maxLen, r.text)
    decreases |input|
  {
    if |acc| >= maxLen - 1 || |input| == 0 || input[0] == '\n' {
      ReadStopsText(input, acc, maxLen);
    } else {
      var r := ReadLineFrom(input, acc, maxLen);
      var acc' := if input[0] == '\r' then acc else acc + [input[0]];
      assert r == ReadLineFrom(input[1..], acc', maxLen);
      ReadLineFromText(input[1..], acc', maxLen);
      if r.Line? {
        var k := |input| - |r.rest|;
        assert input[..k] == [input[0]] + input[1..][..k-1];
        ReadByCons(input[0], input[1..][..k-1], r.rest, acc, maxLen, r.text);
      }
    }
  }

  /**
    `read_line(sock, buffer, maxLen)`: the stored line, without line breaks and
    within the buffer, and the unread bytes; with room for at least one byte,
    every line read consumes input.
   */
  function ReadLine(input: string, maxLen: int): (r: ReadResult)
    requires 1 <= maxLen
    ensures r.Line? ==> NoLineBreaks(r.text) && |r.text| <= maxLen - 1 && |r.rest| <= |input|
    ensures 2 <= maxLen && r.Line? ==> |r.rest| < |input|
  {
    ReadLineFrom(input, [], maxLen)
  }

  /**
    The reader returns -1 exactly when, with room for at least one byte, the
    input runs out having delivered nothing but carriage returns.
   */
  lemma ReadLineEndOfInput(input: string, maxLen: int)
    requires 1 <= maxLen
    ensures ReadLine(input, maxLen).EndOfInput? <==> 2 <= maxLen && AllCR(input)
  {
  }

  /** The bytes a read leaves unread are a suffix of its input. */
  lemma ReadLineSuffix(input: string, maxLen: int)
    requires 1 <= maxLen
    ensures var r := ReadLine(input, maxLen); r.Line? ==> r.rest == input[|input| - |r.rest|..]
  {
  }

  /** A suffix of a suffix is a suffix. */
  lemma SuffixTrans(a: string, b: string, c: string)
    requires |b| <= |a| && b == a[|a| - |b|..]
    requires |c| <= |b| && c == b[|b| - |c|..]
    ensures c == a[|a| - |c|..]
  {
  }

  /**
    What a read stores: the bytes it consumed up to and excluding the first
    line feed, without carriage returns; a read that consumed no line feed
    stopped at end of input or with a full buffer.
   */
  lemma ReadLineStores(input: string, maxLen: int)
    requires 1 <= maxLen
    ensures var r := ReadLine(input, maxLen);
      r.Line? ==> ReadBy(input[..|input| - |r.rest|], r.rest, [], maxLen, r.text)
  {
    ReadLineFromText(input, [], maxLen);
  }

  /** Removing carriage returns from a string without any changes nothing. */
  lemma {:induction false} DropCRNoCR(s: string)
    requires '\r' !in s
    ensures DropCR(s) == s
    decreases |s|
  {
    if |s| > 0 {
      assert s == [s[0]] + s[1..];
      DropCRNoCR(s[1..]);
    }
  }

  /**
    A line followed by a line feed reads back as that line without its carriage
    returns, and the read resumes right after the line feed, provided the line
    fits the buffer.
   */
  lemma {:induction false} ReadTerminatedLineFrom(line: string, rest: string, acc: string, maxLen: int)
    requires 1 <= maxLen && NoLineBreaks(acc) && '\n' !in line
    requires |acc| + |DropCR(line)| < maxLen - 1
    ensures ReadLineFrom(line + "\n" + rest, acc, maxLen) == Line(acc + DropCR(line), rest)
    decreases |line|
  {
    var input := line + "\n" + rest;
    if |line| == 0 {
      assert input == "\n" + rest;
      assert input[1..] == rest;
    } else {
      assert input[0] == line[0];
      assert input[1..] == line[1..] + "\n" + rest;
      var acc' := if line[0] == '\r' then acc else acc + [line[0]];
      assert acc + DropCR(line) == acc' + DropCR(line[1..]);
      assert ReadLineFrom(input, acc, maxLen) == ReadLineFrom(input[1..], acc', maxLen);
      ReadTerminatedLineFrom(line[1..], rest, acc', maxLen);
    }
  }

  /**
    A run of ordinary bytes that exactly fills the buffer is returned as one
    line and the read stops before the next byte: longer lines are split.
   */
  lemma {:induction false} ReadFullBufferFrom(chunk: string, rest: string, acc: string, maxLen: int)
    requires 1 <= maxLen && NoLineBreaks(acc) && NoLineBreaks(chunk)
    requires |acc| + |chunk| == maxLen - 1
    ensures ReadLineFrom(chunk + rest, acc, maxLen) == Line(acc + chunk, rest)
    decreases |chunk|
  {
    if |chunk| == 0 {
      assert chunk + rest == rest;
    } else {
      assert (chunk + rest)[0] == chunk[0];
      assert (chunk + rest)[1..] == chunk[1..] + rest;
      assert acc + chunk == (acc + [chunk[0]]) + chunk[1..];
      ReadFullBufferFrom(chunk[1..], rest, acc + [chunk[0]], maxLen);
    }
  }

  /** Every line the reader returns, in order, until it reports -1. */
  function Lines(input: string): (ls: seq<string>)
    ensures forall i | 0 <= i < |ls| :: NoLineBreaks(ls[i]) && |ls[i]| < LineBufferSize
    decreases |input|
  {
    match ReadLine(input, LineBufferSize)
    case EndOfInput => []
    case Line(text, rest) => [text] + Lines(rest)
  }

  /** Each line followed by a line feed: newline-delimited framing. */
  function Frame(ls: seq<string>): string {
    if |ls| == 0 then [] else ls[0] + "\n" + Frame(ls[1..])
  }

  /**
    Reading newline-delimited lines back gives exactly the framed lines, when
    none holds a line break and each is shorter than the buffer's payload.
   */
  lemma {:induction false} LinesOfFrame(ls: seq<string>)
    requires forall i | 0 <= i < |ls| :: NoLineBreaks(ls[i]) && |ls[i]| < LineBufferSize - 1
    ensures Lines(Frame(ls)) == ls
    decreases |ls|
  {
    if |ls| > 0 {
      DropCRNoCR(ls[0]);
      assert Frame(ls) == ls[0] + "\n" + Frame(ls[1..]);
      ReadTerminatedLineFrom(ls[0], Frame(ls[1..]), [], LineBufferSize);
      assert [] + ls[0] == ls[0];
      assert ReadLine(Frame(ls), LineBufferSize) == Line(ls[0], Frame(ls[1..]));
      assert Lines(Frame(ls)) == [ls[0]] + Lines(Frame(ls[1..]));
      LinesOfFrame(ls[1..]);
      assert ls == [ls[0]] + ls[1..];
    }
  }
}
