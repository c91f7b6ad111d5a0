/**
  Worked examples of the stream parser on concrete responses: a chunk-size line
  is skipped, and a short two-event response yields its two tokens.
 */
module ParserExamples {
  import opened Common
  import opened LineReader
  import opened StreamParser

  /** An ordinary line: no line break, no NUL byte, and short enough to be read whole. */
  predicate PlainLine(s: string) {
    && |s| < LineBufferSize - 1
    && forall i | 0 <= i < |s| :: s[i] != '\r' && s[i] != '\n' && s[i] != '\0'
  }

  /** An ordinary line followed by a line feed reads back as itself, seen whole by C string functions. */
  lemma ReadPlainLine(line: string, rest: string)
    requires PlainLine(line)
    ensures ReadLine(line + "\n" + rest, LineBufferSize) == Line(line, rest)
    ensures CStr(line) == line
  {
    assert NoLineBreaks(line) && '\0' !in line;
    DropCRNoCR(line);
    ReadTerminatedLineFrom(line, rest, [], LineBufferSize);
    CStrNoNul(line);
  }

  /** A short all-hex chunk-size line between events is skipped without a token. */
  lemma ChunkSizeLineSkipped(size: string, rest: string, decode: Decoder)
    requires PlainLine(size) && 0 < |size| < ChunkSizeLimit && AllHex(size)
    ensures StreamBody(size + "\n" + rest, decode) == StreamBody(rest, decode)
  {
    ReadPlainLine(size, rest);
    assert Classify(size) == ChunkSize;
  }

  /** The chunk-size line "1a3", as chunked transfer encoding writes it, is one of those. */
  lemma HexSizeLineSkipped(rest: string, decode: Decoder)
    ensures StreamBody("1a3\n" + rest, decode) == StreamBody(rest, decode)
  {
    assert AllHex("1a3") by {
      assert IsHexDigit('1') && IsHexDigit('a') && IsHexDigit('3');
    }
    assert PlainLine("1a3");
    assert "1a3\n" + rest == "1a3" + "\n" + rest;
    ChunkSizeLineSkipped("1a3", rest, decode);
  }

  /** An event line in front of the rest of the body is decoded and handled first. */
  lemma EventLineFirst(e: string, rest: string, decode: Decoder)
    requires PlainLine(e) && 0 < |e| && e[0] == '{'
    ensures var p := ParseToken(decode(e));
      var o := StreamBody(e + "\n" + rest, decode);
      var emitted := if p.token.Some? then [p.token.value] else [];
      o.tokens == (if p.done then emitted else emitted + StreamBody(rest, decode).tokens)
      && o.stop == (if p.done then DoneReceived else StreamBody(rest, decode).stop)
  {
    ReadPlainLine(e, rest);
    assert Classify(e) == JsonObject;
  }

  /** An ordinary line ended by a carriage return and a line feed reads back without either. */
  lemma ReadCRLFLine(line: string, rest: string)
    requires PlainLine(line)
    ensures ReadLine(line + "\r\n" + rest, LineBufferSize) == Line(line, rest)
  {
    assert line + "\r\n" + rest == (line + "\r") + "\n" + rest;
    DropCRAppend(line, "\r");
    DropCRNoCR(line);
    assert DropCR("\r") == [];
    ReadTerminatedLineFrom(line + "\r", rest, [], LineBufferSize);
  }

  /** A status line and the blank line after it are skipped as the header block. */
  lemma HeaderBlockSkipped(status: string, body: string)
    requires PlainLine(status) && 0 < |status|
    ensures SkipHeaders(status + "\r\n\r\n" + body) == body
  {
    assert status + "\r\n\r\n" + body == status + "\r\n" + ("\r\n" + body);
    ReadCRLFLine(status, "\r\n" + body);
    assert CStr(status)[0] == status[0];
    assert "\r\n" + body == [] + "\r\n" + body;
    ReadCRLFLine([], body);
  }

  /**
    Two event lines, the first with content `first` and `done: false`, the
    second with content `last` and `done: true`, yield exactly those two tokens
    and stop on the second.
   */
  lemma TwoEventBody(e1: string, e2: string, first: string, last: string, decode: Decoder)
    requires PlainLine(e1) && 0 < |e1| && e1[0] == '{'
    requires PlainLine(e2) && 0 < |e2| && e2[0] == '{'
    requires 0 < |first| && '\0' !in first && 0 < |last| && '\0' !in last
    requires decode(e1) == Some(Event(Some(JBool(false)), Some(JObject(Some(JString(first))))))
    requires decode(e2) == Some(Event(Some(JBool(true)), Some(JObject(Some(JString(last))))))
    ensures var o := StreamBody(e1 + "\n" + e2 + "\n", decode);
      o.tokens == [first, last] && o.stop == DoneReceived
  {
    assert e1 + "\n" + e2 + "\n" == e1 + "\n" + (e2 + "\n");
    assert e2 + "\n" == e2 + "\n" + [];
    CStrNoNul(first);
    CStrNoNul(last);
    EventLineFirst(e2, [], decode);
    EventLineFirst(e1, e2 + "\n", decode);
  }

  /** A status line, the blank line ending the headers, then two such event lines. */
  lemma TwoEventResponse(status: string, e1: string, e2: string, first: string, last: string, decode: Decoder)
    requires PlainLine(status) && 0 < |status|
    requires PlainLine(e1) && 0 < |e1| && e1[0] == '{'
    requires PlainLine(e2) && 0 < |e2| && e2[0] == '{'
    requires 0 < |first| && '\0' !in first && 0 < |last| && '\0' !in last
    requires decode(e1) == Some(Event(Some(JBool(false)), Some(JObject(Some(JString(first))))))
    requires decode(e2) == Some(Event(Some(JBool(true)), Some(JObject(Some(JString(last))))))
    ensures var o := StreamResponse(status + "\r\n\r\n" + e1 + "\n" + e2 + "\n", decode);
      o.tokens == [first, last] && o.stop == DoneReceived
  {
    var body := e1 + "\n" + e2 + "\n";
    assert status + "\r\n\r\n" + e1 + "\n" + e2 + "\n" == status + "\r\n\r\n" + body;
    HeaderBlockSkipped(status, body);
    TwoEventBody(e1, e2, first, last, decode);
  }
}
