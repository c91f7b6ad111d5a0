/**
  The stream parser: skips the HTTP header block, then reads newline-delimited
  JSON events, skipping blank lines and chunked-transfer size lines, and turns
  each event's `message.content` into a token until an event says `done`.

  JSON decoding itself is a library capability outside this model: a `Decoder`
  maps a line to the decoded object, or to `None` when the line is not valid
  JSON, and the model only looks at the fields the client reads.
 */
module StreamParser {
  import opened Common
  import opened LineReader

  /** A decoded JSON value, as far as the client looks at it; an object is seen only through its `content` member. */
  datatype Json = JBool(b: bool) | JString(s: string) | JObject(content: Option<Json>) | JOther

  /** A decoded top-level event object: its `done` and `message` members, when present. */
  datatype Event = Event(done: Option<Json>, message: Option<Json>)

  /** The JSON decoder the client calls on each event line. */
  type Decoder = string -> Option<Event>

  /** What the client extracts from one event: a token, if any, and whether streaming is over. */
  datatype Parsed = Parsed(token: Option<string>, done: bool)

  /** Why streaming stopped: an event with `done: true`, or the stream ended (EOF, error or timeout). */
  datatype StopReason = DoneReceived | EndOfStream

  /** The tokens a response yields, the lines handed to the decoder, and why it stopped. */
  datatype Outcome = Outcome(tokens: seq<string>, decoded: seq<string>, stop: StopReason)

  /** How the parser treats a line of the response body. */
  datatype LineKind = Blank | ChunkSize | JsonObject | Other

  /** All-hex lines shorter than this are taken for chunk-size lines. */
  const ChunkSizeLimit: int := 8

  /** The line as C string functions see it: up to, not including, the first NUL byte. */
  function CStr(s: string): (r: string)
    ensures '\0' !in r && |r| <= |s| && r == s[..|r|]
    ensures |r| < |s| ==> s[|r|] == '\0'
  {
    if |s| == 0 || s[0] == '\0' then [] else [s[0]] + CStr(s[1..])
  }

  predicate IsHexDigit(c: char) {
    '0' <= c <= '9' || 'a' <= c <= 'f' || 'A' <= c <= 'F'
  }

  predicate AllHex(s: string) {
    forall i | 0 <= i < |s| :: IsHexDigit(s[i])
  }

  /**
    The body loop's filter. Empty lines and short all-hex lines are skipped, and
    a line is decoded exactly when it starts with `{`: the hex test never hides
    a line that starts with `{`, since `{` is not a hex digit.
   */
  function Classify(line: string): (k: LineKind)
    ensures k == Blank <==> |line| == 0
    ensures k == ChunkSize <==> 0 < |line| < ChunkSizeLimit && AllHex(line)
    ensures k == JsonObject <==> 0 < |line| && line[0] == '{'
  {
    if |line| == 0 then Blank
    else if AllHex(line) && |line| < ChunkSizeLimit then ChunkSize
    else if line[0] == '{' then JsonObject
    else Other
  }

  /**
    `parse_token_from_json`: `done` holds exactly when the top-level `done` is
    `true`, whatever else the event holds; a token is produced exactly when
    `message.content` is a string that is non-empty as a C string, and is that
    string up to its first NUL byte, as `strdup` copies it.
   */
  function ParseToken(decoded: Option<Event>): (p: Parsed)
    ensures p.done <==> decoded.Some? && decoded.value.done == Some(JBool(true))
    ensures p.token.Some? <==>
      && decoded.Some?
      && decoded.value.message.Some?
      && decoded.value.message.value.JObject?
      && decoded.value.message.value.content.Some?
      && decoded.value.message.value.content.value.JString?
      && |CStr(decoded.value.message.value.content.value.s)| > 0
    ensures p.token.Some? ==>
      p.token.value == CStr(decoded.value.message.value.content.value.s) && |p.token.value| > 0
  {
    match decoded
    case None => Parsed(None, false)
    case Some(event) =>
      var done := event.done == Some(JBool(true));
      match event.message
      case None => Parsed(None, done)
      case Some(JObject(Some(JString(s)))) => if |CStr(s)| > 0 then Parsed(Some(CStr(s)), done) else Parsed(None, done)
      case Some(_) => Parsed(None, done)
  }

  /**
    The header loop: reads lines while the reader returns a positive length,
    stopping after the first line that is empty as a C string, or at -1.
   */
  function SkipHeaders(input: string): (rest: string)
    ensures |rest| <= |input|
    decreases |input|
  {
    match ReadLine(input, LineBufferSize)
    case EndOfInput => []
    case Line(text, rest) => if |text| > 0 && |CStr(text)| > 0 then SkipHeaders(rest) else rest
  }

  /** The header loop only consumes: what it leaves is a suffix of the response. */
  lemma {:induction false} SkipHeadersSuffix(input: string)
    ensures var rest := SkipHeaders(input); rest == input[|input| - |rest|..]
    decreases |input|
  {
    var r := ReadLine(input, LineBufferSize);
    if r.Line? && |r.text| > 0 && |CStr(r.text)| > 0 {
      assert SkipHeaders(input) == SkipHeaders(r.rest);
      ReadLineSuffix(input, LineBufferSize);
      SkipHeadersSuffix(r.rest);
      SuffixTrans(input, r.rest, SkipHeaders(r.rest));
    } else if r.Line? {
      assert SkipHeaders(input) == r.rest;
      ReadLineSuffix(input, LineBufferSize);
    } else {
      assert SkipHeaders(input) == [];
    }
  }

  /**
    The body loop: every line read is classified; an event line is decoded,
    its token (if any) emitted, and the loop stops after it when it says
    `done`. The loop also stops when the reader returns -1.
   */
  function StreamBody(input: string, decode: Decoder): (o: Outcome)
    ensures forall i | 0 <= i < |o.tokens| :: |o.tokens[i]| > 0
    ensures forall i | 0 <= i < |o.decoded| :: 0 < |o.decoded[i]| && o.decoded[i][0] == '{'
    decreases |input|
  {
    match ReadLine(input, LineBufferSize)
    case EndOfInput => Outcome([], [], EndOfStream)
    case Line(text, rest) =>
      var line := CStr(text);
      if Classify(line) != JsonObject then StreamBody(rest, decode)
      else
        var p := ParseToken(decode(line));
        var emitted := if p.token.Some? then [p.token.value] else [];
        if p.done then Outcome(emitted, [line], DoneReceived)
        else
          var o := StreamBody(rest, decode);
          Outcome(emitted + o.tokens, [line] + o.decoded, o.stop)
  }

  /** `stream_response`: the whole response, header block first. */
  function StreamResponse(input: string, decode: Decoder): (o: Outcome)
    ensures forall i | 0 <= i < |o.tokens| :: |o.tokens[i]| > 0
  {
    StreamBody(SkipHeaders(input), decode)
  }

  // A line-level reading of the parser, used to state what it computes.

  /** The lines after the header block: everything after the first line that is empty as a C string. */
  function AfterHeader(lines: seq<string>): seq<string> {
    if |lines| == 0 then []
    else if |CStr(lines[0])| == 0 then lines[1..]
    else AfterHeader(lines[1..])
  }

  /** The token a single line contributes: none unless it is an event line with non-empty content. */
  function TokenOf(line: string, decode: Decoder): seq<string> {
    var l := CStr(line);
    if Classify(l) == JsonObject && ParseToken(decode(l)).token.Some? then [ParseToken(decode(l)).token.value] else []
  }

  /** The line is an event line whose `done` is true. */
  predicate IsDoneLine(line: string, decode: Decoder) {
    var l := CStr(line);
    Classify(l) == JsonObject && ParseToken(decode(l)).done
  }

  /** The tokens of all the given lines, in order, ignoring `done`. */
  function Emitted(lines: seq<string>, decode: Decoder): seq<string> {
    if |lines| == 0 then [] else TokenOf(lines[0], decode) + Emitted(lines[1..], decode)
  }

  /** Index of the first `done` event line, or the number of lines if there is none. */
  function FirstDone(lines: seq<string>, decode: Decoder): (k: nat)
    ensures k <= |lines|
    ensures forall i | 0 <= i < k :: !IsDoneLine(lines[i], decode)
    ensures k < |lines| ==> IsDoneLine(lines[k], decode)
  {
    if |lines| == 0 then 0
    else if IsDoneLine(lines[0], decode) then 0
    else 1 + FirstDone(lines[1..], decode)
  }

  /** The prefix of `lines` that the body loop looks at: through the first `done` line. */
  function UpToDone(lines: seq<string>, decode: Decoder): seq<string> {
    var k := FirstDone(lines, decode);
    lines[..if k < |lines| then k + 1 else k]
  }

  /** How `UpToDone` and its tokens extend when a line that is not a `done` line is put in front. */
  lemma UpToDoneCons(line: string, lines: seq<string>, decode: Decoder)
    requires !IsDoneLine(line, decode)
    ensures UpToDone([line] + lines, decode) == [line] + UpToDone(lines, decode)
    ensures Emitted(UpToDone([line] + lines, decode), decode) == TokenOf(line, decode) + Emitted(UpToDone(lines, decode), decode)
    ensures FirstDone([line] + lines, decode) < |[line] + lines| <==> FirstDone(lines, decode) < |lines|
  {
    var all := [line] + lines;
    assert all[1..] == lines;
    var k := FirstDone(lines, decode);
    var m := if k < |lines| then k + 1 else k;
    assert all[..m + 1] == [line] + lines[..m];
  }

  /** The header loop consumes exactly the header lines and the blank line ending them. */
  lemma {:induction false} SkipHeadersLines(input: string)
    ensures Lines(SkipHeaders(input)) == AfterHeader(Lines(input))
    decreases |input|
  {
    match ReadLine(input, LineBufferSize)
    case EndOfInput =>
      assert AllCR([]);
    case Line(text, rest) =>
      assert Lines(input) == [text] + Lines(rest);
      assert (|text| > 0 && |CStr(text)| > 0) <==> |CStr(text)| > 0;
      if |CStr(text)| > 0 {
        SkipHeadersLines(rest);
      }
  }

  /**
    The body loop emits the tokens of the lines up to and including the first
    `done` event line, and stops early exactly when there is such a line.
   */
  lemma {:induction false} StreamBodyLines(input: string, decode: Decoder)
    ensures var ls := Lines(input);
      var k := FirstDone(ls, decode);
      var o := StreamBody(input, decode);
      && o.tokens == Emitted(UpToDone(ls, decode), decode)
      && (o.stop == DoneReceived <==> k < |ls|)
    decreases |input|
  {
    var r := ReadLine(input, LineBufferSize);
    if r.Line? {
      var text, rest := r.text, r.rest;
      var ls := Lines(input);
      assert ls == [text] + Lines(rest);
      if IsDoneLine(text, decode) {
        assert ls[..1] == [text];
        assert Emitted([text], decode) == TokenOf(text, decode) + Emitted([], decode);
      } else {
        StreamBodyLines(rest, decode);
        UpToDoneCons(text, Lines(rest), decode);
      }
    }
  }

  /**
    `stream_response` yields the tokens of the body lines after the header
    block, up to and including the first `done` event, in order.
   */
  lemma StreamResponseLines(input: string, decode: Decoder)
    ensures var ls := AfterHeader(Lines(input));
      var k := FirstDone(ls, decode);
      var o := StreamResponse(input, decode);
      && o.tokens == Emitted(UpToDone(ls, decode), decode)
      && (o.stop == DoneReceived <==> k < |ls|)
  {
    SkipHeadersLines(input);
    StreamBodyLines(SkipHeaders(input), decode);
  }

  /** A line without NUL bytes is seen whole by C string functions. */
  lemma {:induction false} CStrNoNul(s: string)
    requires '\0' !in s
    ensures CStr(s) == s
    decreases |s|
  {
    if |s| > 0 {
      assert s == [s[0]] + s[1..];
      CStrNoNul(s[1..]);
    }
  }
}
