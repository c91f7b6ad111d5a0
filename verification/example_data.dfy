/**
  A short, concrete streaming response: an HTTP status line, the blank line
  that ends the header block, and two newline-delimited chat events.
 */
module ExampleData {
  import opened Common
  import opened StreamParser
  import opened ParserExamples

  const Status: string := "HTTP/1.1 200 OK"
  const FirstEvent: string := "{\"message\":{\"content\":\"Hi\"},\"done\":false}"
  const LastEvent: string := "{\"message\":{\"content\":\"!\"},\"done\":true}"

  /** A status line, the blank line ending the headers, and two events, the second one `done`. */
  const Response: string := Status + "\r\n\r\n" + FirstEvent + "\n" + LastEvent + "\n"

  lemma StatusPlain()
    ensures PlainLine(Status) && 0 < |Status|
  {
  }

  lemma FirstEventPlain()
    ensures PlainLine(FirstEvent) && 0 < |FirstEvent| && FirstEvent[0] == '{'
  {
  }

  lemma LastEventPlain()
    ensures PlainLine(LastEvent) && 0 < |LastEvent| && LastEvent[0] == '{'
  {
  }

  /**
    With a decoder that reads the two event lines as JSON does, the example
    response yields the tokens "Hi" and "!", which make up "Hi!", and streaming
    stops on the second event.
   */
  lemma ExampleResponseTokens(decode: Decoder)
    requires decode(FirstEvent) == Some(Event(Some(JBool(false)), Some(JObject(Some(JString("Hi"))))))
    requires decode(LastEvent) == Some(Event(Some(JBool(true)), Some(JObject(Some(JString("!"))))))
    ensures var o := StreamResponse(Response, decode);
      o.tokens == ["Hi", "!"] && o.stop == DoneReceived && Concat(o.tokens) == "Hi!"
  {
    StatusPlain();
    FirstEventPlain();
    LastEventPlain();
    assert '\0' !in "Hi" && '\0' !in "!";
    TwoEventResponse(Status, FirstEvent, LastEvent, "Hi", "!", decode);
    assert Concat(["Hi", "!"]) == "Hi" + Concat(["!"]);
  }
}
