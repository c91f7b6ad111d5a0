/** The conversation history: an ordered, append-only list of role/content pairs. */
module History {
  import opened Common

  datatype Message = Message(role: string, content: string)

  const UserRole: string := "user"
  const AssistantRole: string := "assistant"

  /** `add_message`: exactly one pair joins the end; earlier entries are unchanged. */
  function Append(history: seq<Message>, role: string, content: string): (r: seq<Message>)
    ensures |r| == |history| + 1
    ensures r[..|history|] == history
    ensures r[|history|] == Message(role, content)
  {
    history + [Message(role, content)]
  }

  /** The bounds-checked lookup of `chat_get_message`: a message exactly for indices 0 to count-1. */
  function Get(history: seq<Message>, index: int): (m: Option<Message>)
    ensures m.Some? <==> 0 <= index < |history|
    ensures m.Some? ==> m.value == history[index]
  {
    if index < 0 || index >= |history| then None else Some(history[index])
  }

  /** After an append, the new last index holds the new pair and every other index reads as before. */
  lemma GetAfterAppend(history: seq<Message>, role: string, content: string, index: int)
    ensures Get(Append(history, role, content), index) ==
      if index == |history| then Some(Message(role, content)) else Get(history, index)
  {
  }
}
