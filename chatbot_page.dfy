/** The assistant chat page: sending a prompt and accumulating the streamed reply into
    the last message, one chunk at a time. */
module ChatbotPage {
  import Strings

  datatype Role = UserRole | AiRole

  datatype ChatMessage = ChatMessage(role: Role, content: string)

  /** What the request to the assistant yields: no readable body (the request failed or
      the response had no body), or the decoded chunks read before the stream ended. */
  datatype Reply = NoReply | Streamed(chunks: seq<string>)

  const Greeting := "Hello! I am UniConnect AI. I can write code, lists, and tables for you."

  /** The chunks, concatenated in order. */
  function Concat(chunks: seq<string>): (s: string)
    ensures chunks == [] ==> s == ""
    ensures |chunks| == 1 ==> s == chunks[0]
  {
    if chunks == [] then "" else Concat(chunks[..|chunks| - 1]) + chunks[|chunks| - 1]
  }

  /** A message whose content is extended by `more`. */
  function Extended(m: ChatMessage, more: string): (e: ChatMessage)
    ensures e.role == m.role && e.content == m.content + more
  {
    m.(content := m.content + more)
  }

  lemma ExtendedTwice(m: ChatMessage, a: string, b: string)
    ensures Extended(Extended(m, a), b) == Extended(m, a + b)
  {
    assert (m.content + a) + b == m.content + (a + b);
  }

  /** One more chunk extends the concatenation by that chunk. */
  lemma ConcatSnoc(chunks: seq<string>, i: int)
    requires 0 <= i < |chunks|
    ensures Concat(chunks[..i + 1]) == Concat(chunks[..i]) + chunks[i]
  {
    assert chunks[..i + 1][..i] == chunks[..i];
  }

  class ChatbotState {
    var input: string
    var messages: seq<ChatMessage>
    var isStreaming: bool

    /** The list is never empty: it starts with the greeting and only grows. */
    ghost predicate Valid()
      reads this
    {
      |messages| > 0
    }

    constructor ()
      ensures input == "" && messages == [ChatMessage(AiRole, Greeting)] && !isStreaming
      ensures Valid()
    {
      input := "";
      messages := [ChatMessage(AiRole, Greeting)];
      isStreaming := false;
    }

    method SetInput(text: string)
      modifies this
      ensures input == text && messages == old(messages) && isStreaming == old(isStreaming)
    {
      input := text;
    }

    /** The per-chunk state update: only the last message changes, its content
        extended by the chunk. */
    method AppendChunk(chunk: string)
      requires Valid()
      modifies this
      ensures Valid()
      ensures messages == old(messages)[..|old(messages)| - 1] +
        [Extended(old(messages)[|old(messages)| - 1], chunk)]
      ensures input == old(input) && isStreaming == old(isStreaming)
    {
      var lastMsgIndex := |messages| - 1;
      var updatedLastMsg := Extended(messages[lastMsgIndex], chunk);
      assert messages[lastMsgIndex := updatedLastMsg] == messages[..lastMsgIndex] + [updatedLastMsg];
      messages := messages[lastMsgIndex := updatedLastMsg];
    }

    /** The read loop: every chunk, in order, is appended to the last message. */
    method StreamChunks(chunks: seq<string>)
      requires Valid()
      modifies this
      ensures Valid()
      ensures messages == old(messages)[..|old(messages)| - 1] +
        [Extended(old(messages)[|old(messages)| - 1], Concat(chunks))]
      ensures input == old(input) && isStreaming == old(isStreaming)
    {
      ghost var prefix := messages[..|messages| - 1];
      ghost var last := messages[|messages| - 1];
      assert messages == prefix + [last];
      assert chunks[..0] == [] && last.content + "" == last.content;
      assert Extended(last, Concat(chunks[..0])) == last;
      var i := 0;
      while i < |chunks|
        invariant 0 <= i <= |chunks|
        invariant messages == prefix + [Extended(last, Concat(chunks[..i]))]
        invariant input == old(input) && isStreaming == old(isStreaming)
      {
        ghost var current := Extended(last, Concat(chunks[..i]));
        assert (prefix + [current])[..|prefix|] == prefix;
        AppendChunk(chunks[i]);
        ExtendedTwice(last, Concat(chunks[..i]), chunks[i]);
        ConcatSnoc(chunks, i);
        i := i + 1;
      }
      assert chunks[..i] == chunks;
    }

    /** The synchronous half of `handleSend`: the prompt is appended, the input
        cleared and streaming begins. */
    method PushPrompt()
      requires Valid()
      modifies this
      ensures Valid()
      ensures messages == old(messages) + [ChatMessage(UserRole, old(input))]
      ensures input == "" && isStreaming
    {
      messages := messages + [ChatMessage(UserRole, input)];
      input := "";
      isStreaming := true;
    }

    /** The asynchronous half of `handleSend`: once a body is readable an empty assistant
        message is appended and filled chunk by chunk; streaming ends either way. */
    method ReceiveReply(reply: Reply)
      requires Valid()
      modifies this
      ensures Valid()
      ensures reply.NoReply? ==> messages == old(messages)
      ensures reply.Streamed? ==> messages == old(messages) + [ChatMessage(AiRole, Concat(reply.chunks))]
      ensures input == old(input) && !isStreaming
    {
      if reply.Streamed? {
        ghost var before := messages;
        var placeholder := ChatMessage(AiRole, "");
        messages := messages + [placeholder];
        assert messages[..|messages| - 1] == before;
        StreamChunks(reply.chunks);
        assert "" + Concat(reply.chunks) == Concat(reply.chunks);
        assert Extended(placeholder, Concat(reply.chunks)) == ChatMessage(AiRole, Concat(reply.chunks));
      }
      isStreaming := false;
    }

    /** `handleSend`: ignored for a blank input or while a reply streams; otherwise the
        prompt is appended and the input cleared, an empty assistant message is appended
        once a body is readable, each chunk is added to it, and streaming ends. */
    method HandleSend(reply: Reply) returns (sent: bool)
      requires Valid()
      modifies this
      ensures Valid()
      ensures sent <==> !Strings.IsBlank(old(input)) && !old(isStreaming)
      ensures !sent ==> input == old(input) && messages == old(messages) && isStreaming == old(isStreaming)
      ensures sent ==> input == "" && !isStreaming
      ensures sent && reply.NoReply? ==>
        messages == old(messages) + [ChatMessage(UserRole, old(input))]
      ensures sent && reply.Streamed? ==>
        messages == old(messages) + [ChatMessage(UserRole, old(input)), ChatMessage(AiRole, Concat(reply.chunks))]
    {
      if Strings.IsBlank(input) || isStreaming {
        return false;
      }
      sent := true;
      ghost var prompt := ChatMessage(UserRole, input);
      PushPrompt();
      ReceiveReply(reply);
      if reply.Streamed? {
        ghost var answer := ChatMessage(AiRole, Concat(reply.chunks));
        assert old(messages) + [prompt] + [answer] == old(messages) + [prompt, answer];
      }
    }
  }
}
