/** The chat page's submit handler (Chat.tsx): the user message appears at
    once, the reply streams into a transient buffer, and exactly one
    assistant message closes the turn, the reply or an apology. */
module ChatPage {
  import opened Strings

  const Apology := "Sorry, I couldn't get a response from the AI."

  datatype ChatMessage = ChatMessage(id: string, content: string, role: string)

  /** The page state: the message list, whether a reply is streaming, the
      text streamed so far, and the id reserved for the reply. */
  datatype ChatState = ChatState(messages: seq<ChatMessage>, isStreaming: bool, streamingContent: string,
                                 assistantId: Option<string>)

  /** How the request went: a non-success status, a success without a
      body, a body read chunk by chunk (`readFails` when a read throws after
      the listed chunks), or an exception before any response. Chunks are
      already decoded text. */
  datatype Fetch = NotOk | NoBody | Body(chunks: seq<string>, readFails: bool) | Throws

  predicate Succeeds(f: Fetch) {
    f.Body? && !f.readFails
  }

  /** The final text of a reply, as an independent reading of the handler:
      the concatenated chunks on success, the apology otherwise. */
  function ReplyText(f: Fetch): string {
    if Succeeds(f) then Concat(f.chunks) else Apology
  }

  lemma ConcatPrefix(xs: seq<string>, i: nat)
    requires i <= |xs|
    ensures StartsWith(Concat(xs), Concat(xs[..i]))
  {
    assert xs == xs[..i] + xs[i..];
    ConcatAppend(xs[..i], xs[i..]);
  }

  lemma ConcatStep(xs: seq<string>, i: nat)
    requires i < |xs|
    ensures Concat(xs[..i + 1]) == Concat(xs[..i]) + xs[i]
  {
    assert xs[..i + 1] == xs[..i] + [xs[i]];
    ConcatAppend(xs[..i], [xs[i]]);
    ConcatSingle(xs[i]);
  }

  /** One submit. `userId` and `replyId` are the two generated ids. The
      returned trace lists the states shown while the reply streams: the
      first right after the user message is added, then one per chunk
      read. */
  method HandleSubmit(p: ChatState, content: string, userId: string, replyId: string, fetch: Fetch)
    returns (q: ChatState, trace: seq<ChatState>)
    ensures |q.messages| == |p.messages| + 2 && q.messages[..|p.messages|] == p.messages
    ensures q.messages[|p.messages|] == ChatMessage(userId, content, "user")
    ensures q.messages[|p.messages| + 1] == ChatMessage(replyId, ReplyText(fetch), "assistant")
    ensures !q.isStreaming && q.streamingContent == "" && q.assistantId == None
    ensures |trace| == 1 + (if fetch.Body? then |fetch.chunks| else 0)
    ensures trace[0] == ChatState(p.messages + [ChatMessage(userId, content, "user")], true, "", Some(replyId))
    ensures forall i :: 0 <= i < |trace| ==> trace[i].isStreaming && trace[i].messages == trace[0].messages
    ensures fetch.Body? ==> forall i :: 0 <= i < |trace| ==>
      trace[i].streamingContent == Concat(fetch.chunks[..i]) && StartsWith(Concat(fetch.chunks), trace[i].streamingContent)
  {
    var withUser := p.messages + [ChatMessage(userId, content, "user")];
    var shown := ChatState(withUser, true, "", Some(replyId));
    trace := [shown];
    var reply := Apology;
    if fetch.Body? {
      var chunks := fetch.chunks;
      var acc := "";
      var i := 0;
      while i < |chunks|
        invariant 0 <= i <= |chunks|
        invariant acc == Concat(chunks[..i])
        invariant |trace| == i + 1 && trace[0] == ChatState(withUser, true, "", Some(replyId))
        invariant forall j :: 0 <= j < |trace| ==> trace[j].isStreaming && trace[j].messages == withUser
        invariant forall j :: 0 <= j < |trace| ==>
          trace[j].streamingContent == Concat(chunks[..j]) && StartsWith(Concat(chunks), trace[j].streamingContent)
      {
        ConcatStep(chunks, i);
        acc := acc + chunks[i];
        ConcatPrefix(chunks, i + 1);
        trace := trace + [shown.(streamingContent := acc)];
        i := i + 1;
      }
      assert chunks[..|chunks|] == chunks;
      if !fetch.readFails {
        reply := acc;
      }
    }
    q := ChatState(withUser + [ChatMessage(replyId, reply, "assistant")], false, "", None);
  }
}
