/** The conversational context of a new user turn: the window of recent
    messages of the same chat, the collapse of runs of user messages, and
    the composed list sent to the completion API
    (InteractionController::handleInteraction). */
module History {
  import opened Strings
  import opened Sorting
  import opened Turns

  /** How many earlier messages the window holds at most. */
  const WindowSize := 20

  const SystemPrompt := "You are a helpful assistant. Maintain a conversational flow based on recent interactions."

  function Min(a: int, b: int): int {
    if a <= b then a else b
  }

  /** Messages of the same chat saved before the new one. */
  predicate Eligible(m: StoredMessage, chatId: string, newId: int) {
    m.chatId == chatId && m.id < newId
  }

  /** The database query's filter: the eligible messages, each as often as
      the store holds it and nothing else. */
  function Eligibles(store: seq<StoredMessage>, chatId: string, newId: int): (r: seq<StoredMessage>)
    ensures forall m :: multiset(r)[m] == if Eligible(m, chatId, newId) then multiset(store)[m] else 0
  {
    if store == [] then []
    else
      assert store == [store[0]] + store[1..];
      (if Eligible(store[0], chatId, newId) then [store[0]] else []) + Eligibles(store[1..], chatId, newId)
  }

  /** Ordering of the query: creation time, then id. */
  function RecencyKey(m: StoredMessage): Key {
    Key(m.createdAt, m.id)
  }

  /** The history window: the newest eligible messages, at most
      `WindowSize` of them, newest first, then reversed into chronological
      order. */
  function Window(store: seq<StoredMessage>, chatId: string, newId: int): (w: seq<StoredMessage>)
    ensures |w| <= WindowSize
    ensures forall i :: 0 <= i < |w| ==> Eligible(w[i], chatId, newId)
    ensures Ascending(w, RecencyKey)
  {
    var newestFirst := SortDesc(Eligibles(store, chatId, newId), RecencyKey);
    SortedEligible(store, chatId, newId);
    var taken := newestFirst[..Min(WindowSize, |newestFirst|)];
    ReverseDescending(taken, RecencyKey);
    Reverse(taken)
  }

  /** Sorting the query's rows keeps them eligible. */
  lemma SortedEligible(store: seq<StoredMessage>, chatId: string, newId: int)
    ensures var s := SortDesc(Eligibles(store, chatId, newId), RecencyKey);
      forall i :: 0 <= i < |s| ==> Eligible(s[i], chatId, newId)
  {
    var s := SortDesc(Eligibles(store, chatId, newId), RecencyKey);
    forall i | 0 <= i < |s| ensures Eligible(s[i], chatId, newId) {
      assert s[i] in multiset(s);
    }
  }

  /** The window holds as many messages as it can, all drawn from the
      eligible ones, and every eligible message left out is no newer than
      any message kept. */
  lemma {:induction false} WindowIsNewest(store: seq<StoredMessage>, chatId: string, newId: int)
    ensures var w := Window(store, chatId, newId);
      var e := Eligibles(store, chatId, newId);
      && |w| == Min(WindowSize, |e|)
      && multiset(w) <= multiset(e)
      && forall m, i :: m in multiset(e) - multiset(w) && 0 <= i < |w| ==> KeyLe(RecencyKey(m), RecencyKey(w[i]))
  {
    var e := Eligibles(store, chatId, newId);
    var s := SortDesc(e, RecencyKey);
    var k := Min(WindowSize, |s|);
    assert Window(store, chatId, newId) == Reverse(s[..k]);
    NewestPrefix(s, RecencyKey, k);
  }

  /** The entry a kept message of a known role becomes. */
  function Emit(m: StoredMessage): PromptMessage
    requires m.role == "user" || m.role == "assistant" || m.role == "tool"
  {
    if m.role == "user" then UserMsg(FormatPrompt(m.content, m.attachments))
    else if m.role == "assistant" then AssistantMsg(m.content)
    else ToolMsg(m.toolCallId, m.name, m.content)
  }

  /** The controller's loop over the window, with `lastRole` the role of the
      previous message: a user message right after a user message is
      skipped, assistant and tool messages pass through, and a message of
      any other role is dropped. */
  function CollapseFrom(msgs: seq<StoredMessage>, lastRole: Option<string>): (r: seq<PromptMessage>)
    ensures |r| <= |msgs|
    ensures forall i :: 0 <= i < |r| ==> !r[i].SystemMsg?
  {
    if msgs == [] then []
    else
      var m := msgs[0];
      if m.role == "user" then
        if lastRole == Some("user") then CollapseFrom(msgs[1..], lastRole)
        else [Emit(m)] + CollapseFrom(msgs[1..], Some(m.role))
      else if m.role == "assistant" || m.role == "tool" then
        [Emit(m)] + CollapseFrom(msgs[1..], Some(m.role))
      else CollapseFrom(msgs[1..], Some(m.role))
  }

  function Collapse(msgs: seq<StoredMessage>): seq<PromptMessage> {
    CollapseFrom(msgs, None)
  }

  /** Reference reading of the collapse rule, by position: a message is
      kept when it is an assistant or tool message, or a user message that
      does not directly follow another user message. */
  predicate KeptAt(msgs: seq<StoredMessage>, i: nat)
    requires i < |msgs|
  {
    var role := msgs[i].role;
    role == "assistant" || role == "tool" || (role == "user" && (i == 0 || msgs[i - 1].role != "user"))
  }

  /** The kept messages at positions `from` onwards, emitted in order. */
  function KeptFrom(msgs: seq<StoredMessage>, from: nat): seq<PromptMessage>
    requires from <= |msgs|
    decreases |msgs| - from
  {
    if from == |msgs| then []
    else (if KeptAt(msgs, from) then [Emit(msgs[from])] else []) + KeptFrom(msgs, from + 1)
  }

  lemma {:induction false} CollapseFromIsKept(msgs: seq<StoredMessage>, from: nat)
    requires from <= |msgs|
    ensures CollapseFrom(msgs[from..], if from == 0 then None else Some(msgs[from - 1].role))
         == KeptFrom(msgs, from)
    decreases |msgs| - from
  {
    if from < |msgs| {
      CollapseFromIsKept(msgs, from + 1);
      assert msgs[from..][1..] == msgs[from + 1..];
    }
  }

  /** The stateful loop agrees with the positional rule. */
  lemma CollapseIsFirstOfRun(msgs: seq<StoredMessage>)
    ensures Collapse(msgs) == KeptFrom(msgs, 0)
  {
    CollapseFromIsKept(msgs, 0);
    assert msgs[0..] == msgs;
  }

  predicate KnownRoles(msgs: seq<StoredMessage>) {
    forall i :: 0 <= i < |msgs| ==> msgs[i].role in {"user", "assistant", "tool"}
  }

  predicate NoAdjacentUsers(r: seq<PromptMessage>) {
    forall i :: 0 <= i < |r| - 1 ==> !(r[i].UserMsg? && r[i + 1].UserMsg?)
  }

  lemma {:induction false} CollapseFromNoAdjacentUsers(msgs: seq<StoredMessage>, lastRole: Option<string>)
    requires KnownRoles(msgs)
    ensures NoAdjacentUsers(CollapseFrom(msgs, lastRole))
    ensures lastRole == Some("user") && |CollapseFrom(msgs, lastRole)| > 0
      ==> !CollapseFrom(msgs, lastRole)[0].UserMsg?
  {
    if msgs != [] {
      var m := msgs[0];
      assert KnownRoles(msgs[1..]) by {
        forall i | 0 <= i < |msgs[1..]| ensures msgs[1..][i].role in {"user", "assistant", "tool"} {
          assert msgs[1..][i] == msgs[i + 1];
        }
      }
      assert m.role in {"user", "assistant", "tool"};
      CollapseFromNoAdjacentUsers(msgs[1..], lastRole);
      CollapseFromNoAdjacentUsers(msgs[1..], Some(m.role));
    }
  }

  /** When every role is user, assistant or tool, the collapsed history
      never has two user entries in a row. */
  lemma CollapseNoAdjacentUsers(msgs: seq<StoredMessage>)
    requires KnownRoles(msgs)
    ensures NoAdjacentUsers(Collapse(msgs))
  {
    CollapseFromNoAdjacentUsers(msgs, None);
  }

  /** The restriction to known roles is needed: a dropped message of another
      role between two user messages leaves them adjacent. */
  lemma UnknownRoleSeparatesUsers()
    ensures var u := StoredMessage(1, "c", 0, "user", "a", None, None, []);
      var s := StoredMessage(2, "c", 0, "system", "b", None, None, []);
      var v := StoredMessage(3, "c", 0, "user", "d", None, None, []);
      Collapse([u, s, v]) == [UserMsg("a"), UserMsg("d")]
  {
    var u := StoredMessage(1, "c", 0, "user", "a", None, None, []);
    var s := StoredMessage(2, "c", 0, "system", "b", None, None, []);
    var v := StoredMessage(3, "c", 0, "user", "d", None, None, []);
    assert [u, s, v][1..] == [s, v];
    assert [s, v][1..] == [v];
  }

  /** The message list sent upstream: the fixed system instruction, the
      history in order, then the new user message with its file manifest. */
  function ComposePrompt(history: seq<PromptMessage>, newMsg: StoredMessage): (r: seq<PromptMessage>)
    ensures |r| == |history| + 2
    ensures r[0] == SystemMsg(SystemPrompt)
    ensures r[1..|r| - 1] == history
    ensures r[|r| - 1] == UserMsg(FormatPrompt(newMsg.content, newMsg.attachments))
  {
    [SystemMsg(SystemPrompt)] + history + [UserMsg(FormatPrompt(newMsg.content, newMsg.attachments))]
  }

  /** The whole context assembly for a freshly saved message. */
  function BuildPrompt(store: seq<StoredMessage>, newMsg: StoredMessage): seq<PromptMessage> {
    ComposePrompt(Collapse(Window(store, newMsg.chatId, newMsg.id)), newMsg)
  }

  /** The assembled list has at most `WindowSize + 2` entries, exactly one
      system entry (the first), and ends with the new prompt. */
  lemma BuildPromptShape(store: seq<StoredMessage>, newMsg: StoredMessage)
    ensures var r := BuildPrompt(store, newMsg);
      && 2 <= |r| <= WindowSize + 2
      && r[0] == SystemMsg(SystemPrompt)
      && (forall i :: 0 < i < |r| ==> !r[i].SystemMsg?)
      && r[|r| - 1] == UserMsg(FormatPrompt(newMsg.content, newMsg.attachments))
  {
    var w := Window(store, newMsg.chatId, newMsg.id);
    ComposeShape(Collapse(w), newMsg);
  }

  /** Composing a history of at most `WindowSize` non-system entries. */
  lemma ComposeShape(h: seq<PromptMessage>, newMsg: StoredMessage)
    requires |h| <= WindowSize
    requires forall i :: 0 <= i < |h| ==> !h[i].SystemMsg?
    ensures var r := ComposePrompt(h, newMsg);
      && 2 <= |r| <= WindowSize + 2
      && (forall i :: 0 < i < |r| ==> !r[i].SystemMsg?)
  {
    var r := ComposePrompt(h, newMsg);
    forall i | 0 < i < |r| - 1 ensures r[i] == h[i - 1] {
      assert r[1..|r| - 1][i - 1] == r[i];
    }
  }

  /** Before the new prompt, the assembled list has no two user entries in
      a row when the window's roles are all known. */
  lemma BuildPromptNoAdjacentUsers(store: seq<StoredMessage>, newMsg: StoredMessage)
    requires KnownRoles(Window(store, newMsg.chatId, newMsg.id))
    ensures var r := BuildPrompt(store, newMsg);
      |r| >= 1 && NoAdjacentUsers(r[..|r| - 1])
  {
    var w := Window(store, newMsg.chatId, newMsg.id);
    var h := Collapse(w);
    var r := BuildPrompt(store, newMsg);
    CollapseNoAdjacentUsers(w);
    assert r[..|r| - 1] == [r[0]] + h by {
      assert r[1..|r| - 1] == h;
    }
  }
}
