/** One chat turn end to end (InteractionController::handleInteraction):
    validation of the JSON body, the transactional save of the user message,
    the context assembly and the relay of the streamed reply, after which
    the reply is saved as an assistant message. */
module Interaction {
  import opened Strings
  import Php
  import opened Turns
  import History
  import opened Persistence
  import Relay
  import Laravel

  const InvalidRequest := "Invalid request."
  const SaveFailed := "Failed to save your message."

  /** The fields of the JSON body the turn reads. For `chatId` and `prompt`
      `None` is an absent or null field, which `required` treats alike; the
      role keeps the difference, since the save does not. */
  datatype TurnRequest = TurnRequest(chatId: Option<string>, prompt: Option<string>, role: RoleField)

  predicate Valid(req: TurnRequest) {
    Laravel.Required(req.chatId) && Laravel.Required(req.prompt)
  }

  datatype TurnResponse =
    | Rejected(status: int, error: string)
    | Accepted(db: Db, output: seq<string>)

  /** Stores the reply as an assistant message of the chat; the chat's title
      is left alone. */
  function SaveReply(db: Db, chatId: string, content: string, now: int): (r: Db)
    ensures r.messages == db.messages + [StoredMessage(db.nextId, chatId, now, "assistant", content, None, None, [])]
    ensures r.titles == db.titles && r.nextId == db.nextId + 1
  {
    Db(db.messages + [StoredMessage(db.nextId, chatId, now, "assistant", content, None, None, [])], db.titles, db.nextId + 1)
  }

  /** After the user message is saved: the reply is relayed, and saved
      when it is not PHP-empty. */
  function Respond(db1: Db, userMsg: StoredMessage, up: Relay.Upstream, decode: string -> Option<string>): (r: TurnResponse)
    ensures r.Accepted?
    ensures r.db.titles == db1.titles
    ensures r.db.messages == db1.messages || r.db.messages == db1.messages + [
      StoredMessage(db1.nextId, userMsg.chatId, userMsg.createdAt, "assistant", Concat(r.output), None, None, [])]
    ensures r.db.messages != db1.messages <==> up.Streamed? && Concat(r.output) != ""
  {
    var res := Relay.StreamFramed(up, decode);
    var db2 := if res.saved.Some? then SaveReply(db1, userMsg.chatId, res.saved.value, userMsg.createdAt) else db1;
    assert res.saved.Some? ==> |db2.messages| == |db1.messages| + 1;
    Accepted(db2, res.output)
  }

  /** The whole turn as written: the save always rolls back, so a valid
      request is answered with a 500 and nothing is stored or relayed. */
  function HandleInteractionAsWritten(db: Db, req: TurnRequest, now: int, time: nat, diskUrl: string): (r: TurnResponse)
    ensures !Valid(req) <==> r == Rejected(422, InvalidRequest)
    ensures Valid(req) <==> r == Rejected(500, SaveFailed)
  {
    if !Valid(req) then Rejected(422, InvalidRequest)
    else match SaveUserMessageAsWritten(db, req.chatId.value, req.prompt.value, req.role, [], now, time, diskUrl)
      case Failed(_) => Rejected(500, SaveFailed)
      case Saved(_, _) => assert false; Rejected(500, SaveFailed)
  }

  /** The whole turn, with the intended save and the framed relay. The body
      is re-wrapped as a request without files before saving, so the user
      message is saved with no attachments. `now` and `time` are the clock,
      `diskUrl` the public disk's URL, `up` the upstream response and
      `decode` the JSON decoding of one stream payload. */
  function HandleInteraction(db: Db, req: TurnRequest, now: int, time: nat, diskUrl: string,
                             up: Relay.Upstream, decode: string -> Option<string>): (r: TurnResponse)
    ensures !Valid(req) <==> r == Rejected(422, InvalidRequest)
    ensures Valid(req) && (req.chatId.value !in db.titles || req.role == RoleNull) <==> r == Rejected(500, SaveFailed)
    ensures r.Accepted? <==> Valid(req) && req.chatId.value in db.titles && req.role != RoleNull
  {
    if !Valid(req) then Rejected(422, InvalidRequest)
    else match SaveUserMessage(db, req.chatId.value, req.prompt.value, req.role, [], now, time, diskUrl)
      case Failed(_) => Rejected(500, SaveFailed)
      case Saved(db1, userMsg) => Respond(db1, userMsg, up, decode)
  }

  /** An accepted turn is the reply relay after the user message is saved,
      with no attachments and the chat retitled. */
  lemma TurnIsRespond(db: Db, req: TurnRequest, now: int, time: nat, diskUrl: string,
                      up: Relay.Upstream, decode: string -> Option<string>)
    requires Valid(req) && req.chatId.value in db.titles && req.role != RoleNull
    ensures var saved := SaveUserMessage(db, req.chatId.value, req.prompt.value, req.role, [], now, time, diskUrl);
      && saved.Saved?
      && saved.db.messages == db.messages + [StoredMessage(db.nextId, req.chatId.value, now,
           RoleInput(req.role).value, req.prompt.value, None, None, [])]
      && saved.db.titles == db.titles[req.chatId.value := Title(req.prompt.value)]
      && saved.db.nextId == db.nextId + 1
      && HandleInteraction(db, req, now, time, diskUrl, up, decode) == Respond(saved.db, saved.message, up, decode)
  {
  }

  /** The reply step appends at most one row, the assistant's, exactly
      when the upstream streamed a non-empty reply. */
  lemma RespondAppends(db1: Db, userMsg: StoredMessage, up: Relay.Upstream, decode: string -> Option<string>)
    ensures var r := Respond(db1, userMsg, up, decode);
      var n := |db1.messages|;
      && n <= |r.db.messages| <= n + 1
      && r.db.messages[..n] == db1.messages
      && (|r.db.messages| == n + 1 <==> up.Streamed? && Concat(r.output) != "")
      && (|r.db.messages| == n + 1 ==>
            r.db.messages[n] == StoredMessage(db1.nextId, userMsg.chatId, userMsg.createdAt, "assistant",
              Concat(r.output), None, None, []))
  {
    var r := Respond(db1, userMsg, up, decode);
    assert r.db.messages[..|db1.messages|] == db1.messages;
  }

  /** An accepted turn saves the user message first and retitles the chat,
      then saves one assistant message holding the relayed text exactly
      when the upstream streamed a non-empty reply. */
  lemma AcceptedTurn(db: Db, req: TurnRequest, now: int, time: nat, diskUrl: string,
                     up: Relay.Upstream, decode: string -> Option<string>)
    requires Valid(req) && req.chatId.value in db.titles && req.role != RoleNull
    ensures var r := HandleInteraction(db, req, now, time, diskUrl, up, decode);
      var n := |db.messages|;
      var chatId, prompt := req.chatId.value, req.prompt.value;
      && r.Accepted?
      && n < |r.db.messages|
      && r.db.messages[..n + 1] == db.messages + [StoredMessage(db.nextId, chatId, now,
           RoleInput(req.role).value, prompt, None, None, [])]
      && r.db.titles == db.titles[chatId := Title(prompt)]
      && (|r.db.messages| == n + 1 || |r.db.messages| == n + 2)
      && (|r.db.messages| == n + 2 <==> up.Streamed? && Concat(r.output) != "")
      && (|r.db.messages| == n + 2 ==>
            r.db.messages[n + 1] == StoredMessage(db.nextId + 1, chatId, now, "assistant",
              Concat(r.output), None, None, []))
  {
    TurnIsRespond(db, req, now, time, diskUrl, up, decode);
    var saved := SaveUserMessage(db, req.chatId.value, req.prompt.value, req.role, [], now, time, diskUrl);
    RespondAppends(saved.db, saved.message, up, decode);
  }

  /** The message list the turn sends upstream, which does not depend on
      the reply: nothing for a rejected request, otherwise the context of
      the freshly saved message. It opens with the system instruction and
      ends with the new prompt itself, since the saved message has no
      attachments. */
  function UpstreamPrompt(db: Db, req: TurnRequest, now: int, time: nat, diskUrl: string): (r: Option<seq<PromptMessage>>)
    ensures r.Some? <==> Valid(req) && req.chatId.value in db.titles && req.role != RoleNull
    ensures r.Some? ==> 2 <= |r.value| <= History.WindowSize + 2
    ensures r.Some? ==> (r.value[0] == SystemMsg(History.SystemPrompt)
      && r.value[|r.value| - 1] == UserMsg(req.prompt.value))
  {
    if !Valid(req) then None
    else match SaveUserMessage(db, req.chatId.value, req.prompt.value, req.role, [], now, time, diskUrl)
      case Failed(_) => None
      case Saved(db1, userMsg) =>
        History.BuildPromptShape(db1.messages, userMsg);
        Some(History.BuildPrompt(db1.messages, userMsg))
  }
}
