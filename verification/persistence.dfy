/** Saving a user turn (InteractionController::saveMessageWithAttachments):
    the message row, the chat title derived from it, and the best-effort
    storage of uploaded files under sanitised names. */
module Persistence {
  import opened Strings
  import Php
  import opened Turns

  /** How many space-separated pieces of the message make up the title. */
  const TitleWords := 3

  /** The chat title: the first three pieces of the content split on single
      spaces, joined back with single spaces. */
  function Title(content: string): string {
    var words := Split(content, ' ');
    Join(words[..if |words| < TitleWords then |words| else TitleWords], " ")
  }

  /** The title is a prefix of the content; it is the whole content exactly
      when the content has at most two spaces, and otherwise it keeps
      exactly two of them. */
  lemma TitleIsPrefix(content: string)
    ensures StartsWith(content, Title(content))
    ensures Title(content) == content <==> CountChar(content, ' ') <= 2
    ensures CountChar(content, ' ') > 2 ==> CountChar(Title(content), ' ') == 2
  {
    var words := Split(content, ' ');
    var k := if |words| < TitleWords then |words| else TitleWords;
    JoinSplit(content, ' ');
    JoinPrefix(words, k, " ");
    if CountChar(content, ' ') <= 2 {
      assert words[..k] == words;
    } else {
      CountJoin(words[..k], ' ');
    }
  }

  /** Splitting a string that begins with a word and a space. */
  lemma SplitWord(w: string, t: string)
    requires ' ' !in w
    ensures Split(w + " " + t, ' ') == [w] + Split(t, ' ')
  {
    SplitAtSeparator(w, t, ' ');
    assert w + [' '] + t == w + " " + t;
  }

  /** A content of at least three spaces is titled by its first three
      words. */
  lemma {:induction false} TitleOfWords(a: string, b: string, c: string, rest: string)
    requires ' ' !in a && ' ' !in b && ' ' !in c
    ensures Title(a + " " + b + " " + c + " " + rest) == a + " " + b + " " + c
  {
    var t := Split(rest, ' ');
    var tail3 := c + " " + rest;
    var tail2 := b + " " + tail3;
    var content := a + " " + tail2;
    assert content == a + " " + b + " " + c + " " + rest;
    SplitWord(c, rest);
    SplitWord(b, tail3);
    SplitWord(a, tail2);
    var words := Split(content, ' ');
    assert words == [a, b, c] + t;
    assert words[..3] == [a, b, c];
    assert Join([a, b, c], " ") == a + " " + b + " " + c by {
      assert [a, b, c] == [a] + [b, c] && [b, c] == [b] + [c];
      JoinCons(b, [c], " ");
      JoinCons(a, [b, c], " ");
    }
  }

  /** The characters a stored file name may keep: `[a-zA-Z0-9_.-]`. */
  predicate AllowedNameChar(c: char) {
    ('a' <= c <= 'z') || ('A' <= c <= 'Z') || ('0' <= c <= '9') || c == '_' || c == '.' || c == '-'
  }

  /** The `preg_replace` of the client file name: every byte outside the
      allowed set becomes '_' and every other byte is kept. */
  function Sanitize(name: string): (r: string)
    ensures |r| == |name|
    ensures forall i :: 0 <= i < |r| ==> AllowedNameChar(r[i])
    ensures forall i :: 0 <= i < |r| ==> r[i] == (if AllowedNameChar(name[i]) then name[i] else '_')
  {
    seq(|name|, i requires 0 <= i < |name| => if AllowedNameChar(name[i]) then name[i] else '_')
  }

  /** Sanitising twice changes nothing more, and a name is left alone
      exactly when all its characters are allowed. */
  lemma SanitizeIdempotent(name: string)
    ensures Sanitize(Sanitize(name)) == Sanitize(name)
    ensures Sanitize(name) == name <==> forall i :: 0 <= i < |name| ==> AllowedNameChar(name[i])
  {
    if Sanitize(name) == name {
      forall i | 0 <= i < |name| ensures AllowedNameChar(name[i]) {
        assert AllowedNameChar(Sanitize(name)[i]);
      }
    }
  }

  /** The sanitised name is PHP-empty, so the generated fallback is used. */
  predicate UsesFallback(originalName: string) {
    Php.EmptyString(Sanitize(originalName))
  }

  function FallbackName(time: nat, ext: string): string {
    "file_" + NatToString(time) + "." + ext
  }

  /** The name a file is stored under: its sanitised client name, or
      `file_<time>.<extension>` when that name is "" or "0". */
  function StoredFileName(originalName: string, time: nat, ext: string): (r: string)
    ensures !UsesFallback(originalName) ==> r == Sanitize(originalName)
    ensures UsesFallback(originalName) ==> r == FallbackName(time, ext)
  {
    var safe := Sanitize(originalName);
    if Php.EmptyString(safe) then FallbackName(time, ext) else safe
  }

  /** The fallback fires exactly for the client names "" and "0": sanitising
      keeps the length and keeps the digit '0'. */
  lemma FallbackIff(originalName: string)
    ensures UsesFallback(originalName) <==> originalName == "" || originalName == "0"
  {
    var safe := Sanitize(originalName);
    if |originalName| == 1 {
      assert originalName == [originalName[0]];
      assert safe == [safe[0]];
    }
  }

  /** A stored name is never PHP-empty, never contains '/' and, for an
      extension of allowed characters, consists of allowed characters only. */
  lemma StoredFileNameIsSafe(originalName: string, time: nat, ext: string)
    requires forall i :: 0 <= i < |ext| ==> AllowedNameChar(ext[i])
    ensures var r := StoredFileName(originalName, time, ext);
      && !Php.EmptyString(r)
      && (forall i :: 0 <= i < |r| ==> AllowedNameChar(r[i]))
      && '/' !in r
  {
    var r := StoredFileName(originalName, time, ext);
    if UsesFallback(originalName) {
      var digits := NatToString(time);
      assert r == "file_" + digits + "." + ext;
      assert r[0] == 'f';
      forall i | 0 <= i < |r| ensures AllowedNameChar(r[i]) {
        if 5 <= i < 5 + |digits| {
          assert r[i] == digits[i - 5];
        } else if i > 5 + |digits| {
          assert r[i] == ext[i - 6 - |digits|];
        }
      }
    }
    assert forall i :: 0 <= i < |r| ==> r[i] != '/';
  }

  /** What storing one file comes to: the write succeeds; the write fails
      and `storeAs` returns `false` without throwing (the disk's default);
      or something throws (reading the file to guess its extension, a disk
      set to throw, the attachment insert), which the loop catches. */
  datatype StoreResult = Written | WriteReturnedFalse | Threw

  /** One uploaded file: the client's name and MIME type, the extension
      guessed from its contents, and how storing it turns out. */
  datatype Upload = Upload(clientName: string, mime: string, guessedExt: string, result: StoreResult)

  /** Where an attachment of message `messageId` is stored. */
  function AttachmentPath(messageId: nat, storedName: string): string {
    "public/attachments/" + NatToString(messageId) + "/" + storedName
  }

  /** The public directory of message `messageId`'s attachments. */
  function AttachmentDir(diskUrl: string, messageId: nat): string {
    diskUrl + "/public/attachments/" + NatToString(messageId) + "/"
  }

  /** The public URL of a stored path on a disk served at `diskUrl`. */
  function AttachmentUrl(diskUrl: string, messageId: nat, storedName: string): string {
    diskUrl + "/" + AttachmentPath(messageId, storedName)
  }

  /** `Storage::url(false)`: the disk's root, since `false` reads as the
      empty path. */
  function RootUrl(diskUrl: string): string {
    diskUrl + "/"
  }

  /** An attachment URL lies in its message's directory. */
  lemma UrlInDir(diskUrl: string, messageId: nat, name: string)
    ensures StartsWith(AttachmentUrl(diskUrl, messageId, name), AttachmentDir(diskUrl, messageId))
  {
    var dir := AttachmentDir(diskUrl, messageId);
    assert AttachmentUrl(diskUrl, messageId, name) == dir + name;
    assert (dir + name)[..|dir|] == dir;
  }

  /** The URLs of the attachments recorded, in upload order. A written file
      is recorded with its URL in the message's directory; a write that
      returned `false` is still recorded, with the disk's root URL; a file
      whose storage threw is skipped and the others are still stored. */
  function StoreAttachments(files: seq<Upload>, messageId: nat, time: nat, diskUrl: string): (urls: seq<string>)
    ensures |urls| <= |files|
    ensures forall i :: 0 <= i < |urls| ==>
      StartsWith(urls[i], AttachmentDir(diskUrl, messageId)) || urls[i] == RootUrl(diskUrl)
  {
    if files == [] then []
    else
      var f := files[0];
      var rest := StoreAttachments(files[1..], messageId, time, diskUrl);
      match f.result
      case Written =>
        var url := AttachmentUrl(diskUrl, messageId, StoredFileName(f.clientName, time, f.guessedExt));
        UrlInDir(diskUrl, messageId, StoredFileName(f.clientName, time, f.guessedExt));
        [url] + rest
      case WriteReturnedFalse => [RootUrl(diskUrl)] + rest
      case Threw => rest
  }

  /** Reference reading of the manifest: per file that did not throw, in
      upload order, the name it was stored under, or for a failed write the
      base name of the disk's root. */
  function StoredNames(files: seq<Upload>, time: nat, diskUrl: string): seq<string> {
    if files == [] then []
    else
      var rest := StoredNames(files[1..], time, diskUrl);
      match files[0].result
      case Written => [StoredFileName(files[0].clientName, time, files[0].guessedExt)] + rest
      case WriteReturnedFalse => [Php.BaseName(RootUrl(diskUrl))] + rest
      case Threw => rest
  }

  /** Every guessed extension consists of allowed name characters. */
  predicate SafeExtensions(files: seq<Upload>) {
    forall k :: 0 <= k < |files| ==> forall i :: 0 <= i < |files[k].guessedExt| ==> AllowedNameChar(files[k].guessedExt[i])
  }

  /** Reading the attachment URLs back with `basename`, as the prompt
      decoration does, gives exactly the stored names in order. */
  lemma {:induction false} AttachmentNamesRoundTrip(files: seq<Upload>, messageId: nat, time: nat, diskUrl: string)
    requires SafeExtensions(files)
    ensures FileNames(StoreAttachments(files, messageId, time, diskUrl)) == StoredNames(files, time, diskUrl)
  {
    if files != [] {
      var f := files[0];
      assert SafeExtensions(files[1..]) by {
        forall k | 0 <= k < |files[1..]| ensures files[1..][k] == files[k + 1] { }
      }
      AttachmentNamesRoundTrip(files[1..], messageId, time, diskUrl);
      var rest := StoreAttachments(files[1..], messageId, time, diskUrl);
      if f.result.WriteReturnedFalse? {
        assert ([RootUrl(diskUrl)] + rest)[1..] == rest;
      } else if f.result.Written? {
        assert forall i :: 0 <= i < |f.guessedExt| ==> AllowedNameChar(f.guessedExt[i]);
        var name := StoredFileName(f.clientName, time, f.guessedExt);
        StoredFileNameIsSafe(f.clientName, time, f.guessedExt);
        var url := AttachmentUrl(diskUrl, messageId, name);
        UrlBaseName(diskUrl, messageId, name);
        assert ([url] + rest)[1..] == rest;
        assert FileNames([url] + rest) == [Php.BaseName(url)] + FileNames(rest);
      }
    }
  }

  lemma UrlBaseName(diskUrl: string, messageId: nat, name: string)
    requires name != [] && '/' !in name
    ensures Php.BaseName(AttachmentUrl(diskUrl, messageId, name)) == name
  {
    var dir := diskUrl + "/public/attachments/" + NatToString(messageId);
    assert AttachmentUrl(diskUrl, messageId, name) == dir + "/" + name;
    Php.BaseNameOfChild(dir, name);
  }

  /** The persistent state the turn touches: message rows, chat titles by
      chat id, and the next message id the table will assign. */
  datatype Db = Db(messages: seq<StoredMessage>, titles: map<string, string>, nextId: nat)

  /** The `role` field of the request body: absent, present with a null
      value, or a string. */
  datatype RoleField = RoleAbsent | RoleNull | RoleGiven(value: string)

  /** `input('role', 'user')`: the default replaces an absent key only, so
      an explicit null stays null. */
  function RoleInput(role: RoleField): Option<string> {
    match role
    case RoleAbsent => Some("user")
    case RoleNull => None
    case RoleGiven(v) => Some(v)
  }

  /** The relations the message model declares: only `chat`. */
  const MessageRelations: set<string> := {"chat"}

  /** The relations the save and the prompt decoration rely on: the message
      model with an `attachments` relation as well. */
  const IntendedRelations: set<string> := MessageRelations + {"attachments"}

  /** Why the save transaction rolled back: the insert met a null `role`
      (the column is NOT NULL), the chat does not exist, or reloading the
      message named a relation its model does not declare. */
  datatype SaveFailure = NullRole | ChatNotFound | RelationNotFound(name: string)

  datatype SaveOutcome = Saved(db: Db, message: StoredMessage) | Failed(reason: SaveFailure)

  /** The save transaction over a message model that declares `relations`:
      the row, the chat's title, the attachments, then the reload of the
      `attachments` relation. Any failure rolls the whole transaction back,
      so a failed save carries no database. */
  function SaveTransaction(relations: set<string>, db: Db, chatId: string, prompt: string, role: RoleField,
                           files: seq<Upload>, now: int, time: nat, diskUrl: string): (r: SaveOutcome)
    ensures r.Saved? <==> role != RoleNull && chatId in db.titles && "attachments" in relations
    ensures r.Failed? && role != RoleNull && chatId in db.titles ==> r.reason == RelationNotFound("attachments")
    ensures r.Saved? ==> (
      && r.db.messages == db.messages + [r.message]
      && r.message.id == db.nextId && r.db.nextId == db.nextId + 1
      && r.message.chatId == chatId && r.message.content == prompt
      && Some(r.message.role) == RoleInput(role)
      && r.message.createdAt == now
      && r.message.attachments == StoreAttachments(files, db.nextId, time, diskUrl)
      && r.db.titles == db.titles[chatId := Title(prompt)])
  {
    match RoleInput(role)
    case None => Failed(NullRole)
    case Some(roleValue) =>
      if chatId !in db.titles then Failed(ChatNotFound)
      else if "attachments" !in relations then Failed(RelationNotFound("attachments"))
      else
        var urls := StoreAttachments(files, db.nextId, time, diskUrl);
        var msg := StoredMessage(db.nextId, chatId, now, roleValue, prompt, None, None, urls);
        Saved(Db(db.messages + [msg], db.titles[chatId := Title(prompt)], db.nextId + 1), msg)
  }

  /** The save as written: the message model declares no `attachments`
      relation, so the reload fails and every save rolls back, whatever
      the request. */
  function SaveUserMessageAsWritten(db: Db, chatId: string, prompt: string, role: RoleField,
                                    files: seq<Upload>, now: int, time: nat, diskUrl: string): (r: SaveOutcome)
    ensures r.Failed?
    ensures role != RoleNull && chatId in db.titles ==> r == Failed(RelationNotFound("attachments"))
  {
    SaveTransaction(MessageRelations, db, chatId, prompt, role, files, now, time, diskUrl)
  }

  /** The save as intended, with the `attachments` relation declared: the
      row, the title and the attachments are stored unless the role is null
      or the chat does not exist. */
  function SaveUserMessage(db: Db, chatId: string, prompt: string, role: RoleField,
                           files: seq<Upload>, now: int, time: nat, diskUrl: string): (r: SaveOutcome)
    ensures r.Saved? <==> role != RoleNull && chatId in db.titles
    ensures r.Failed? ==> (r.reason == NullRole <==> role == RoleNull)
    ensures r.Saved? ==> (
      && r.db.messages == db.messages + [r.message]
      && r.message.id == db.nextId && r.db.nextId == db.nextId + 1
      && r.message.chatId == chatId && r.message.content == prompt
      && Some(r.message.role) == RoleInput(role)
      && r.message.createdAt == now
      && r.message.attachments == StoreAttachments(files, db.nextId, time, diskUrl)
      && r.db.titles == db.titles[chatId := Title(prompt)])
  {
    SaveTransaction(IntendedRelations, db, chatId, prompt, role, files, now, time, diskUrl)
  }

  /** The saved message's attachments read back, as the prompt decoration
      reads them, into the stored names of the uploaded files, in order. */
  lemma SavedAttachmentNames(db: Db, chatId: string, prompt: string, role: RoleField,
                             files: seq<Upload>, now: int, time: nat, diskUrl: string)
    requires SafeExtensions(files)
    requires SaveUserMessage(db, chatId, prompt, role, files, now, time, diskUrl).Saved?
    ensures FileNames(SaveUserMessage(db, chatId, prompt, role, files, now, time, diskUrl).message.attachments)
         == StoredNames(files, time, diskUrl)
  {
    AttachmentNamesRoundTrip(files, db.nextId, time, diskUrl);
  }
}
