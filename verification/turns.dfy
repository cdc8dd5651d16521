/** Chat turns as the interaction controller sees them: stored message rows,
    the entries of the list sent to the completion API, and the decoration
    of a user prompt with the names of its uploaded files. */
module Turns {
  import opened Strings
  import Php

  /** A row of the messages table with its attachment URLs loaded.
      `toolCallId` and `name` are read by the controller for tool messages;
      the table has no such columns, so they are null in practice. */
  datatype StoredMessage = StoredMessage(
    id: int,
    chatId: string,
    createdAt: int,
    role: string,
    content: string,
    toolCallId: Option<string>,
    name: Option<string>,
    attachments: seq<string>)

  /** One entry of the message list sent to the completion API. */
  datatype PromptMessage =
    | SystemMsg(content: string)
    | UserMsg(content: string)
    | AssistantMsg(content: string)
    | ToolMsg(toolCallId: Option<string>, name: Option<string>, content: string)

  const UploadPreamble := "User has uploaded the following files: ["
  const MessageLead := "].\nUser's message: "
  const FileSeparator := ", "

  /** The base names of the attachment URLs, in order. */
  function FileNames(urls: seq<string>): (r: seq<string>)
    ensures |r| == |urls|
    ensures forall i :: 0 <= i < |urls| ==> r[i] == Php.BaseName(urls[i])
  {
    if urls == [] then [] else [Php.BaseName(urls[0])] + FileNames(urls[1..])
  }

  function Manifest(urls: seq<string>): string {
    Join(FileNames(urls), FileSeparator)
  }

  /** The prompt text for a user message: unchanged when it has no
      attachments, otherwise prefixed by a manifest of the attached files. */
  function FormatPrompt(content: string, urls: seq<string>): (r: string)
    ensures |urls| == 0 ==> r == content
    ensures |urls| > 0 ==> StartsWith(r, UploadPreamble) && EndsWith(r, MessageLead + content)
  {
    if |urls| > 0 then UploadPreamble + Manifest(urls) + MessageLead + content
    else content
  }

  /** The manifest part of a decorated prompt: what lies between the
      preamble and the lead-in of the user's own text. */
  function ManifestPart(r: string, content: string): string
    requires StartsWith(r, UploadPreamble) && EndsWith(r, MessageLead + content)
    requires |UploadPreamble| + |MessageLead + content| <= |r|
  {
    r[|UploadPreamble|..|r| - |MessageLead + content|]
  }

  function DropSpace(s: string): string {
    if |s| > 0 && s[0] == ' ' then s[1..] else s
  }

  /** Reads a manifest back: split at commas, and drop the space that the
      separator put before every name but the first. */
  function ParseManifest(s: string): seq<string> {
    var pieces := Split(s, ',');
    [pieces[0]] + seq(|pieces| - 1, i requires 0 <= i < |pieces| - 1 => DropSpace(pieces[i + 1]))
  }

  /** The names with the separator's space attached to all but the first. */
  function Padded(names: seq<string>): seq<string>
    requires |names| >= 1
  {
    [names[0]] + seq(|names| - 1, i requires 0 <= i < |names| - 1 => " " + names[i + 1])
  }

  lemma {:induction false} JoinPadded(names: seq<string>)
    requires |names| >= 1
    ensures Join(names, FileSeparator) == Join(Padded(names), ",")
  {
    if |names| > 1 {
      JoinPadded(names[1..]);
      var p := Padded(names);
      var q := Padded(names[1..]);
      assert p[1..] == [" " + names[1]] + q[1..];
      assert q == [names[1]] + q[1..];
      if |names| == 2 {
        assert Join(p[1..], ",") == " " + names[1];
      } else {
        JoinCons(" " + names[1], q[1..], ",");
        JoinCons(names[1], q[1..], ",");
      }
    }
  }

  /** A manifest of comma-free names reads back as exactly those names. */
  lemma {:induction false} ManifestRoundTrip(names: seq<string>)
    requires |names| >= 1
    requires forall i :: 0 <= i < |names| ==> ',' !in names[i]
    ensures ParseManifest(Join(names, FileSeparator)) == names
  {
    JoinPadded(names);
    var p := Padded(names);
    forall i | 0 <= i < |p| ensures ',' !in p[i] {
      if i > 0 {
        assert p[i] == " " + names[i];
      }
    }
    SplitJoin(p, ',');
    var s := Join(names, FileSeparator);
    assert Split(s, ',') == p;
    var parsed := ParseManifest(s);
    assert |parsed| == |names|;
    forall i | 0 <= i < |names| ensures parsed[i] == names[i] {
      if i > 0 {
        assert parsed[i] == DropSpace(p[i]);
        assert p[i] == " " + names[i];
        assert (" " + names[i])[1..] == names[i];
      }
    }
  }

  /** A decorated prompt lists the base names of its attachments in order,
      so long as no base name contains a comma. */
  lemma {:induction false} FormatPromptListsFiles(content: string, urls: seq<string>)
    requires |urls| > 0
    requires forall i :: 0 <= i < |urls| ==> ',' !in Php.BaseName(urls[i])
    ensures var r := FormatPrompt(content, urls);
      ParseManifest(ManifestPart(r, content)) == FileNames(urls)
  {
    var r := FormatPrompt(content, urls);
    var m := Manifest(urls);
    assert r == UploadPreamble + m + (MessageLead + content);
    assert ManifestPart(r, content) == m;
    ManifestRoundTrip(FileNames(urls));
  }
}
