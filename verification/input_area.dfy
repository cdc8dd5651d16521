/** The chat input box (Input-area.tsx): the bounded attachment list, the
    submit guard, the Enter key and the command-palette shortcut. */
module InputArea {
  import opened Strings
  import Js

  /** At most this many files can be attached to one message. */
  const MaxAttachments := 5

  /** A picked file, as far as the input box cares. */
  datatype FileRef = FileRef(name: string, size: nat)

  /** The text typed so far, the attached files in order, and whether the
      command palette is open. */
  datatype InputState = InputState(input: string, attachments: seq<FileRef>, paletteOpen: bool)

  /** What is handed to the page's submit handler: the typed text as is,
      and the attached files, or nothing when there are none. */
  datatype Submission = Submission(content: string, files: Option<seq<FileRef>>)

  /** Adding picked files: nothing happens when no file was picked or five
      are already attached; otherwise as many of the picked files as there
      are free slots are appended in the order picked. */
  function AddFiles(att: seq<FileRef>, picked: seq<FileRef>): (r: seq<FileRef>)
    ensures |att| <= |r| && r[..|att|] == att
    ensures picked == [] || |att| >= MaxAttachments ==> r == att
    ensures |att| < MaxAttachments ==>
      |r| == (if |att| + |picked| <= MaxAttachments then |att| + |picked| else MaxAttachments)
    ensures |r| - |att| <= |picked| && r[|att|..] == picked[..|r| - |att|]
  {
    if picked == [] then att
    else if |att| >= MaxAttachments then att
    else att + Js.Slice(picked, 0, MaxAttachments - |att|)
  }

  /** `splice(index, 1)`: exactly the element at `i` goes, the others keep
      their order. */
  function RemoveAt(att: seq<FileRef>, i: nat): (r: seq<FileRef>)
    requires i < |att|
    ensures |r| == |att| - 1
    ensures forall j :: 0 <= j < i ==> r[j] == att[j]
    ensures forall j :: i <= j < |r| ==> r[j] == att[j + 1]
  {
    att[..i] + att[i + 1..]
  }

  /** Removing a file just attached restores the list, and a removal loses
      one copy of the removed file and nothing else. */
  lemma RemoveUndoesAdd(att: seq<FileRef>, f: FileRef, i: nat)
    requires |att| < MaxAttachments && i < |att|
    ensures RemoveAt(AddFiles(att, [f]), |att|) == att
    ensures multiset(RemoveAt(att, i)) == multiset(att) - multiset{att[i]}
  {
    assert AddFiles(att, [f]) == att + [f];
    assert att == att[..i] + [att[i]] + att[i + 1..];
  }

  /** The submit guard: some non-whitespace text or at least one file. */
  predicate CanSubmit(s: InputState) {
    Js.Trim(s.input) != "" || |s.attachments| > 0
  }

  /** Submitting: when the guard holds, the untrimmed text and the files
      are handed over, the input and the attachments are cleared, and on a
      wide screen the palette closes; otherwise nothing happens. */
  function Submit(s: InputState, isMobile: bool): (r: (InputState, Option<Submission>))
    ensures r.1.Some? <==> CanSubmit(s)
    ensures r.1.None? ==> r.0 == s
    ensures r.1.Some? ==> (r.1.value.content == s.input
      && (r.1.value.files.Some? <==> s.attachments != [])
      && (r.1.value.files.Some? ==> r.1.value.files.value == s.attachments)
      && r.0 == InputState("", [], isMobile && s.paletteOpen))
  {
    if !CanSubmit(s) then (s, None)
    else
      var files := if |s.attachments| > 0 then Some(s.attachments) else None;
      (InputState("", [], if isMobile then s.paletteOpen else false), Some(Submission(s.input, files)))
  }

  /** A key press in the text area: Enter without Shift submits under the
      same guard; every other key leaves the state alone here. */
  function KeyDown(s: InputState, key: string, shift: bool, isMobile: bool): (r: (InputState, Option<Submission>))
    ensures shift || key != "Enter" ==> r == (s, None)
    ensures r.1.Some? <==> key == "Enter" && !shift && CanSubmit(s)
  {
    if key == "Enter" && !shift then Submit(s, isMobile) else (s, None)
  }

  /** The document-wide shortcut (not installed on a narrow screen):
      Ctrl+K or Cmd+K toggles the palette, Escape closes it when open. */
  function GlobalKey(open: bool, key: string, ctrl: bool, meta: bool, isMobile: bool): (r: bool)
    ensures isMobile ==> r == open
    ensures !isMobile && (ctrl || meta) && key == "k" ==> r == !open
    ensures key == "Escape" && !isMobile ==> !r
    ensures r != open ==> !isMobile && (key == "Escape" || ((ctrl || meta) && key == "k"))
  {
    if isMobile then open
    else if (meta || ctrl) && key == "k" then !open
    else if key == "Escape" && open then false
    else open
  }

  /** Pressing the shortcut twice restores the palette, and Escape is
      idempotent. */
  lemma ShortcutInvolution(open: bool, ctrl: bool, meta: bool, isMobile: bool)
    requires ctrl || meta
    ensures GlobalKey(GlobalKey(open, "k", ctrl, meta, isMobile), "k", ctrl, meta, isMobile) == open
    ensures var once := GlobalKey(open, "Escape", ctrl, meta, isMobile);
      GlobalKey(once, "Escape", ctrl, meta, isMobile) == once
  {
  }

  /** At most five files are ever attached. */
  predicate Bounded(s: InputState) {
    |s.attachments| <= MaxAttachments
  }

  /** Every interaction keeps the attachment list within bounds. */
  lemma BoundedPreserved(s: InputState, picked: seq<FileRef>, i: nat, key: string, shift: bool, isMobile: bool)
    requires Bounded(s)
    ensures Bounded(s.(attachments := AddFiles(s.attachments, picked)))
    ensures i < |s.attachments| ==> Bounded(s.(attachments := RemoveAt(s.attachments, i)))
    ensures Bounded(Submit(s, isMobile).0) && Bounded(KeyDown(s, key, shift, isMobile).0)
  {
  }
}
