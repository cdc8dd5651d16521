/** How an assistant message is rendered (the `Message` component): a
    `<think>…</think>` block is separated from the visible text, and while
    the reply is still streaming an unclosed block is shown as "thinking". */
module Think {
  import opened Strings
  import Js

  const ThinkOpen := "<think>"
  const ThinkClose := "</think>"

  /** The visible text, the reasoning text and whether the reply is still
      inside an unclosed block. */
  datatype Rendered = Rendered(main: string, thought: string, thinking: bool)

  /** Both tags start with '<' and have no other '<'. */
  lemma TagShapes()
    ensures ThinkOpen[0] == '<' && forall k :: 0 < k < |ThinkOpen| ==> ThinkOpen[k] != '<'
    ensures ThinkClose[0] == '<' && forall k :: 0 < k < |ThinkClose| ==> ThinkClose[k] != '<'
    ensures ThinkOpen[1] != ThinkClose[1]
  {
  }

  /** The closing tag found by searching from the opening tag lies after
      it: the two tags cannot overlap. */
  lemma CloseFollowsOpen(content: string, s: nat, e: nat)
    requires OccursAt(content, ThinkOpen, s) && OccursAt(content, ThinkClose, e) && s <= e
    ensures s + |ThinkOpen| <= e
  {
    TagShapes();
    forall i | s <= i < s + |ThinkOpen| ensures content[i] == ThinkOpen[i - s] {
      assert content[s..s + |ThinkOpen|][i - s] == content[i];
    }
    assert content[e] == content[e..e + |ThinkClose|][0] == '<';
    assert content[e + 1] == content[e..e + |ThinkClose|][1] == ThinkClose[1];
  }

  /** The parse of a message's content. Only assistant messages are parsed.
      A block closed later is cut out; an unclosed block is the reasoning
      shown as "thinking" while streaming, and once the reply is complete
      the text after the opening tag becomes the visible text. */
  function SplitThoughts(content: string, role: string, streaming: bool): (r: Rendered)
    ensures role != "assistant" || !Contains(content, ThinkOpen) ==> r == Rendered(content, "", false)
    ensures r.thinking ==> streaming && role == "assistant"
    ensures |r.main| + |r.thought| <= |content|
  {
    if role != "assistant" then Rendered(content, "", false)
    else match IndexOf(content, ThinkOpen, 0)
      case None => Rendered(content, "", false)
      case Some(s) =>
        var body := s + |ThinkOpen|;
        match IndexOf(content, ThinkClose, s)
        case Some(e) =>
          CloseFollowsOpen(content, s, e);
          Rendered(content[..s] + content[e + |ThinkClose|..], content[body..e], false)
        case None =>
          if streaming then Rendered(content[..s], content[body..], true)
          else Rendered(content[body..], "", false)
  }

  /** In `before + ThinkOpen + rest`, the opening tag found is the one
      written, when `before` holds none. */
  lemma FirstOpen(before: string, rest: string)
    requires !Contains(before, ThinkOpen)
    ensures IndexOf(before + ThinkOpen + rest, ThinkOpen, 0) == Some(|before|)
  {
    var c := before + ThinkOpen + rest;
    var b := |before|;
    TagShapes();
    assert c[b..b + |ThinkOpen|] == ThinkOpen;
    assert c[..b] == before;
    forall j: nat | j < b ensures !OccursAt(c, ThinkOpen, j) {
      if j + |ThinkOpen| <= b {
        NoOccurrenceWithin(c, before, ThinkOpen, 0, j);
      } else {
        NoOccurrenceAcross(c, ThinkOpen, j, b);
      }
    }
    IndexOfFirst(c, ThinkOpen, 0, b);
  }

  /** Searching for the closing tag from the opening tag at `b` skips the
      opening tag itself. */
  lemma NoCloseInOpen(c: string, b: nat, j: nat)
    requires OccursAt(c, ThinkOpen, b) && b <= j < b + |ThinkOpen|
    ensures !OccursAt(c, ThinkClose, j)
  {
    if OccursAt(c, ThinkClose, j) {
      CloseFollowsOpen(c, b, j);
    }
  }

  /** A closed block is cut out: the visible text is what surrounds it and
      the reasoning is its inside, whatever follows the block. */
  lemma ClosedBlockRoundTrip(before: string, thought: string, after: string, streaming: bool)
    requires !Contains(before, ThinkOpen) && !Contains(thought, ThinkClose)
    ensures SplitThoughts(before + ThinkOpen + thought + ThinkClose + after, "assistant", streaming)
         == Rendered(before + after, thought, false)
  {
    var c := before + ThinkOpen + thought + ThinkClose + after;
    var b := |before|;
    var e := b + |ThinkOpen| + |thought|;
    TagShapes();
    assert c == before + ThinkOpen + (thought + ThinkClose + after);
    FirstOpen(before, thought + ThinkClose + after);
    assert c[b..b + |ThinkOpen|] == ThinkOpen;
    assert c[b + |ThinkOpen|..e] == thought;
    assert c[e..e + |ThinkClose|] == ThinkClose;
    forall j: nat | b <= j < e ensures !OccursAt(c, ThinkClose, j) {
      if j < b + |ThinkOpen| {
        NoCloseInOpen(c, b, j);
      } else if j + |ThinkClose| <= e {
        NoOccurrenceWithin(c, thought, ThinkClose, b + |ThinkOpen|, j);
      } else {
        NoOccurrenceAcross(c, ThinkClose, j, e);
      }
    }
    IndexOfFirst(c, ThinkClose, b, e);
    assert c[..b] == before;
    assert c[e + |ThinkClose|..] == after;
  }

  /** An unclosed block: while streaming, the text before it is visible and
      the rest is reasoning in progress; once the reply is complete, the
      text after the opening tag is shown and the text before it is not. */
  lemma UnclosedBlock(before: string, rest: string, streaming: bool)
    requires !Contains(before, ThinkOpen) && !Contains(rest, ThinkClose)
    ensures SplitThoughts(before + ThinkOpen + rest, "assistant", streaming)
         == if streaming then Rendered(before, rest, true) else Rendered(rest, "", false)
  {
    var c := before + ThinkOpen + rest;
    var b := |before|;
    TagShapes();
    FirstOpen(before, rest);
    assert c[b..b + |ThinkOpen|] == ThinkOpen;
    assert c[b + |ThinkOpen|..] == rest;
    forall j: nat | b <= j ensures !OccursAt(c, ThinkClose, j) {
      if j < b + |ThinkOpen| {
        NoCloseInOpen(c, b, j);
      } else if j + |ThinkClose| <= |c| {
        NoOccurrenceWithin(c, rest, ThinkClose, b + |ThinkOpen|, j);
      }
    }
    IndexOfAbsent(c, ThinkClose, b);
    assert c[..b] == before;
  }

  /** The controls under a rendered message: whether the "reasonings"
      toggle is shown, and the text the copy button copies, if the button
      is shown. */
  datatype Controls = Controls(toggle: bool, copy: Option<string>)

  /** The toggle belongs to the non-user branch and needs a finished reply
      whose reasoning is not blank; the copy button appears whenever the
      reply is not thinking and copies the visible text. */
  function MessageControls(content: string, role: string, streaming: bool): (c: Controls)
    ensures c.copy.Some? <==> !SplitThoughts(content, role, streaming).thinking
    ensures c.copy.Some? ==> c.copy.value == SplitThoughts(content, role, streaming).main
    ensures c.toggle ==> role == "assistant" && !streaming && c.copy.Some?
  {
    var r := SplitThoughts(content, role, streaming);
    Controls(role != "user" && !r.thinking && !streaming && Js.Trim(r.thought) != "",
             if r.thinking then None else Some(r.main))
  }

  /** For a closed block, the toggle is offered exactly when the reply is
      complete and its reasoning is not blank, and the copy button copies
      the text around the block. */
  lemma ClosedBlockControls(before: string, thought: string, after: string, streaming: bool)
    requires !Contains(before, ThinkOpen) && !Contains(thought, ThinkClose)
    ensures MessageControls(before + ThinkOpen + thought + ThinkClose + after, "assistant", streaming)
         == Controls(!streaming && Js.Trim(thought) != "", Some(before + after))
  {
    ClosedBlockRoundTrip(before, thought, after, streaming);
  }

  /** While a streaming reply is inside an unclosed block, neither control
      is shown; once it is complete the toggle stays hidden and the copy
      button copies the text after the opening tag. */
  lemma UnclosedBlockControls(before: string, rest: string, streaming: bool)
    requires !Contains(before, ThinkOpen) && !Contains(rest, ThinkClose)
    ensures MessageControls(before + ThinkOpen + rest, "assistant", streaming)
         == if streaming then Controls(false, None) else Controls(false, Some(rest))
  {
    UnclosedBlock(before, rest, streaming);
    assert Js.Trim("") == "";
  }
}
