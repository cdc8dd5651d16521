/** The completion stream relay (InteractionController::streamAIResponse):
    the line-oriented parser of the server-sent-events body, the decision
    whether to persist the reply, and a line-framing parser that carries
    partial lines across chunk boundaries. JSON decoding is abstract: a
    function from a trimmed payload to the `choices[0].delta.content`
    string, if the payload has one. */
module Relay {
  import opened Strings
  import Php

  const DataPrefix := "data: "
  const DoneSentinel := "[DONE]"
  const FailureText := "The AI service failed to process the request."

  /** What the loop does with one line of the body. */
  datatype LineAction = Ignore | Stop | Emit(delta: string)

  /** A line counts only if it starts with "data: "; its trimmed payload is
      either the sentinel, or decoded into a delta, which is emitted unless
      PHP considers it empty ("" or "0"). */
  function Classify(line: string, decode: string -> Option<string>): (a: LineAction)
    ensures !StartsWith(line, DataPrefix) ==> a == Ignore
    ensures a.Stop? <==> StartsWith(line, DataPrefix) && Php.Trim(line[|DataPrefix|..]) == DoneSentinel
    ensures a.Emit? <==> (
      && StartsWith(line, DataPrefix)
      && Php.Trim(line[|DataPrefix|..]) != DoneSentinel
      && decode(Php.Trim(line[|DataPrefix|..])).Some?
      && !Php.EmptyString(decode(Php.Trim(line[|DataPrefix|..])).value))
    ensures a.Emit? ==> a.delta == decode(Php.Trim(line[|DataPrefix|..])).value
    ensures a.Emit? ==> !Php.EmptyString(a.delta)
  {
    if !StartsWith(line, DataPrefix) then Ignore
    else
      var payload := Php.Trim(line[|DataPrefix|..]);
      if payload == DoneSentinel then Stop
      else match decode(payload)
        case None => Ignore
        case Some(d) => if Php.EmptyString(d) then Ignore else Emit(d)
  }

  /** The relay's observable result so far: the deltas echoed to the client
      in order, the accumulated buffer, and whether the sentinel was seen. */
  datatype Relayed = Relayed(echoed: seq<string>, buffer: string, stopped: bool)

  const Nothing := Relayed([], "", false)

  /** The buffer is the in-order concatenation of the echoed deltas, none of
      which is PHP-empty. */
  predicate Coherent(r: Relayed) {
    && r.buffer == Concat(r.echoed)
    && forall i :: 0 <= i < |r.echoed| ==> !Php.EmptyString(r.echoed[i])
  }

  /** Running `first`, then `second` unless `first` stopped. */
  function Then(first: Relayed, second: Relayed): Relayed {
    if first.stopped then first
    else Relayed(first.echoed + second.echoed, first.buffer + second.buffer, second.stopped)
  }

  lemma ThenCoherent(first: Relayed, second: Relayed)
    requires Coherent(first) && Coherent(second)
    ensures Coherent(Then(first, second))
  {
    if !first.stopped {
      ConcatAppend(first.echoed, second.echoed);
    }
  }

  /** The inner `foreach` over the lines of one chunk, up to the first
      sentinel. */
  function RelayLines(lines: seq<string>, decode: string -> Option<string>): (r: Relayed)
    ensures Coherent(r)
    ensures |r.echoed| <= |lines|
  {
    if lines == [] then Nothing
    else match Classify(lines[0], decode)
      case Stop => Relayed([], "", true)
      case Ignore => RelayLines(lines[1..], decode)
      case Emit(d) =>
        var rest := RelayLines(lines[1..], decode);
        Relayed([d] + rest.echoed, d + rest.buffer, rest.stopped)
  }

  /** A line whose trimmed payload is the sentinel. */
  predicate SentinelLine(line: string) {
    StartsWith(line, DataPrefix) && Php.Trim(line[|DataPrefix|..]) == DoneSentinel
  }

  /** Reference reading of the line loop: the position of the first
      sentinel line, or the number of lines when there is none. */
  function FirstStop(lines: seq<string>): (k: nat)
    ensures k <= |lines|
    ensures forall i :: 0 <= i < k ==> !SentinelLine(lines[i])
    ensures k < |lines| ==> SentinelLine(lines[k])
  {
    if lines == [] then 0
    else if SentinelLine(lines[0]) then 0
    else
      var k := FirstStop(lines[1..]);
      assert forall i :: 0 < i <= k ==> lines[i] == lines[1..][i - 1];
      k + 1
  }

  /** The deltas the lines carry, in order, regardless of any sentinel. */
  function Deltas(lines: seq<string>, decode: string -> Option<string>): seq<string> {
    if lines == [] then []
    else (match Classify(lines[0], decode)
          case Emit(d) => [d]
          case _ => []) + Deltas(lines[1..], decode)
  }

  /** The line loop echoes exactly the deltas of the lines before the first
      sentinel, in order, and reports a stop exactly when there is a
      sentinel line. */
  lemma {:induction false} RelayLinesIsDeltasBeforeStop(lines: seq<string>, decode: string -> Option<string>)
    ensures var k := FirstStop(lines);
      && RelayLines(lines, decode).echoed == Deltas(lines[..k], decode)
      && (RelayLines(lines, decode).stopped <==> k < |lines|)
  {
    if lines != [] {
      var k := FirstStop(lines);
      RelayLinesIsDeltasBeforeStop(lines[1..], decode);
      if SentinelLine(lines[0]) {
        assert Classify(lines[0], decode) == Stop;
      } else {
        var pre := lines[..k];
        assert pre[0] == lines[0] && pre[1..] == lines[1..][..k - 1];
        assert !Classify(lines[0], decode).Stop?;
      }
    }
  }

  /** The outer `while` over the chunks read from the body: every chunk is
      split at "\n" on its own, and a sentinel ends both loops. */
  function Parse(chunks: seq<string>, decode: string -> Option<string>): (r: Relayed)
    ensures Coherent(r)
  {
    if chunks == [] then Nothing
    else
      var first := RelayLines(Split(chunks[0], '\n'), decode);
      var rest := Parse(chunks[1..], decode);
      ThenCoherent(first, rest);
      Then(first, rest)
  }

  /** Prepending an emitted delta commutes with running a second part. */
  lemma ThenEmit(d: string, rest: Relayed, second: Relayed)
    ensures Then(Relayed([d] + rest.echoed, d + rest.buffer, rest.stopped), second)
         == Relayed([d] + Then(rest, second).echoed, d + Then(rest, second).buffer, Then(rest, second).stopped)
  {
    if !rest.stopped {
      assert [d] + rest.echoed + second.echoed == [d] + (rest.echoed + second.echoed);
      assert d + rest.buffer + second.buffer == d + (rest.buffer + second.buffer);
    }
  }

  /** The line loop over two runs of lines is the loop over the first, then
      (unless it stopped) the loop over the second. */
  lemma {:induction false} RelayLinesAppend(a: seq<string>, b: seq<string>, decode: string -> Option<string>)
    ensures RelayLines(a + b, decode) == Then(RelayLines(a, decode), RelayLines(b, decode))
  {
    if a == [] {
      assert a + b == b;
    } else {
      var ab := a + b;
      assert ab[0] == a[0] && ab[1..] == a[1..] + b;
      RelayLinesAppend(a[1..], b, decode);
      match Classify(a[0], decode)
      case Stop =>
      case Ignore =>
      case Emit(d) =>
        ThenEmit(d, RelayLines(a[1..], decode), RelayLines(b, decode));
    }
  }

  /** The lines the parser sees: each chunk's own split, in order. */
  function ChunkLines(chunks: seq<string>): seq<string> {
    if chunks == [] then [] else Split(chunks[0], '\n') + ChunkLines(chunks[1..])
  }

  /** Chunk by chunk, the parser is the line loop over the chunks' lines. */
  lemma {:induction false} ParseIsLineRelay(chunks: seq<string>, decode: string -> Option<string>)
    ensures Parse(chunks, decode) == RelayLines(ChunkLines(chunks), decode)
  {
    if chunks != [] {
      ParseIsLineRelay(chunks[1..], decode);
      RelayLinesAppend(Split(chunks[0], '\n'), ChunkLines(chunks[1..]), decode);
    }
  }

  /** Nothing after a sentinel line matters, in whatever chunk it lies. */
  lemma StopsAtSentinel(pre: seq<string>, line: string, post: seq<string>, decode: string -> Option<string>)
    requires Classify(line, decode) == Stop
    ensures RelayLines(pre + [line] + post, decode) == RelayLines(pre + [line], decode)
    ensures RelayLines(pre + [line], decode).stopped
  {
    RelayLinesAppend(pre, [line] + post, decode);
    assert pre + [line] + post == pre + ([line] + post);
    RelayLinesAppend(pre, [line], decode);
  }

  /** Once the chunks read so far have produced a sentinel, the rest of the
      body is never looked at. */
  lemma {:induction false} ParseIgnoresRestAfterStop(pre: seq<string>, post: seq<string>, decode: string -> Option<string>)
    requires Parse(pre, decode).stopped
    ensures Parse(pre + post, decode) == Parse(pre, decode)
  {
    assert pre != [];
    assert (pre + post)[0] == pre[0];
    assert (pre + post)[1..] == pre[1..] + post;
    if !RelayLines(Split(pre[0], '\n'), decode).stopped {
      ParseIgnoresRestAfterStop(pre[1..], post, decode);
    }
  }

  /** Lines not starting with "data: " are ignored: dropping them changes
      nothing. */
  function DataLines(lines: seq<string>): seq<string> {
    if lines == [] then []
    else (if StartsWith(lines[0], DataPrefix) then [lines[0]] else []) + DataLines(lines[1..])
  }

  lemma {:induction false} IgnoresNonDataLines(lines: seq<string>, decode: string -> Option<string>)
    ensures RelayLines(lines, decode) == RelayLines(DataLines(lines), decode)
  {
    if lines != [] {
      IgnoresNonDataLines(lines[1..], decode);
      if StartsWith(lines[0], DataPrefix) {
        assert DataLines(lines) == [lines[0]] + DataLines(lines[1..]);
        assert (DataLines(lines))[1..] == DataLines(lines[1..]);
      } else {
        assert DataLines(lines) == DataLines(lines[1..]);
      }
    }
  }

  /** A delta of exactly "0" is neither echoed nor buffered: PHP's `empty`
      treats it as empty. */
  lemma ZeroDeltaIsDropped(line: string, decode: string -> Option<string>)
    requires StartsWith(line, DataPrefix)
    requires Php.Trim(line[|DataPrefix|..]) != DoneSentinel
    requires decode(Php.Trim(line[|DataPrefix|..])) == Some("0")
    ensures RelayLines([line], decode) == Nothing
  {
  }

  /** A concatenation of pieces that are all non-empty and not "0" is never
      "0", and is "" only when there are no pieces. */
  lemma ConcatOfNonEmpty(xs: seq<string>)
    requires forall i :: 0 <= i < |xs| ==> !Php.EmptyString(xs[i])
    ensures Concat(xs) != "0"
    ensures Concat(xs) == "" <==> xs == []
  {
    if xs != [] {
      assert |xs[0]| >= 1;
      if |xs[0]| == 1 {
        assert xs[0] != "0";
      }
    }
  }

  /** The upstream response: failed, or a body read as a list of chunks. */
  datatype Upstream = Failed | Streamed(chunks: seq<string>)

  /** What the client receives, in order, and the assistant message saved
      afterwards, if any. */
  datatype StreamResult = StreamResult(output: seq<string>, saved: Option<string>)

  /** After the loop: the buffer is saved as an assistant message unless it
      is PHP-empty. */
  function Finish(r: Relayed): StreamResult {
    StreamResult(r.echoed, if Php.EmptyString(r.buffer) then None else Some(r.buffer))
  }

  /** The relay as written: a failed response emits the fixed failure text
      and saves nothing; otherwise every read is split into lines on its
      own, and what was relayed is saved when it is not PHP-empty. The
      assistant message saved is exactly what the client received. */
  function StreamAIResponse(up: Upstream, decode: string -> Option<string>): (res: StreamResult)
    ensures up.Failed? ==> res.output == [FailureText] && res.saved == None
    ensures up.Streamed? ==> res.output == RelayLines(ChunkLines(up.chunks), decode).echoed
    ensures up.Streamed? ==> (res.saved.Some? <==> Concat(res.output) != "")
    ensures res.saved.Some? ==> res.saved.value == Concat(res.output)
  {
    match up
    case Failed => StreamResult([FailureText], None)
    case Streamed(chunks) =>
      var r := Parse(chunks, decode);
      ParseIsLineRelay(chunks, decode);
      ConcatOfNonEmpty(r.echoed);
      Finish(r)
  }

  /** The relay with lines framed across reads (the correction of the
      per-read split, see `FramedChunkIndependent`): the outcome depends only
      on the body's text, and otherwise it behaves as `StreamAIResponse`. */
  function StreamFramed(up: Upstream, decode: string -> Option<string>): (res: StreamResult)
    ensures up.Failed? ==> res.output == [FailureText] && res.saved == None
    ensures up.Streamed? ==> res.output == RelayLines(Split(Concat(up.chunks), '\n'), decode).echoed
    ensures up.Streamed? ==> (res.saved.Some? <==> Concat(res.output) != "")
    ensures res.saved.Some? ==> res.saved.value == Concat(res.output)
  {
    match up
    case Failed => StreamResult([FailureText], None)
    case Streamed(chunks) =>
      var r := ParseFramed(chunks, decode);
      FramedChunkIndependent(chunks, chunks, decode);
      ConcatOfNonEmpty(r.echoed);
      Finish(r)
  }

  /** A line that arrives in one read is classified as a whole. */
  lemma OneReadLine(line: string, decode: string -> Option<string>)
    requires '\n' !in line
    ensures Parse([line + "\n"], decode) == RelayLines([line], decode)
  {
    SplitAtSeparator(line, "", '\n');
    assert line + ['\n'] + "" == line + "\n";
    assert [line + "\n"][1..] == [];
    RelayLinesAppend([line], [""], decode);
    assert [line] + [""] == [line, ""];
  }

  /** As written, a data line whose payload arrives in a later read than its
      "data: " prefix is lost entirely: neither half is recognised, whereas
      the same line in one read is classified as a whole. */
  lemma {:induction false} SplitLineIsLost(payload: string, decode: string -> Option<string>)
    requires '\n' !in payload && !StartsWith(payload, DataPrefix)
    requires decode("") == None
    ensures Parse([DataPrefix, payload + "\n"], decode) == Nothing
    ensures Parse([DataPrefix + payload + "\n"], decode) == RelayLines([DataPrefix + payload], decode)
  {
    ParsePair(DataPrefix, payload + "\n", decode);
    BarePrefixIsIgnored(decode);
    UnprefixedLineIsIgnored(payload, decode);
    assert '\n' !in DataPrefix + payload;
    OneReadLine(DataPrefix + payload, decode);
  }

  lemma ParsePair(c1: string, c2: string, decode: string -> Option<string>)
    ensures Parse([c1, c2], decode)
         == Then(RelayLines(Split(c1, '\n'), decode), RelayLines(Split(c2, '\n'), decode))
  {
    var r2 := RelayLines(Split(c2, '\n'), decode);
    assert [c2][1..] == [];
    assert Parse([c2], decode) == Then(r2, Parse([], decode)) == r2;
    assert [c1, c2][1..] == [c2];
    assert Parse([c1, c2], decode) == Then(RelayLines(Split(c1, '\n'), decode), Parse([c2], decode));
  }

  /** A read holding only "data: " relays nothing. */
  lemma BarePrefixIsIgnored(decode: string -> Option<string>)
    requires decode("") == None
    ensures RelayLines(Split(DataPrefix, '\n'), decode) == Nothing
  {
    assert '\n' !in DataPrefix;
    SplitNoSeparator(DataPrefix, '\n');
    assert DataPrefix[|DataPrefix|..] == "";
    assert Php.Trim("") == "";
    assert Classify(DataPrefix, decode) == Ignore;
    assert [DataPrefix][1..] == [];
  }

  /** A read holding one line without the prefix relays nothing. */
  lemma UnprefixedLineIsIgnored(payload: string, decode: string -> Option<string>)
    requires '\n' !in payload && !StartsWith(payload, DataPrefix)
    ensures RelayLines(Split(payload + "\n", '\n'), decode) == Nothing
  {
    SplitAtSeparator(payload, "", '\n');
    assert payload + ['\n'] + "" == payload + "\n";
    assert [payload, ""][1..] == [""];
    assert [""][1..] == [];
  }

  /** The sentinel is one such line: split after its prefix it does not stop
      the relay, while in one read it does. */
  lemma SplitSentinelIsMissed(payload: string, decode: string -> Option<string>)
    requires Php.Trim(payload) == DoneSentinel
    requires '\n' !in payload && !StartsWith(payload, DataPrefix) && decode("") == None
    ensures !Parse([DataPrefix, payload + "\n"], decode).stopped
    ensures Parse([DataPrefix + payload + "\n"], decode).stopped
  {
    SplitLineIsLost(payload, decode);
    var line := DataPrefix + payload;
    assert line[|DataPrefix|..] == payload;
    assert Classify(line, decode) == Stop;
  }

  /** The framing parser: `pending` is the unterminated tail of what was read
      so far; each read completes lines with it, and when the body ends the
      last unterminated line is processed too. */
  function FramedFrom(pending: string, chunks: seq<string>, decode: string -> Option<string>): Relayed
    decreases |chunks|
  {
    if chunks == [] then RelayLines([pending], decode)
    else
      var parts := Split(pending + chunks[0], '\n');
      var first := RelayLines(parts[..|parts| - 1], decode);
      Then(first, FramedFrom(parts[|parts| - 1], chunks[1..], decode))
  }

  function ParseFramed(chunks: seq<string>, decode: string -> Option<string>): Relayed {
    FramedFrom("", chunks, decode)
  }

  /** Reading one more chunk: the lines it completes, then the lines of the
      new unterminated tail continued by the rest of the body. */
  lemma ReadStep(pending: string, chunks: seq<string>)
    requires chunks != []
    ensures var parts := Split(pending + chunks[0], '\n');
      Split(pending + Concat(chunks), '\n')
        == parts[..|parts| - 1] + Split(parts[|parts| - 1] + Concat(chunks[1..]), '\n')
  {
    assert pending + Concat(chunks) == (pending + chunks[0]) + Concat(chunks[1..]);
    SplitAppend(pending + chunks[0], Concat(chunks[1..]), '\n');
  }

  lemma {:induction false} FramedFromIsWholeBody(pending: string, chunks: seq<string>, decode: string -> Option<string>)
    requires '\n' !in pending
    ensures FramedFrom(pending, chunks, decode) == RelayLines(Split(pending + Concat(chunks), '\n'), decode)
    decreases |chunks|
  {
    if chunks == [] {
      assert pending + Concat(chunks) == pending;
      SplitNoSeparator(pending, '\n');
    } else {
      var parts := Split(pending + chunks[0], '\n');
      var complete, last := parts[..|parts| - 1], parts[|parts| - 1];
      var later := Split(last + Concat(chunks[1..]), '\n');
      FramedFromIsWholeBody(last, chunks[1..], decode);
      ReadStep(pending, chunks);
      RelayLinesAppend(complete, later, decode);
    }
  }

  /** The framing parser depends only on the bytes of the body, not on where
      the reads split it: any two chunkings of the same body relay the same
      deltas, buffer the same text and stop alike. */
  lemma FramedChunkIndependent(chunks1: seq<string>, chunks2: seq<string>, decode: string -> Option<string>)
    requires Concat(chunks1) == Concat(chunks2)
    ensures ParseFramed(chunks1, decode) == ParseFramed(chunks2, decode)
    ensures ParseFramed(chunks1, decode) == RelayLines(Split(Concat(chunks1), '\n'), decode)
  {
    FramedFromIsWholeBody("", chunks1, decode);
    FramedFromIsWholeBody("", chunks2, decode);
    assert "" + Concat(chunks1) == Concat(chunks1);
    assert "" + Concat(chunks2) == Concat(chunks2);
  }

  /** With framing, a line split across reads is classified as if it had
      arrived in one read. */
  lemma FramedRecoversSplitLine(payload: string, decode: string -> Option<string>)
    requires '\n' !in payload
    ensures ParseFramed([DataPrefix, payload + "\n"], decode) == RelayLines([DataPrefix + payload], decode)
  {
    var line := DataPrefix + payload + "\n";
    ConcatPair(DataPrefix, payload + "\n");
    ConcatSingle(line);
    FramedChunkIndependent([DataPrefix, payload + "\n"], [line], decode);
    assert '\n' !in DataPrefix + payload;
    SplitAtSeparator(DataPrefix + payload, "", '\n');
    assert DataPrefix + payload + ['\n'] + "" == DataPrefix + payload + "\n";
    RelayLinesAppend([DataPrefix + payload], [""], decode);
    assert [DataPrefix + payload] + [""] == [DataPrefix + payload, ""];
  }
}
