/**
 * The server-sent-event loop of `stream_turn` in crates/red-ai/src/anthropic.rs: network
 * chunks are joined into lines, lines into events, events into a turn. The parser of an
 * event's JSON is a function parameter.
 */
module Sse {
  import opened Bytes
  import opened Wrappers
  import opened JsonText
  import opened Turn
  import opened Utf8Lossy
  import opened Search
  import Utf8

  // ----- lines -----

  function FirstNewline(b: Bytes.Text): (i: nat)
    ensures i <= |b|
    ensures i < |b| ==> b[i] == NEWLINE
  {
    First(b, NEWLINE)
  }

  /** The complete lines of `b`, each with its newline. */
  function Lines(b: Bytes.Text): seq<Bytes.Text> {
    var i := FirstNewline(b);
    if i == |b| then [] else [b[..i + 1]] + Lines(b[i + 1..])
  }

  /** The trailing partial line. */
  function Rest(b: Bytes.Text): Bytes.Text {
    var i := FirstNewline(b);
    if i == |b| then b else Rest(b[i + 1..])
  }

  lemma {:induction false} NewlineGrows(x: Bytes.Text, y: Bytes.Text)
    ensures FirstNewline(x) < |x| ==> FirstNewline(x + y) == FirstNewline(x)
    decreases |x|
  {
    if x != [] && x[0] != NEWLINE {
      assert (x + y)[1..] == x[1..] + y;
      NewlineGrows(x[1..], y);
    }
  }

  lemma {:induction false} LinesStep(b: Bytes.Text)
    ensures FirstNewline(b) == |b| ==> Lines(b) == []
    ensures FirstNewline(b) < |b| ==> Lines(b) == [b[..FirstNewline(b) + 1]] + Lines(b[FirstNewline(b) + 1..])
  {
    hide FirstNewline, Rest;
  }

  lemma {:induction false} RestStep(b: Bytes.Text)
    ensures FirstNewline(b) == |b| ==> Rest(b) == b
    ensures FirstNewline(b) < |b| ==> Rest(b) == Rest(b[FirstNewline(b) + 1..])
  {
    hide FirstNewline, Lines;
  }

  /** More bytes add lines that start with the partial one. */
  lemma {:induction false} LinesConcat(x: Bytes.Text, y: Bytes.Text)
    ensures Lines(x + y) == Lines(x) + Lines(Rest(x) + y)
    ensures Rest(x + y) == Rest(Rest(x) + y)
    decreases |x|
  {
    hide FirstNewline, Lines, Rest;
    var i := FirstNewline(x);
    LinesStep(x);
    RestStep(x);
    if i < |x| {
      NewlineGrows(x, y);
      var b := x + y;
      LinesStep(b);
      RestStep(b);
      assert b[..i + 1] == x[..i + 1] && b[i + 1..] == x[i + 1..] + y;
      LinesConcat(x[i + 1..], y);
      AssocLines([x[..i + 1]], Lines(x[i + 1..]), Lines(Rest(x) + y));
    } else {
      assert [] + Lines(x + y) == Lines(x + y);
    }
  }

  lemma AssocLines(x: seq<Bytes.Text>, y: seq<Bytes.Text>, z: seq<Bytes.Text>)
    ensures (x + y) + z == x + (y + z)
  {
  }

  function Joined(parts: seq<Bytes.Text>): Bytes.Text {
    if parts == [] then [] else parts[0] + Joined(parts[1..])
  }

  /** One newline, at the end. */
  predicate IsLine(l: Bytes.Text) {
    l != [] && l[|l| - 1] == NEWLINE && FirstNewline(l) == |l| - 1
  }

  lemma {:induction false} CutAtNewline(b: Bytes.Text)
    requires FirstNewline(b) < |b|
    ensures IsLine(b[..FirstNewline(b) + 1])
    decreases |b|
  {
    var i := FirstNewline(b);
    var l := b[..i + 1];
    if i > 0 {
      assert l[1..] == b[1..][..i];
      CutAtNewline(b[1..]);
    }
  }

  /** Lines and partial line make up the bytes; every line is one line. */
  lemma {:induction false} LinesPartition(b: Bytes.Text)
    ensures Joined(Lines(b)) + Rest(b) == b
    ensures forall k :: 0 <= k < |Lines(b)| ==> IsLine(Lines(b)[k])
    ensures FirstNewline(Rest(b)) == |Rest(b)|
    decreases |b|
  {
    hide FirstNewline, IsLine, Joined;
    var i := FirstNewline(b);
    JoinedNone();
    if i < |b| {
      var head, tail := b[..i + 1], Lines(b[i + 1..]);
      LinesPartition(b[i + 1..]);
      CutAtNewline(b);
      JoinedCons(head, tail);
      assert b == head + b[i + 1..];
      Assoc(head, Joined(tail), Rest(b));
    }
  }

  lemma JoinedNone()
    ensures Joined([]) == []
  {
  }

  lemma JoinedCons(head: Bytes.Text, tail: seq<Bytes.Text>)
    ensures Joined([head] + tail) == head + Joined(tail)
  {
    assert ([head] + tail)[1..] == tail;
  }

  /** Lines of valid text are valid text: no character is cut, so none is replaced. */
  lemma {:induction false} LinesIntact(b: Bytes.Text)
    requires Utf8.Valid(b)
    ensures forall k :: 0 <= k < |Lines(b)| ==> Utf8.Valid(Lines(b)[k]) && Lossy(Lines(b)[k]) == Lines(b)[k]
    decreases |b|
  {
    hide FirstNewline, Utf8.Valid, Lossy;
    var i := FirstNewline(b);
    if i < |b| {
      ValidStart(b);
      Utf8.AfterAscii(b, i);
      Utf8.SliceValid(b, 0, i + 1);
      Utf8.SliceValid(b, i + 1, |b|);
      assert b[0..i + 1] == b[..i + 1] && b[i + 1..|b|] == b[i + 1..];
      LossyExact(b[..i + 1]);
      LinesIntact(b[i + 1..]);
    }
  }

  lemma ValidStart(b: Bytes.Text)
    requires Utf8.Valid(b)
    ensures Utf8.Boundary(b, 0)
  {
  }

  // ----- events -----

  function TrimEndByte(b: Bytes.Text, c: Byte): Bytes.Text {
    if b != [] && b[|b| - 1] == c then TrimEndByte(b[..|b| - 1], c) else b
  }

  const DATA: Bytes.Text := [100, 97, 116, 97, 58]

  /** The event of a line, if it carries one. */
  function EventOf(parse: Bytes.Text -> Option<Json>, line: Bytes.Text): Option<Json> {
    var l := TrimEndByte(TrimEndByte(Lossy(line), NEWLINE), RETURN);
    if !StartsWithAt(l, 0, DATA) then None
    else
      var data := Utf8.Trim(l[5..]);
      if data == [] then None else parse(data)
  }

  function Carried(parse: Bytes.Text -> Option<Json>, line: Bytes.Text): seq<Json> {
    var e := EventOf(parse, line);
    if e.Some? then [e.value] else []
  }

  function Events(parse: Bytes.Text -> Option<Json>, lines: seq<Bytes.Text>): seq<Json> {
    if lines == [] then [] else Carried(parse, lines[0]) + Events(parse, lines[1..])
  }

  lemma {:induction false} EventsConcat(parse: Bytes.Text -> Option<Json>, x: seq<Bytes.Text>, y: seq<Bytes.Text>)
    ensures Events(parse, x + y) == Events(parse, x) + Events(parse, y)
    decreases |x|
  {
    hide Carried, Events;
    EventsStep(parse, x);
    EventsStep(parse, x + y);
    if x == [] {
      assert x + y == y;
    } else {
      assert (x + y)[1..] == x[1..] + y;
      EventsConcat(parse, x[1..], y);
      AssocEvents(Carried(parse, x[0]), Events(parse, x[1..]), Events(parse, y));
    }
  }

  lemma {:induction false} EventsStep(parse: Bytes.Text -> Option<Json>, lines: seq<Bytes.Text>)
    ensures lines == [] ==> Events(parse, lines) == []
    ensures lines != [] ==> Events(parse, lines) == Carried(parse, lines[0]) + Events(parse, lines[1..])
  {
    hide Carried;
  }

  lemma AssocEvents(x: seq<Json>, y: seq<Json>, z: seq<Json>)
    ensures (x + y) + z == x + (y + z)
  {
  }

  /** The turn that a whole byte stream amounts to. */
  function Received(parse: Bytes.Text -> Option<Json>, bytes: Bytes.Text): Acc {
    HandledAll(EMPTY, Events(parse, Lines(bytes)))
  }

  // ----- the loop -----

  /** What the next read brings. */
  datatype Arrival = Chunk(bytes: Bytes.Text) | Broken(text: string) | Stopped

  /** The bytes of the chunks before the first failure. */
  function Stream(arrivals: seq<Arrival>): Bytes.Text {
    if arrivals == [] || !arrivals[0].Chunk? then [] else arrivals[0].bytes + Stream(arrivals[1..])
  }

  /** The failure that ended the reading, if any. */
  function FirstFailure(arrivals: seq<Arrival>): Option<AiError> {
    if arrivals == [] then None
    else
      match arrivals[0]
      case Chunk(_) => FirstFailure(arrivals[1..])
      case Broken(text) => Some(Network(text))
      case Stopped => Some(Cancelled)
  }

  /** What the turn comes to: only the joined bytes matter. */
  function TurnResult(parse: Bytes.Text -> Option<Json>, p: Parser, arrivals: seq<Arrival>): Result<Outcome, AiError> {
    if FirstFailure(arrivals).Some? then Failure(FirstFailure(arrivals).value)
    else Finished(p, Received(parse, Stream(arrivals)))
  }

  /** Drains the complete lines of `buf` into the accumulator. */
  method DrainLines(parse: Bytes.Text -> Option<Json>, acc: TurnAccumulator, buf: Bytes.Text) returns (rest: Bytes.Text)
    modifies acc
    ensures rest == Rest(buf)
    ensures acc.View() == HandledAll(old(acc.View()), Events(parse, Lines(buf)))
  {
    hide FirstNewline, EventOf, Handled, HandledAll;
    rest := buf;
    ghost var start := acc.View();
    while FirstNewline(rest) < |rest|
      invariant Rest(rest) == Rest(buf)
      invariant HandledAll(acc.View(), Events(parse, Lines(rest))) == HandledAll(start, Events(parse, Lines(buf)))
      decreases |rest|
    {
      var i := FirstNewline(rest);
      var line := rest[..i + 1];
      ghost var before := acc.View();
      ghost var more := Lines(rest[i + 1..]);
      assert ([line] + more)[1..] == more;
      rest := rest[i + 1..];
      var event := EventOf(parse, line);
      if event.Some? {
        HandledOne(before, event.value, Events(parse, more));
        acc.HandleEvent(event.value);
      } else {
        assert Events(parse, [line] + more) == Events(parse, more);
      }
    }
    assert Lines(rest) == [];
    NoEvents(parse, acc.View());
  }

  lemma HandledOne(a: Acc, e: Json, events: seq<Json>)
    ensures HandledAll(a, [e] + events) == HandledAll(Handled(a, e), events)
  {
    hide Handled;
    assert ([e] + events)[1..] == events;
  }

  /** The arrivals read so far, and the bytes they brought. */
  lemma StreamStep(arrivals: seq<Arrival>, i: nat)
    requires i < |arrivals|
    ensures var a := arrivals[i];
            && (a.Chunk? ==> Stream(arrivals[i..]) == a.bytes + Stream(arrivals[i + 1..]) && FirstFailure(arrivals[i..]) == FirstFailure(arrivals[i + 1..]))
            && (a.Broken? ==> FirstFailure(arrivals[i..]) == Some(Network(a.text)))
            && (a.Stopped? ==> FirstFailure(arrivals[i..]) == Some(Cancelled))
  {
    assert arrivals[i..][0] == arrivals[i] && arrivals[i..][1..] == arrivals[i + 1..];
  }

  lemma FeedStep(parse: Bytes.Text -> Option<Json>, a: Acc, buf: Bytes.Text, chunk: Bytes.Text, later: Bytes.Text)
    ensures HandledAll(HandledAll(a, Events(parse, Lines(buf + chunk))), Events(parse, Lines(Rest(buf + chunk) + later))) ==
            HandledAll(a, Events(parse, Lines(buf + (chunk + later))))
  {
    hide HandledAll, Events, Lines, Rest;
    LinesConcat(buf + chunk, later);
    assert buf + chunk + later == buf + (chunk + later);
    EventsConcat(parse, Lines(buf + chunk), Lines(Rest(buf + chunk) + later));
    HandledConcat(a, Events(parse, Lines(buf + chunk)), Events(parse, Lines(Rest(buf + chunk) + later)));
  }

  /** The reading loop of `stream_turn`. */
  method StreamTurn(parse: Bytes.Text -> Option<Json>, p: Parser, arrivals: seq<Arrival>) returns (r: Result<Outcome, AiError>, sent: seq<Delta>)
    ensures r == TurnResult(parse, p, arrivals)
    ensures FirstFailure(arrivals).None? ==> sent == Received(parse, Stream(arrivals)).sent
  {
    hide Finished, Events, Lines, Rest, HandledAll, FirstFailure, Stream;
    var acc := new TurnAccumulator();
    var buf: Bytes.Text := [];
    assert arrivals[0..] == arrivals;
    assert [] + Stream(arrivals) == Stream(arrivals);
    NoLines();
    for i := 0 to |arrivals|
      invariant fresh(acc)
      invariant FirstFailure(arrivals[i..]) == FirstFailure(arrivals)
      invariant HandledAll(acc.View(), Events(parse, Lines(buf + Stream(arrivals[i..])))) == Received(parse, Stream(arrivals))
      invariant Lines(buf) == []
    {
      var a := arrivals[i];
      StreamStep(arrivals, i);
      match a {
        case Broken(text) => return Failure(Network(text)), acc.sent;
        case Stopped => return Failure(Cancelled), acc.sent;
        case Chunk(bytes) =>
          FeedStep(parse, acc.View(), buf, bytes, Stream(arrivals[i + 1..]));
          var rest := DrainLines(parse, acc, buf + bytes);
          RestHasNoLines(buf + bytes);
          buf := rest;
      }
    }
    NothingMore(parse, arrivals, acc.View(), buf);
    sent := acc.sent;
    r := acc.Finish(p);
  }

  lemma RestHasNoLines(b: Bytes.Text)
    ensures Lines(Rest(b)) == []
  {
    LinesPartition(b);
  }

  lemma NothingMore(parse: Bytes.Text -> Option<Json>, arrivals: seq<Arrival>, a: Acc, buf: Bytes.Text)
    requires Lines(buf) == []
    ensures HandledAll(a, Events(parse, Lines(buf + Stream(arrivals[|arrivals|..])))) == a
    ensures FirstFailure(arrivals[|arrivals|..]) == None
    ensures Lines([]) == []
  {
    hide Lines;
    assert arrivals[|arrivals|..] == [];
    assert buf + [] == buf;
    NoLines();
  }

  lemma NoLines()
    ensures Lines([]) == [] && Rest([]) == []
  {
  }

  // ----- chunking -----

  /** The loop's state after some chunks: the accumulator and the partial line. */
  datatype Fed = Fed(acc: Acc, buf: Bytes.Text)

  function FeedAll(parse: Bytes.Text -> Option<Json>, f: Fed, chunks: seq<Bytes.Text>): Fed
    decreases |chunks|
  {
    if chunks == [] then f
    else
      var buf := f.buf + chunks[0];
      FeedAll(parse, Fed(HandledAll(f.acc, Events(parse, Lines(buf))), Rest(buf)), chunks[1..])
  }

  lemma {:induction false} FeedJoined(parse: Bytes.Text -> Option<Json>, f: Fed, chunks: seq<Bytes.Text>)
    requires Lines(f.buf) == [] && Rest(f.buf) == f.buf
    ensures FeedAll(parse, f, chunks) ==
            Fed(HandledAll(f.acc, Events(parse, Lines(f.buf + Joined(chunks)))), Rest(f.buf + Joined(chunks)))
    decreases |chunks|
  {
    hide Lines, Rest, Events, HandledAll, Joined;
    if chunks == [] {
      JoinedNone();
      assert f.buf + [] == f.buf;
      NoEvents(parse, f.acc);
    } else {
      var chunk, later := chunks[0], chunks[1..];
      var buf := f.buf + chunk;
      RestHasNoLines(buf);
      RestTwice(buf);
      FeedJoined(parse, Fed(HandledAll(f.acc, Events(parse, Lines(buf))), Rest(buf)), later);
      assert chunks == [chunk] + later;
      JoinedCons(chunk, later);
      FeedStep(parse, f.acc, f.buf, chunk, Joined(later));
      LinesConcat(buf, Joined(later));
      Assoc(f.buf, chunk, Joined(later));
    }
  }

  lemma NoEvents(parse: Bytes.Text -> Option<Json>, a: Acc)
    ensures HandledAll(a, Events(parse, [])) == a
  {
  }

  lemma {:induction false} RestTwice(b: Bytes.Text)
    ensures Rest(Rest(b)) == Rest(b)
    decreases |b|
  {
    hide FirstNewline;
    if FirstNewline(b) < |b| {
      RestTwice(b[FirstNewline(b) + 1..]);
    }
  }

  /** However a byte stream is cut into chunks, the same events arrive in the same order and the same bytes stay over. */
  lemma ChunkingIrrelevant(parse: Bytes.Text -> Option<Json>, x: seq<Bytes.Text>, y: seq<Bytes.Text>)
    requires Joined(x) == Joined(y)
    ensures FeedAll(parse, Fed(EMPTY, []), x) == FeedAll(parse, Fed(EMPTY, []), y)
    ensures FeedAll(parse, Fed(EMPTY, []), x).acc == Received(parse, Joined(x))
  {
    hide FeedAll, HandledAll, Events, Lines, Rest;
    NoLines();
    FeedJoined(parse, Fed(EMPTY, []), x);
    FeedJoined(parse, Fed(EMPTY, []), y);
    assert [] + Joined(x) == Joined(x);
  }
}
