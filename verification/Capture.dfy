/** `capturePipe`: cutting a byte stream, read in pieces of any size, into output events. */
module Capture {
  import opened ByteStreams

  const NEWLINE: bv8 := 10
  const RETURN: bv8 := 13

  /** `complete` tells whether the line ended with a newline; `line` is what the terminal shows. */
  datatype Event = Event(raw: Bytes, line: Bytes, complete: bool)

  function WithoutReturn(line: Bytes): Bytes {
    if line != [] && line[|line| - 1] == RETURN then line[..|line| - 1] else line
  }

  /** The event of one piece of output. */
  function EventOf(raw: Bytes): Event {
    if raw != [] && raw[|raw| - 1] == NEWLINE
    then Event(raw, WithoutReturn(raw[..|raw| - 1]), true)
    else Event(raw, raw, false)
  }

  /** The position of the first newline, -1 when there is none. */
  predicate FirstNewline(value: Bytes, index: int) {
    if index == -1 then NEWLINE !in value
    else 0 <= index < |value| && value[index] == NEWLINE && NEWLINE !in value[..index]
  }

  method IndexNewline(value: Bytes) returns (index: int)
    ensures FirstNewline(value, index)
  {
    for i := 0 to |value|
      invariant NEWLINE !in value[..i]
    {
      if value[i] == NEWLINE {
        return i;
      }
      assert value[..i + 1] == value[..i] + [value[i]];
    }
    assert value[..|value|] == value;
    return -1;
  }

  // ----- What the events of a stream are -----

  function RawParts(events: seq<Event>): seq<Bytes> {
    seq(|events|, i requires 0 <= i < |events| => events[i].raw)
  }

  /** A piece whose only newline, if any, is its last byte. */
  predicate Piece(raw: Bytes) {
    raw != [] && NEWLINE !in raw[..|raw| - 1]
  }

  predicate EndsLine(raw: Bytes) {
    raw != [] && raw[|raw| - 1] == NEWLINE
  }

  /** The stream cut after every newline, and nowhere else. */
  ghost predicate CutsOf(stream: Bytes, events: seq<Event>) {
    && Concat(RawParts(events)) == stream
    && (forall i :: 0 <= i < |events| ==> Piece(events[i].raw) && events[i] == EventOf(events[i].raw))
    && (forall i :: 0 <= i < |events| - 1 ==> EndsLine(events[i].raw))
  }

  /** Says the same of the reader: `events` were written, `pending` is held back, `rest` is still to be read. */
  ghost predicate Captured(stream: Bytes, events: seq<Event>, pending: Bytes, rest: Bytes) {
    && Concat(RawParts(events)) + pending + rest == stream
    && (forall i :: 0 <= i < |events| ==> Piece(events[i].raw) && events[i] == EventOf(events[i].raw))
    && (forall i :: 0 <= i < |events| ==> EndsLine(events[i].raw))
  }

  lemma EventWritten(stream: Bytes, events: seq<Event>, pending: Bytes, rest: Bytes, cut: nat)
    requires Captured(stream, events, pending, rest) && cut < |pending|
    requires pending[cut] == NEWLINE && NEWLINE !in pending[..cut]
    ensures Captured(stream, events + [EventOf(pending[..cut + 1])], pending[cut + 1..], rest)
  {
    var raw := pending[..cut + 1];
    assert raw[..|raw| - 1] == pending[..cut];
    WrittenConcat(events, raw);
    Regroup(Concat(RawParts(events)), raw, pending[cut + 1..], rest);
    assert pending == raw + pending[cut + 1..];
  }

  lemma Regroup(a: Bytes, b: Bytes, c: Bytes, d: Bytes)
    ensures a + b + c + d == a + (b + c) + d
  {
  }

  lemma WrittenConcat(events: seq<Event>, raw: Bytes)
    ensures Concat(RawParts(events + [EventOf(raw)])) == Concat(RawParts(events)) + raw
  {
    assert RawParts(events + [EventOf(raw)]) == RawParts(events) + [raw];
    ConcatAppend(RawParts(events), raw);
  }

  lemma LastWritten(stream: Bytes, events: seq<Event>, pending: Bytes)
    requires Captured(stream, events, pending, []) && NEWLINE !in pending
    ensures CutsOf(stream, if pending == [] then events else events + [EventOf(pending)])
  {
    if pending != [] {
      WrittenConcat(events, pending);
    }
  }

  /** The next chunk has been read. */
  lemma ChunkRead(stream: Bytes, events: seq<Event>, pending: Bytes, chunks: seq<Bytes>)
    requires chunks != [] && Captured(stream, events, pending, Concat(chunks))
    ensures Captured(stream, events, pending + chunks[0], Concat(chunks[1..]))
  {
    Regroup(Concat(RawParts(events)), pending, chunks[0], Concat(chunks[1..]));
    assert Concat(RawParts(events)) + pending + Concat(chunks)
        == Concat(RawParts(events)) + pending + chunks[0] + Concat(chunks[1..]);
  }

  /** One line of output, with its newline in the file and without it on the terminal. */
  method TakeLine(pending: Bytes, newline: nat) returns (event: Event)
    requires newline < |pending| && FirstNewline(pending, newline)
    ensures event == EventOf(pending[..newline + 1])
  {
    var raw, line := pending[..newline + 1], pending[..newline];
    if |line| > 0 && line[|line| - 1] == RETURN {
      line := line[..|line| - 1];
    }
    assert raw[..|raw| - 1] == pending[..newline];
    event := Event(raw, line, true);
  }

  /**
    `chunks` are the pieces the reader returned before its error or end of file,
    in the sizes the operating system happened to deliver them.
  */
  method CapturePipe(chunks: seq<Bytes>) returns (events: seq<Event>)
    ensures CutsOf(Concat(chunks), events)
  {
    ghost var stream := Concat(chunks);
    events := [];
    var pending: Bytes := [];
    for i := 0 to |chunks|
      invariant Captured(stream, events, pending, Concat(chunks[i..]))
      invariant NEWLINE !in pending
    {
      assert chunks[i..][0] == chunks[i] && chunks[i..][1..] == chunks[i + 1..];
      ChunkRead(stream, events, pending, chunks[i..]);
      pending := pending + chunks[i];
      var newline := IndexNewline(pending);
      while newline >= 0
        invariant FirstNewline(pending, newline)
        invariant Captured(stream, events, pending, Concat(chunks[i + 1..]))
        decreases |pending|, newline
      {
        EventWritten(stream, events, pending, Concat(chunks[i + 1..]), newline);
        var event := TakeLine(pending, newline);
        events := events + [event];
        pending := pending[newline + 1..];
        newline := IndexNewline(pending);
      }
    }
    LastWritten(stream, events, pending);
    if |pending| > 0 {
      events := events + [Event(pending, pending, false)];
    }
  }

  // ----- The events depend on the stream alone -----

  lemma ShorterGoesOn(a: Bytes, x: Bytes, b: Bytes, y: Bytes)
    requires a != [] && Piece(b) && a + x == b + y && |a| < |b|
    ensures x != [] && !EndsLine(a)
  {
    var last := |a| - 1;
    assert (a + x)[last] == a[last] && (b + y)[last] == b[..|b| - 1][last];
    assert |a + x| == |b + y|;
  }

  /** The first piece of a stream ends at its first newline, or takes everything. */
  lemma FirstPieceAgrees(a: Bytes, x: Bytes, b: Bytes, y: Bytes)
    requires Piece(a) && Piece(b) && a + x == b + y
    requires (x != [] ==> EndsLine(a)) && (y != [] ==> EndsLine(b))
    ensures a == b && x == y
  {
    if |a| < |b| {
      ShorterGoesOn(a, x, b, y);
    } else if |b| < |a| {
      ShorterGoesOn(b, y, a, x);
    }
    assert (a + x)[..|a|] == a && (b + y)[..|b|] == b;
    assert (a + x)[|a|..] == x && (b + y)[|b|..] == y;
  }

  lemma CutsTail(stream: Bytes, events: seq<Event>)
    requires CutsOf(stream, events) && events != []
    ensures stream == events[0].raw + Concat(RawParts(events[1..]))
        && CutsOf(Concat(RawParts(events[1..])), events[1..])
    ensures Concat(RawParts(events[1..])) != [] ==> EndsLine(events[0].raw)
  {
    assert RawParts(events)[0] == events[0].raw && RawParts(events)[1..] == RawParts(events[1..]);
    assert events[1..] == [] ==> Concat(RawParts(events[1..])) == [];
  }

  lemma CutsOfNothing(events: seq<Event>)
    requires CutsOf([], events)
    ensures events == []
  {
    if events != [] {
      CutsTail([], events);
    }
  }

  /** There is one way to cut a stream: reads of other sizes give the same events. */
  lemma {:induction false} CutsAreUnique(stream: Bytes, a: seq<Event>, b: seq<Event>)
    requires CutsOf(stream, a) && CutsOf(stream, b)
    ensures a == b
    decreases |a|
  {
    if a == [] || b == [] {
      assert RawParts([]) == [];
      CutsOfNothing(a + b);
    } else {
      CutsTail(stream, a);
      CutsTail(stream, b);
      FirstPieceAgrees(a[0].raw, Concat(RawParts(a[1..])), b[0].raw, Concat(RawParts(b[1..])));
      CutsAreUnique(Concat(RawParts(a[1..])), a[1..], b[1..]);
      assert a == [a[0]] + a[1..] && b == [b[0]] + b[1..];
    }
  }

  /** A complete line is shown without its line feed and one carriage return before it; any other is shown as read. */
  predicate ShowsLine(e: Event) {
    if !e.complete then e.line == e.raw
    else
      || e.raw == e.line + [13, 10]
      || (e.raw == e.line + [10] && (e.line == [] || e.line[|e.line| - 1] != 13))
  }

  /** What the raw mirror writes is what was read, and exactly the events that end a line are complete. */
  lemma MirrorIsExact(stream: Bytes, events: seq<Event>)
    requires CutsOf(stream, events)
    ensures Concat(RawParts(events)) == stream
    ensures forall i :: 0 <= i < |events| - 1 ==> events[i].complete
    ensures forall i :: 0 <= i < |events| ==> (events[i].complete <==> EndsLine(events[i].raw))
    ensures forall i :: 0 <= i < |events| ==> NEWLINE !in events[i].line && ShowsLine(events[i])
    ensures stream != [] ==> events != [] && (events[|events| - 1].complete <==> stream[|stream| - 1] == NEWLINE)
  {
    forall i | 0 <= i < |events| ensures NEWLINE !in events[i].line && ShowsLine(events[i]) {
      var raw := events[i].raw;
      assert raw == raw[..|raw| - 1] + [raw[|raw| - 1]];
      assert Piece(raw);
      var line := raw[..|raw| - 1];
    }
    if stream != [] {
      LastOfStream(stream, events);
    }
  }

  lemma {:induction false} LastOfStream(stream: Bytes, events: seq<Event>)
    requires CutsOf(stream, events) && stream != []
    ensures events != [] && events[|events| - 1].raw[|events[|events| - 1].raw| - 1] == stream[|stream| - 1]
    decreases |events|
  {
    assert RawParts([]) == [];
    CutsTail(stream, events);
    var tail := events[1..];
    if tail == [] {
      assert stream == events[0].raw;
    } else {
      assert Piece(tail[0].raw);
      CutsTail(Concat(RawParts(tail)), tail);
      LastOfStream(Concat(RawParts(tail)), tail);
    }
  }
}
