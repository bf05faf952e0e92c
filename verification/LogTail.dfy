/** What the tail of recent lines holds, and when it is the longest one allowed. */
module LogTail {
  import opened ByteStreams
  import opened Logs

  function TotalLength(lines: seq<Bytes>): nat {
    if lines == [] then 0 else |lines[0]| + TotalLength(lines[1..])
  }

  lemma {:induction false} TotalAppend(lines: seq<Bytes>, line: Bytes)
    ensures TotalLength(lines + [line]) == TotalLength(lines) + |line|
  {
    if lines == [] {
      assert lines + [line] == [line] && [line][1..] == [];
    } else {
      TotalAppend(lines[1..], line);
      assert (lines + [line])[0] == lines[0] && (lines + [line])[1..] == lines[1..] + [line];
    }
  }

  ghost predicate IsTail(part: seq<Bytes>, whole: seq<Bytes>) {
    exists from: nat :: from <= |whole| && part == whole[from..]
  }

  lemma TailOfTail(part: seq<Bytes>, whole: seq<Bytes>, from: nat)
    requires IsTail(part, whole) && from <= |part|
    ensures IsTail(part[from..], whole)
  {
    var first: nat :| first <= |whole| && part == whole[first..];
    assert part[from..] == whole[first + from..];
  }

  lemma {:induction false} TrimmedIsTail(tail: Tail, whole: seq<Bytes>)
    requires IsTail(tail.lines, whole)
    ensures IsTail(Trimmed(tail).lines, whole) && |Trimmed(tail).lines| <= |tail.lines|
    decreases |tail.lines|
  {
    if tail.length <= TAIL_BYTES || |tail.lines| == 0 {
    } else {
      TailOfTail(tail.lines, whole, 1);
      TrimmedIsTail(Tail(tail.lines[1..], tail.length - |tail.lines[0]|), whole);
    }
  }

  /** What the counter counts too much is not changed by trimming. */
  lemma {:induction false} TrimmedFits(tail: Tail)
    requires 0 <= tail.length - TotalLength(tail.lines) <= TAIL_BYTES
    ensures TotalLength(Trimmed(tail).lines) <= Trimmed(tail).length <= TAIL_BYTES
    decreases |tail.lines|
  {
    if tail.length <= TAIL_BYTES || |tail.lines| == 0 {
    } else {
      TrimmedFits(Tail(tail.lines[1..], tail.length - |tail.lines[0]|));
    }
  }

  /** After any lines the tail holds the latest of them: at most 100, and at most 64 KiB. */
  ghost predicate TailOk(tail: Tail, lines: seq<Bytes>) {
    && IsTail(tail.lines, lines) && |tail.lines| <= TAIL_LINES
    && TotalLength(tail.lines) <= tail.length <= TAIL_BYTES
  }

  lemma LastLinesTail(lines: seq<Bytes>, whole: seq<Bytes>, line: Bytes)
    requires IsTail(lines, whole) && |lines| <= TAIL_LINES
    ensures IsTail(LastLines(lines + [line]), whole + [line]) && |LastLines(lines + [line])| <= TAIL_LINES
  {
    var more := lines + [line];
    var from: nat :| from <= |whole| && lines == whole[from..];
    assert more == (whole + [line])[from..];
    if |more| > TAIL_LINES {
      TailOfTail(more, whole + [line], 1);
    }
  }

  lemma LastLinesTotal(lines: seq<Bytes>, line: Bytes)
    requires |lines| <= TAIL_LINES
    ensures |line| <= TotalLength(LastLines(lines + [line])) <= TotalLength(lines) + |line|
    ensures |lines| < TAIL_LINES ==> TotalLength(LastLines(lines + [line])) == TotalLength(lines) + |line|
  {
    TotalAppend(lines, line);
    if |lines| == TAIL_LINES {
      assert (lines + [line])[1..] == lines[1..] + [line];
      TotalAppend(lines[1..], line);
    }
  }

  lemma NotedOk(tail: Tail, lines: seq<Bytes>, line: Bytes)
    requires TailOk(tail, lines) && line != []
    ensures TailOk(Noted(tail, line), lines + [line])
  {
    LastLinesTail(tail.lines, lines, line);
    LastLinesTotal(tail.lines, line);
    var noted := Tail(LastLines(tail.lines + [line]), tail.length + |line|);
    TrimmedIsTail(noted, lines + [line]);
    TrimmedFits(noted);
  }

  lemma {:induction false} TailIsRecent(lines: seq<Bytes>)
    requires [] !in lines
    ensures TAIL_LINES == 100 && TAIL_BYTES == 64 * 1024
    ensures TailOk(NotedAll(lines), lines)
    decreases |lines|
  {
    if lines == [] {
      assert [] == lines[0..];
    } else {
      var before, last := lines[..|lines| - 1], lines[|lines| - 1];
      assert last in lines && lines == before + [last];
      TailIsRecent(before);
      NotedOk(NotedAll(before), before, last);
    }
  }

  // ----- When the tail is the longest -----

  predicate Fits(lines: seq<Bytes>) {
    |lines| <= TAIL_LINES && TotalLength(lines) <= TAIL_BYTES
  }

  /** The longest of the latest lines that the limits allow. */
  ghost predicate Longest(part: seq<Bytes>, whole: seq<Bytes>) {
    IsTail(part, whole) && Fits(part) && forall from: nat :: LongestFrom(part, whole, from)
  }

  predicate LongestFrom(part: seq<Bytes>, whole: seq<Bytes>, from: nat) {
    from <= |whole| && Fits(whole[from..]) ==> |whole| - from <= |part|
  }

  lemma {:induction false} TotalDrops(lines: seq<Bytes>, from: nat)
    requires from <= |lines|
    ensures TotalLength(lines[from..]) <= TotalLength(lines)
    decreases from
  {
    if from == 0 {
      assert lines[0..] == lines;
    } else {
      TotalDrops(lines[1..], from - 1);
      assert lines[1..][from - 1..] == lines[from..];
    }
  }

  /** What trimming must still drop: even with the first `e` lines gone the counter is above the limit. */
  predicate Heavy(tail: Tail, e: nat) {
    e <= |tail.lines| && tail.length - TotalLength(tail.lines) + TotalLength(tail.lines[e..]) > TAIL_BYTES
  }

  /** Trimming stops at the first cut that brings the counter down to the limit, or when nothing is left. */
  lemma {:induction false} TrimmedCut(tail: Tail) returns (d: nat)
    ensures d <= |tail.lines| && Trimmed(tail).lines == tail.lines[d..]
    ensures d == |tail.lines| || !Heavy(tail, d)
    ensures forall e: nat :: e < d ==> Heavy(tail, e)
    decreases |tail.lines|
  {
    assert tail.lines[0..] == tail.lines;
    if tail.length > TAIL_BYTES && |tail.lines| > 0 {
      var rest := Tail(tail.lines[1..], tail.length - |tail.lines[0]|);
      var c := TrimmedCut(rest);
      d := c + 1;
      assert rest.lines[c..] == tail.lines[d..];
      forall e: nat | e < d
        ensures Heavy(tail, e)
      {
        if e > 0 {
          assert Heavy(rest, e - 1);
          assert rest.lines[e - 1..] == tail.lines[e..];
        }
      }
    } else {
      d := 0;
    }
  }

  lemma LongestIsUnique(a: seq<Bytes>, b: seq<Bytes>, whole: seq<Bytes>)
    requires Longest(a, whole) && Longest(b, whole)
    ensures a == b
  {
    var i: nat :| i <= |whole| && a == whole[i..];
    var j: nat :| j <= |whole| && b == whole[j..];
    assert LongestFrom(a, whole, j) && LongestFrom(b, whole, i);
  }

  lemma TailAt(part: seq<Bytes>, whole: seq<Bytes>, count: nat)
    requires IsTail(part, whole) && count <= |part|
    ensures count <= |whole| && part[|part| - count..] == whole[|whole| - count..]
  {
    var from: nat :| from <= |whole| && part == whole[from..];
    assert |part| == |whole| - from;
    assert part[|part| - count..] == whole[from..][|part| - count..];
  }

  /** A tail that fits after one more line is the line behind a tail that fitted before. */
  lemma FitsBehind(lines: seq<Bytes>, whole: seq<Bytes>, line: Bytes, from: nat)
    requires Longest(lines, whole) && from <= |whole| && Fits((whole + [line])[from..])
    ensures |whole| - from + 1 <= |LastLines(lines + [line])|
  {
    assert (whole + [line])[from..] == whole[from..] + [line];
    TotalAppend(whole[from..], line);
    assert LongestFrom(lines, whole, from);
  }

  /** The candidates after a note are the cuts of the lines kept by count. */
  lemma LongestOfKept(lines: seq<Bytes>, whole: seq<Bytes>, line: Bytes, d: nat)
    requires Longest(lines, whole)
    requires var kept := LastLines(lines + [line]);
             d <= |kept| && Fits(kept[d..]) && forall e: nat :: e < d ==> !Fits(kept[e..])
    ensures Longest(LastLines(lines + [line])[d..], whole + [line])
  {
    var kept, more := LastLines(lines + [line]), whole + [line];
    LastLinesTail(lines, whole, line);
    TailOfTail(kept, more, d);
    forall from: nat
      ensures LongestFrom(kept[d..], more, from)
    {
      if from <= |whole| && Fits(more[from..]) {
        FitsBehind(lines, whole, line, from);
        var count := |whole| - from + 1;
        TailAt(kept, more, count);
        assert more[|more| - count..] == more[from..];
        assert Fits(kept[|kept| - count..]);
      }
    }
  }

  /** How many of the kept lines the limits really ask to drop. */
  function Excess(lines: seq<Bytes>): (d: nat)
    ensures d <= |lines|
  {
    if TotalLength(lines) > TAIL_BYTES then 1 + Excess(lines[1..]) else 0
  }

  lemma {:induction false} ExcessIsLeast(lines: seq<Bytes>)
    ensures TotalLength(lines[Excess(lines)..]) <= TAIL_BYTES
    ensures forall e: nat :: e < Excess(lines) ==> TotalLength(lines[e..]) > TAIL_BYTES
  {
    assert lines[0..] == lines;
    if TotalLength(lines) > TAIL_BYTES {
      ExcessIsLeast(lines[1..]);
      assert lines[1..][Excess(lines[1..])..] == lines[Excess(lines)..];
      forall e: nat | e < Excess(lines)
        ensures TotalLength(lines[e..]) > TAIL_BYTES
      {
        assert e > 0 ==> lines[1..][e - 1..] == lines[e..];
      }
    }
  }

  lemma BestIsLongest(lines: seq<Bytes>, whole: seq<Bytes>, line: Bytes)
    requires Longest(lines, whole)
    ensures var kept := LastLines(lines + [line]);
            Longest(kept[Excess(kept)..], whole + [line])
  {
    var kept := LastLines(lines + [line]);
    LastLinesTail(lines, whole, line);
    ExcessIsLeast(kept);
    LongestOfKept(lines, whole, line, Excess(kept));
  }

  /**
    One note drops nothing beyond the hundredth line exactly when the counter,
    with the new line, is within the limit.
  */
  lemma NoteKeepsEverything(tail: Tail, line: Bytes)
    requires line != []
    ensures Noted(tail, line).lines == LastLines(tail.lines + [line]) <==> tail.length + |line| <= TAIL_BYTES
  {
    var noted := Tail(LastLines(tail.lines + [line]), tail.length + |line|);
    var d := TrimmedCut(noted);
    assert noted.lines[0..] == noted.lines;
    if tail.length + |line| > TAIL_BYTES {
      assert Heavy(noted, 0);
      assert d > 0;
    }
  }

  /**
    From a tail that is the longest, a note leads to the longest exactly when
    none of the lines counts or the counter, after dropping what the limits ask
    to drop, is within the limit.
  */
  lemma NoteIsLongest(tail: Tail, whole: seq<Bytes>, line: Bytes)
    requires TailOk(tail, whole) && Longest(tail.lines, whole) && line != []
    ensures var kept := LastLines(tail.lines + [line]);
            var best := kept[Excess(kept)..];
            Longest(Noted(tail, line).lines, whole + [line])
            <==> best == [] || tail.length + |line| - TotalLength(kept) + TotalLength(best) <= TAIL_BYTES
  {
    var kept := LastLines(tail.lines + [line]);
    var noted := Tail(kept, tail.length + |line|);
    var d := TrimmedCut(noted);
    LastLinesTotal(tail.lines, line);
    CutsCompare(noted, d);
    BestIsLongest(tail.lines, whole, line);
    LongestCut(kept, whole + [line], d, Excess(kept));
  }

  lemma LongestCut(kept: seq<Bytes>, whole: seq<Bytes>, d: nat, e: nat)
    requires d <= |kept| && e <= |kept| && Longest(kept[e..], whole)
    ensures Longest(kept[d..], whole) <==> d == e
  {
    if Longest(kept[d..], whole) {
      LongestIsUnique(kept[d..], kept[e..], whole);
      assert |kept[d..]| == |kept[e..]|;
    }
  }

  /** A cut that is not heavy drops enough. */
  lemma LighterCut(noted: Tail, d: nat)
    requires d <= |noted.lines| && noted.length >= TotalLength(noted.lines)
    requires d == |noted.lines| || !Heavy(noted, d)
    ensures Excess(noted.lines) <= d
  {
    ExcessIsLeast(noted.lines);
    if d < Excess(noted.lines) {
      assert Heavy(noted, d);
    }
  }

  /** Trimming drops as much as the limits ask, or more, and more exactly when the counter is above what is left. */
  lemma CutsCompare(noted: Tail, d: nat)
    requires d <= |noted.lines| && noted.length >= TotalLength(noted.lines)
    requires d == |noted.lines| || !Heavy(noted, d)
    requires forall e: nat :: e < d ==> Heavy(noted, e)
    ensures Excess(noted.lines) <= d
    ensures d == Excess(noted.lines) <==> Excess(noted.lines) == |noted.lines| || !Heavy(noted, Excess(noted.lines))
  {
    ExcessIsLeast(noted.lines);
    LighterCut(noted, d);
  }

  // ----- Whole runs -----

  lemma NotedAppend(lines: seq<Bytes>, last: Bytes)
    ensures NotedAll(lines + [last]) == Noted(NotedAll(lines), last)
  {
    assert (lines + [last])[..|lines|] == lines;
  }

  /** The tail is the longest, and the counter counts just that. */
  ghost predicate Exact(tail: Tail, whole: seq<Bytes>) {
    && TailOk(tail, whole) && Longest(tail.lines, whole)
    && tail.length == TotalLength(tail.lines) && |tail.lines| <= |whole|
  }

  lemma NothingIsExact()
    ensures Exact(NO_LINES, [])
  {
    TailIsRecent([]);
    var none: seq<Bytes> := [];
    assert none == none[0..];
  }

  lemma ExactStep(tail: Tail, whole: seq<Bytes>, line: Bytes)
    requires Exact(tail, whole) && line != [] && |whole| < TAIL_LINES
    ensures Exact(Noted(tail, line), whole + [line])
  {
    ExactLength(tail, line);
    ExactIsLongest(tail, whole, line);
    NotedOk(tail, whole, line);
  }

  lemma ExactLength(tail: Tail, line: Bytes)
    requires line != [] && |tail.lines| < TAIL_LINES && tail.length == TotalLength(tail.lines)
    ensures Noted(tail, line).length == TotalLength(Noted(tail, line).lines)
  {
    LastLinesTotal(tail.lines, line);
    TrimmedKeepsSlack(Tail(LastLines(tail.lines + [line]), tail.length + |line|));
  }

  lemma ExactIsLongest(tail: Tail, whole: seq<Bytes>, line: Bytes)
    requires TailOk(tail, whole) && Longest(tail.lines, whole) && line != [] && |tail.lines| < TAIL_LINES
    requires tail.length == TotalLength(tail.lines)
    ensures Longest(Noted(tail, line).lines, whole + [line])
  {
    LastLinesTotal(tail.lines, line);
    ExcessIsLeast(LastLines(tail.lines + [line]));
    NoteIsLongest(tail, whole, line);
  }

  /** While nothing was dropped by count the counter is exact. */
  lemma {:induction false} CounterIsExact(lines: seq<Bytes>)
    requires [] !in lines && |lines| <= TAIL_LINES
    ensures Exact(NotedAll(lines), lines)
    decreases |lines|
  {
    if lines == [] {
      NothingIsExact();
    } else {
      var before, last := lines[..|lines| - 1], lines[|lines| - 1];
      assert last in lines && lines == before + [last];
      CounterIsExact(before);
      ExactStep(NotedAll(before), before, last);
      NotedAppend(before, last);
    }
  }

  lemma {:induction false} TrimmedKeepsSlack(tail: Tail)
    ensures Trimmed(tail).length - TotalLength(Trimmed(tail).lines) == tail.length - TotalLength(tail.lines)
    decreases |tail.lines|
  {
    if tail.length <= TAIL_BYTES || |tail.lines| == 0 {
    } else {
      TrimmedKeepsSlack(Tail(tail.lines[1..], tail.length - |tail.lines[0]|));
    }
  }

  /** While everything noted is within the byte limit the counter counts it all, and only count drops lines. */
  lemma {:induction false} CounterCountsAll(lines: seq<Bytes>)
    requires [] !in lines && TotalLength(lines) <= TAIL_BYTES
    ensures NotedAll(lines) == Tail(LastLines(lines), TotalLength(lines))
    decreases |lines|
  {
    if lines == [] {
      assert LastLines(lines) == [];
    } else {
      var before, last := lines[..|lines| - 1], lines[|lines| - 1];
      assert last in lines && lines == before + [last];
      TotalAppend(before, last);
      CounterCountsAll(before);
      LastLinesAppend(before, last);
      NoteWithinLimit(NotedAll(before), last);
    }
  }

  lemma LastLinesAppend(lines: seq<Bytes>, last: Bytes)
    ensures LastLines(LastLines(lines) + [last]) == LastLines(lines + [last])
  {
    if |lines| > TAIL_LINES {
      var cut := |lines| - TAIL_LINES;
      assert (lines[cut..] + [last])[1..] == (lines + [last])[cut + 1..];
    } else {
      assert LastLines(lines) == lines;
    }
  }

  lemma NoteWithinLimit(tail: Tail, line: Bytes)
    requires line != [] && tail.length + |line| <= TAIL_BYTES
    ensures Noted(tail, line) == Tail(LastLines(tail.lines + [line]), tail.length + |line|)
  {
  }

  lemma LatestAreLongest(lines: seq<Bytes>)
    requires |lines| > TAIL_LINES && TotalLength(lines) <= TAIL_BYTES
    ensures Longest(lines[|lines| - TAIL_LINES..], lines)
  {
    var part := lines[|lines| - TAIL_LINES..];
    TotalDrops(lines, |lines| - TAIL_LINES);
    forall from: nat
      ensures LongestFrom(part, lines, from)
    {
      if from <= |lines| && Fits(lines[from..]) {
        assert |lines[from..]| == |lines| - from;
      }
    }
  }

  /**
    The tail is the longest allowed suffix of the lines noted as long as at
    most 100 lines, or at most 64 KiB in all, were noted.
  */
  lemma TailIsLongest(lines: seq<Bytes>)
    requires [] !in lines && (|lines| <= TAIL_LINES || TotalLength(lines) <= TAIL_BYTES)
    ensures Longest(NotedAll(lines).lines, lines)
  {
    if |lines| <= TAIL_LINES {
      CounterIsExact(lines);
    } else {
      CounterCountsAll(lines);
      LatestAreLongest(lines);
    }
  }

  // ----- Where it is not -----

  /** `count` lines of one byte each. */
  function Short(count: nat): seq<Bytes> {
    seq(count, i => [0])
  }

  lemma ShortNoted(count: nat, length: int)
    requires count <= TAIL_LINES && length <= TAIL_BYTES && (length == TAIL_BYTES ==> count >= TAIL_LINES - 1)
    ensures Noted(Tail(Short(count), length), [0]) ==
            if length == TAIL_BYTES then Tail(Short(TAIL_LINES - 1), length)
            else if count < TAIL_LINES then Tail(Short(count + 1), length + 1)
            else Tail(Short(TAIL_LINES), length + 1)
  {
    assert Short(count) + [[0]] == Short(count + 1);
    if count == TAIL_LINES {
      assert Short(TAIL_LINES + 1)[1..] == Short(TAIL_LINES);
    }
    if length == TAIL_BYTES {
      assert Short(TAIL_LINES)[1..] == Short(TAIL_LINES - 1);
      assert LastLines(Short(count) + [[0]]) == Short(TAIL_LINES);
      assert Trimmed(Tail(Short(TAIL_LINES), length + 1)) == Trimmed(Tail(Short(TAIL_LINES - 1), length));
    }
  }

  /** The tail after that many one-byte lines. */
  function ShortTail(count: nat): Tail {
    if count <= TAIL_LINES then Tail(Short(count), count)
    else if count <= TAIL_BYTES then Tail(Short(TAIL_LINES), count)
    else Tail(Short(TAIL_LINES - 1), TAIL_BYTES)
  }

  lemma ShortNext(count: nat)
    ensures Noted(ShortTail(count), [0]) == ShortTail(count + 1)
  {
    var before := ShortTail(count);
    ShortNoted(|before.lines|, before.length);
  }

  /** The counter keeps growing although the tail holds 100 lines, until 99 one-byte lines fill it for good. */
  lemma {:induction false} ShortLines(count: nat)
    ensures NotedAll(Short(count)) == ShortTail(count)
    decreases count
  {
    if count == 0 {
      assert Short(0) == [];
    } else {
      ShortLines(count - 1);
      ShortNext(count - 1);
      assert Short(count) == Short(count - 1) + [[0]];
      NotedAppend(Short(count - 1), [0]);
    }
  }

  lemma {:induction false} TrimsEverything(count: nat, line: Bytes, length: int)
    requires length > TAIL_BYTES + count
    ensures Trimmed(Tail(Short(count) + [line], length)).lines == []
    decreases count
  {
    var lines := Short(count) + [line];
    if count > 0 {
      assert lines[1..] == Short(count - 1) + [line] && lines[0] == [0];
      TrimsEverything(count - 1, line, length - 1);
    } else {
      assert lines == [line] && lines[1..] == [];
      assert Trimmed(Tail(lines, length)) == Trimmed(Tail([], length - |line|));
    }
  }

  /**
    The tail is not the longest one allowed: after more than 64 Ki one-byte
    lines any line of 100 bytes or more leaves it empty.
  */
  lemma TailForgetsLongLine(count: nat, line: Bytes)
    requires count > TAIL_BYTES && |line| >= TAIL_LINES
    ensures NotedAll(Short(count) + [line]).lines == []
  {
    ShortLines(count);
    var lines := Short(count) + [line];
    assert lines[..|lines| - 1] == Short(count);
    TrimsEverything(TAIL_LINES - 1, line, TAIL_BYTES + |line|);
  }
}
