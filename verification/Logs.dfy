/** The log files of a service, their rotation, and the tail of recent lines. */
module Logs {
  import opened ByteStreams
  import opened Options

  const COMBINED := "combined"

  /** One log file and its numbered backups; the highest number is the oldest. */
  datatype Files = Files(current: Bytes, backups: map<int, Bytes>)

  datatype Settings = Settings(maxBytes: int, backups: int)

  datatype Output = Output(stream: string, raw: Bytes, line: Bytes)

  const NO_FILES := Files([], map[])

  /** How many backups are kept. */
  function Depth(settings: Settings): nat {
    if settings.backups > 0 then settings.backups else 1
  }

  function Lookup(backups: map<int, Bytes>, i: int): Option<Bytes> {
    if i in backups then Some(backups[i]) else None
  }

  // ----- What a rotation and a write do -----

  /** `os.Rename` of one backup to the next number; a missing one is skipped. */
  function Renamed(backups: map<int, Bytes>, index: int): map<int, Bytes> {
    if index in backups then (backups - {index})[index + 1 := backups[index]] else backups
  }

  function RenamedFrom(backups: map<int, Bytes>, index: int): map<int, Bytes>
    decreases index
  {
    if index < 1 then backups else RenamedFrom(Renamed(backups, index), index - 1)
  }

  /** The countdown loop: the last backup is removed, the others are renamed from the oldest down. */
  function Shifted(backups: map<int, Bytes>, depth: nat): map<int, Bytes> {
    RenamedFrom(backups - {depth}, depth - 1)
  }

  function Rotated(files: Files, depth: nat): Files {
    Files([], Shifted(files.backups, depth)[1 := files.current])
  }

  predicate NeedsRotation(settings: Settings, files: Files, raw: Bytes) {
    settings.maxBytes > 0 && |files.current| + |raw| > settings.maxBytes
  }

  function Written(settings: Settings, files: Files, raw: Bytes): Files {
    var ready := if NeedsRotation(settings, files, raw) then Rotated(files, Depth(settings)) else files;
    ready.(current := ready.current + raw)
  }

  function WrittenAll(settings: Settings, files: Files, raws: seq<Bytes>): Files {
    if raws == [] then files
    else Written(settings, WrittenAll(settings, files, raws[..|raws| - 1]), raws[|raws| - 1])
  }

  /** The stream an event goes to: its own file, or the combined one. */
  function Target(files: map<string, Files>, stream: string): string {
    if stream in files then stream else COMBINED
  }

  function WriteTo(settings: Settings, files: map<string, Files>, output: Output): map<string, Files> {
    var target := Target(files, output.stream);
    if target in files then files[target := Written(settings, files[target], output.raw)] else files
  }

  function WriteAllTo(settings: Settings, files: map<string, Files>, outputs: seq<Output>): map<string, Files> {
    if outputs == [] then files
    else WriteTo(settings, WriteAllTo(settings, files, outputs[..|outputs| - 1]), outputs[|outputs| - 1])
  }

  // ----- The tail -----

  const TAIL_LINES := 100
  const TAIL_BYTES := 65536

  /** The recent lines, and the counter that is meant to be their total length. */
  datatype Tail = Tail(lines: seq<Bytes>, length: int)

  const NO_LINES := Tail([], 0)

  function Trimmed(tail: Tail): Tail
    decreases |tail.lines|
  {
    if tail.length > TAIL_BYTES && |tail.lines| > 0
    then Trimmed(Tail(tail.lines[1..], tail.length - |tail.lines[0]|))
    else tail
  }

  function LastLines(lines: seq<Bytes>): seq<Bytes> {
    if |lines| > TAIL_LINES then lines[|lines| - TAIL_LINES..] else lines
  }

  /** Lines dropped by count are not taken off the counter. */
  function Noted(tail: Tail, line: Bytes): Tail {
    if line == [] then tail else Trimmed(Tail(LastLines(tail.lines + [line]), tail.length + |line|))
  }

  function NotedAll(lines: seq<Bytes>): Tail {
    if lines == [] then NO_LINES else Noted(NotedAll(lines[..|lines| - 1]), lines[|lines| - 1])
  }

  // ----- The sink -----

  class Sink {
    const settings: Settings
    var files: map<string, Files>
    var tail: seq<Bytes>
    var tailLen: int

    constructor (settings: Settings, streams: set<string>)
      ensures this.settings == settings && files == (map s | s in streams :: NO_FILES)
          && Tail(tail, tailLen) == NO_LINES
    {
      this.settings := settings;
      tail, tailLen := [], 0;
      files := map s | s in streams :: NO_FILES;
    }

    method WriteOutput(output: Output)
      modifies this
      ensures files == WriteTo(settings, old(files), output)
      ensures Tail(tail, tailLen) == Noted(old(Tail(tail, tailLen)), output.line)
    {
      var target := output.stream;
      if target !in files {
        target := COMBINED;
      }
      if target in files {
        if settings.maxBytes > 0 && |files[target].current| + |output.raw| > settings.maxBytes {
          Rotate(target);
        }
        var file := files[target];
        files := files[target := file.(current := file.current + output.raw)];
      }
      if output.line != [] {
        NoteLine(output.line);
      }
    }

    method NoteLine(line: Bytes)
      requires line != []
      modifies this`tail, this`tailLen
      ensures Tail(tail, tailLen) == Noted(old(Tail(tail, tailLen)), line)
    {
      tail := tail + [line];
      if |tail| > TAIL_LINES {
        tail := tail[|tail| - TAIL_LINES..];
      }
      tailLen := tailLen + |line|;
      ghost var start := Tail(tail, tailLen);
      while tailLen > TAIL_BYTES && |tail| > 0
        invariant Trimmed(start) == Trimmed(Tail(tail, tailLen))
        decreases |tail|
      {
        tailLen := tailLen - |tail[0]|;
        tail := tail[1..];
      }
    }

    /** Renames from the oldest backup down, so that no rename overwrites a file still needed. */
    method Rotate(target: string)
      requires target in files
      modifies this`files
      ensures files == old(files)[target := Rotated(old(files)[target], Depth(settings))]
    {
      var depth: int := if settings.backups > 0 then settings.backups else 1;
      var current, backups := files[target].current, files[target].backups;
      ghost var was := backups;
      var index := depth;
      while index >= 1
        invariant 0 <= index <= depth
        invariant Shifted(was, depth) ==
                  if index == depth then Shifted(backups, depth) else RenamedFrom(backups, index)
      {
        if index == depth {
          backups := backups - {index};
        } else if index in backups {
          backups := (backups - {index})[index + 1 := backups[index]];
        }
        index := index - 1;
      }
      files := files[target := Files([], backups[1 := current])];
    }
  }

  // ----- What a rotation means -----

  lemma {:induction false} RenamedFromAt(backups: map<int, Bytes>, index: int, i: int)
    requires index >= 0 && index + 1 !in backups
    ensures Lookup(RenamedFrom(backups, index), i) ==
            if i == 1 then (if index == 0 then Lookup(backups, 1) else None)
            else if 1 < i <= index + 1 then Lookup(backups, i - 1)
            else Lookup(backups, i)
    decreases index
  {
    if index == 0 {
    } else {
      RenamedFromAt(Renamed(backups, index), index - 1, i);
    }
  }

  /** After a rotation number 1 is the file just closed, every other kept number is its predecessor. */
  lemma RotatedAt(files: Files, depth: nat, i: int)
    requires depth > 0
    ensures Lookup(Rotated(files, depth).backups, i) ==
            if i == 1 then Some(files.current)
            else if 1 < i <= depth then Lookup(files.backups, i - 1)
            else Lookup(files.backups, i)
  {
    RenamedFromAt(files.backups - {depth}, depth - 1, i);
  }

  // ----- What the files hold -----

  /** The backups are numbered 1 to `count` without a gap. */
  ghost predicate Stacked(backups: map<int, Bytes>, count: nat) {
    forall i :: i in backups <==> 1 <= i <= count
  }

  /** The backups 1 to `count`, oldest first. */
  function OldestFirst(backups: map<int, Bytes>, count: nat): Bytes
    requires forall i :: 1 <= i <= count ==> i in backups
  {
    if count == 0 then [] else backups[count] + OldestFirst(backups, count - 1)
  }

  predicate IsSuffix(part: Bytes, whole: Bytes) {
    |part| <= |whole| && part == whole[|whole| - |part|..]
  }

  /** No more than `depth` backups, which followed by the current file are a suffix of everything written. */
  ghost predicate Holds(files: Files, depth: nat, everything: Bytes, count: nat) {
    && count <= depth && Stacked(files.backups, count)
    && IsSuffix(OldestFirst(files.backups, count) + files.current, everything)
    && (count < depth ==> OldestFirst(files.backups, count) + files.current == everything)
  }

  lemma {:induction false} ShiftedOldestFirst(was: map<int, Bytes>, now: map<int, Bytes>, current: Bytes, count: nat)
    requires forall i :: 1 <= i <= count ==> i in was && i + 1 in now && now[i + 1] == was[i]
    requires 1 in now && now[1] == current
    requires forall i :: 1 <= i <= count + 1 ==> i in now
    ensures OldestFirst(now, count + 1) == OldestFirst(was, count) + current
  {
    if count > 0 {
      ShiftedOldestFirst(was, now, current, count - 1);
      assert was[count] + (OldestFirst(was, count - 1) + current) == was[count] + OldestFirst(was, count - 1) + current;
    } else {
      assert OldestFirst(now, 0) == [];
      assert now[1] + [] == current && [] + current == current;
    }
  }

  lemma RotatedStack(files: Files, depth: nat, count: nat)
    requires depth > 0 && count <= depth && Stacked(files.backups, count)
    ensures var left := if count < depth then count else depth - 1;
            && Stacked(Rotated(files, depth).backups, left + 1)
            && OldestFirst(Rotated(files, depth).backups, left + 1) == OldestFirst(files.backups, left) + files.current
  {
    var left := if count < depth then count else depth - 1;
    var now := Rotated(files, depth).backups;
    forall i ensures i in now <==> 1 <= i <= left + 1 {
      RotatedAt(files, depth, i);
    }
    forall i | 1 <= i <= left ensures i + 1 in now && now[i + 1] == files.backups[i] {
      RotatedAt(files, depth, i + 1);
    }
    RotatedAt(files, depth, 1);
    ShiftedOldestFirst(files.backups, now, files.current, left);
  }

  lemma SuffixOfSuffix(a: Bytes, b: Bytes, c: Bytes, whole: Bytes)
    requires IsSuffix(a + b + c, whole)
    ensures IsSuffix(b + c, whole)
  {
    assert a + b + c == a + (b + c);
    assert (b + c) == (a + (b + c))[|a|..];
  }

  lemma SuffixExtends(part: Bytes, whole: Bytes, raw: Bytes)
    requires IsSuffix(part, whole)
    ensures IsSuffix(part + raw, whole + raw)
  {
  }

  lemma RotationHolds(files: Files, depth: nat, everything: Bytes, count: nat) returns (count': nat)
    requires Holds(files, depth, everything, count) && depth > 0
    ensures Holds(Rotated(files, depth), depth, everything, count')
  {
    RotatedStack(files, depth, count);
    count' := if count < depth then count + 1 else depth;
    assert OldestFirst(Rotated(files, depth).backups, count') + [] ==
        OldestFirst(Rotated(files, depth).backups, count');
    if count == depth {
      SuffixOfSuffix(files.backups[count], OldestFirst(files.backups, count - 1), files.current, everything);
    }
  }

  lemma AppendHolds(files: Files, depth: nat, everything: Bytes, count: nat, raw: Bytes)
    requires Holds(files, depth, everything, count)
    ensures Holds(files.(current := files.current + raw), depth, everything + raw, count)
  {
    var kept := OldestFirst(files.backups, count);
    SuffixExtends(kept + files.current, everything, raw);
    assert kept + files.current + raw == kept + (files.current + raw);
  }

  lemma WriteHolds(settings: Settings, files: Files, everything: Bytes, count: nat, raw: Bytes) returns (count': nat)
    requires Holds(files, Depth(settings), everything, count)
    ensures Holds(Written(settings, files, raw), Depth(settings), everything + raw, count')
  {
    if NeedsRotation(settings, files, raw) {
      count' := RotationHolds(files, Depth(settings), everything, count);
      AppendHolds(Rotated(files, Depth(settings)), Depth(settings), everything, count', raw);
    } else {
      count' := count;
      AppendHolds(files, Depth(settings), everything, count, raw);
    }
  }

  /**
    After any writes and rotations the backups, oldest first, followed by the
    current file are a suffix of everything written, and everything while fewer
    backups exist than are kept.
  */
  lemma {:induction false} FilesHoldSuffix(settings: Settings, raws: seq<Bytes>) returns (count: nat)
    ensures Holds(WrittenAll(settings, NO_FILES, raws), Depth(settings), Concat(raws), count)
    decreases |raws|
  {
    if raws == [] {
      count := 0;
    } else {
      var before := raws[..|raws| - 1];
      assert raws == before + [raws[|raws| - 1]];
      ConcatAppend(before, raws[|raws| - 1]);
      count := FilesHoldSuffix(settings, before);
      count := WriteHolds(settings, WrittenAll(settings, NO_FILES, before), Concat(before), count, raws[|raws| - 1]);
    }
  }

  ghost predicate Bounded(files: Files, maxBytes: int) {
    |files.current| <= maxBytes && forall i :: i in files.backups ==> |files.backups[i]| <= maxBytes
  }

  lemma RotationStaysBounded(files: Files, depth: nat, maxBytes: int)
    requires Bounded(files, maxBytes) && depth > 0 && maxBytes > 0
    ensures Bounded(Rotated(files, depth), maxBytes)
  {
    forall i | i in Rotated(files, depth).backups ensures |Rotated(files, depth).backups[i]| <= maxBytes {
      RotatedAt(files, depth, i);
    }
  }

  /** No file outgrows the limit unless a single event does. */
  lemma {:induction false} FilesStayBounded(settings: Settings, raws: seq<Bytes>)
    requires settings.maxBytes > 0 && forall i :: 0 <= i < |raws| ==> |raws[i]| <= settings.maxBytes
    ensures Bounded(WrittenAll(settings, NO_FILES, raws), settings.maxBytes)
    decreases |raws|
  {
    if raws == [] {
    } else {
      FilesStayBounded(settings, raws[..|raws| - 1]);
      RotationStaysBounded(WrittenAll(settings, NO_FILES, raws[..|raws| - 1]), Depth(settings), settings.maxBytes);
    }
  }

  // ----- Several streams -----

  /** The pieces that reach the file of `target`. */
  function Routed(files: map<string, Files>, outputs: seq<Output>, target: string): seq<Bytes> {
    if outputs == [] then []
    else
      var last := outputs[|outputs| - 1];
      Routed(files, outputs[..|outputs| - 1], target)
          + (if Target(files, last.stream) == target then [last.raw] else [])
  }

  /** Every file holds what its own stream wrote, in order, whatever the other streams did. */
  lemma {:induction false} StreamsAreSeparate(settings: Settings, files: map<string, Files>, outputs: seq<Output>,
                                              target: string)
    requires target in files
    ensures WriteAllTo(settings, files, outputs).Keys == files.Keys
    ensures WriteAllTo(settings, files, outputs)[target] ==
            WrittenAll(settings, files[target], Routed(files, outputs, target))
    decreases |outputs|
  {
    if outputs == [] {
    } else {
      var before, last := outputs[..|outputs| - 1], outputs[|outputs| - 1];
      StreamsAreSeparate(settings, files, before, target);
      var routed := Routed(files, before, target);
      if Target(files, last.stream) == target {
        assert (routed + [last.raw])[..|routed|] == routed;
      } else {
        assert routed + [] == routed;
      }
    }
  }

  /** The event goes to the file of its own stream, else to the combined one, else nowhere. */
  predicate GoesTo(files: map<string, Files>, stream: string, name: string) {
    name in files && (name == stream || (stream !in files && name == "combined"))
  }

  /**
    One event changes one file: it is appended, or starts the file anew where
    it would not fit, the old contents becoming backup 1 and every other backup
    moving up by one, of which the configured number is kept.
  */
  lemma WriteEffect(settings: Settings, files: map<string, Files>, output: Output, name: string, i: int)
    requires name in files
    ensures var before, after := files[name], WriteTo(settings, files, output);
            var overflows := settings.maxBytes > 0 && |before.current| + |output.raw| > settings.maxBytes;
            var kept := if settings.backups > 0 then settings.backups else 1;
            && after.Keys == files.Keys
            && (!GoesTo(files, output.stream, name) ==> after[name] == before)
            && (GoesTo(files, output.stream, name) && !overflows ==>
                  after[name] == Files(before.current + output.raw, before.backups))
            && (GoesTo(files, output.stream, name) && overflows ==>
                  && after[name].current == output.raw
                  && Lookup(after[name].backups, i) ==
                     if i == 1 then Some(before.current)
                     else if 1 < i <= kept then Lookup(before.backups, i - 1)
                     else Lookup(before.backups, i))
  {
    RotatedAt(files[name], Depth(settings), i);
    assert [] + output.raw == output.raw;
  }
}
