/** When a literal that holds `${` breaks the stages, for any settings and any number of rounds. */
module EnvRounds {
  import opened Templates
  import opened EnvMeaning
  import opened EnvResolver
  import opened EnvStages
  import opened EnvOpenLiterals

  // ----- What a text has become after some rounds -----

  /** Every round so far has left the reference in place. */
  predicate Waits(rounds: seq<Runtime>, r: Reference) {
    forall i :: 0 <= i < |rounds| ==> Lookup(r, rounds[i]) == Ok(Ref(r))
  }

  /** A reference that some round replaced has the value that the last runtime gives it. */
  function Moved(s: Segment, rounds: seq<Runtime>, last: Runtime): Segment {
    if s.Ref? && !Waits(rounds, s.reference) && Lookup(s.reference, last).Ok? then Lookup(s.reference, last).value
    else s
  }

  function After(text: Text, rounds: seq<Runtime>, last: Runtime): Text {
    seq(|text|, i requires 0 <= i < |text| => Moved(text[i], rounds, last))
  }

  lemma LookupEarlier(early: Runtime, last: Runtime, r: Reference)
    requires Refines(early, last) && Lookup(r, last).Ok?
    ensures Lookup(r, early) == Ok(Ref(r)) || Lookup(r, early) == Lookup(r, last)
  {
  }

  lemma MovedOnce(early: Runtime, last: Runtime, s: Segment)
    requires Refines(early, last) && (s.Ref? ==> s.reference.IsRuntime() && Lookup(s.reference, last).Ok?)
    ensures RuntimePiece(map[], early, s) == Ok([Moved(s, [early], last)])
  {
    if s.Ref? {
      LookupEarlier(early, last, s.reference);
      assert Waits([early], s.reference) <==> Lookup(s.reference, [early][0]) == Ok(Ref(s.reference));
    }
  }

  /** All references have values in the end. */
  predicate Resolvable(text: Text, last: Runtime) {
    forall i :: 0 <= i < |text| && text[i].Ref? ==> text[i].reference.IsRuntime() && Lookup(text[i].reference, last).Ok?
  }

  lemma ResolvableExpands(text: Text, last: Runtime)
    requires RuntimeOnly(text)
    ensures Expand(map[], last, text).Ok? <==> Resolvable(text, last)
  {
    ExpandPieces(map[], last, text);
    forall i | 0 <= i < |text|
      ensures RuntimePiece(map[], last, text[i]).Ok?
         <==> (text[i].Ref? ==> text[i].reference.IsRuntime() && Lookup(text[i].reference, last).Ok?)
    {
      assert text[i].Ref? ==> text[i].reference.IsRuntime();
    }
  }

  lemma {:induction false} ExpandIsAfter(early: Runtime, last: Runtime, text: Text)
    requires Refines(early, last) && Resolvable(text, last)
    ensures Expand(map[], early, text) == Ok(After(text, [early], last))
  {
    if text == [] {
    } else {
      var init, s := text[..|text| - 1], text[|text| - 1];
      ExpandIsAfter(early, last, init);
      MovedOnce(early, last, s);
      assert After(text, [early], last) == After(init, [early], last) + [Moved(s, [early], last)];
    }
  }

  lemma WaitsJoin(a: seq<Runtime>, b: seq<Runtime>, r: Reference)
    ensures Waits(a + b, r) <==> Waits(a, r) && Waits(b, r)
  {
    if Waits(a + b, r) {
      forall i | 0 <= i < |a|
        ensures Lookup(r, a[i]) == Ok(Ref(r))
      {
        assert (a + b)[i] == a[i];
      }
      forall i | 0 <= i < |b|
        ensures Lookup(r, b[i]) == Ok(Ref(r))
      {
        assert (a + b)[|a| + i] == b[i];
      }
    }
  }

  lemma MovedAgain(s: Segment, a: seq<Runtime>, b: seq<Runtime>, last: Runtime)
    ensures Moved(Moved(s, a, last), b, last) == Moved(s, a + b, last)
  {
    if s.Ref? {
      WaitsJoin(a, b, s.reference);
      RuntimeValueIsSettled(s.reference, Config(last, false));
    }
  }

  lemma AfterAgain(text: Text, a: seq<Runtime>, b: seq<Runtime>, last: Runtime)
    ensures After(After(text, a, last), b, last) == After(text, a + b, last)
  {
    forall i | 0 <= i < |text|
      ensures After(After(text, a, last), b, last)[i] == After(text, a + b, last)[i]
    {
      MovedAgain(text[i], a, b, last);
    }
  }

  lemma AfterNothing(text: Text, last: Runtime)
    ensures After(text, [], last) == text
  {
  }

  lemma AfterIsRuntimeOnly(text: Text, rounds: seq<Runtime>, last: Runtime)
    requires RuntimeOnly(text)
    ensures RuntimeOnly(After(text, rounds, last))
  {
    forall i | 0 <= i < |text| && Moved(text[i], rounds, last).Ref?
      ensures Moved(text[i], rounds, last) == text[i]
    {
      RuntimeValueIsSettled(text[i].reference, Config(last, false));
    }
  }

  // ----- The rounds, value by value -----

  /** When round `i` comes to it, the value holds `${` and no reference any more. */
  predicate StallsAt(values: Entries, rounds: seq<Runtime>, last: Runtime, n: string, i: nat) {
    n in values && i <= |rounds| && Malformed(After(values[n].value, rounds[..i], last))
  }

  ghost predicate Stalls(values: Entries, rounds: seq<Runtime>, last: Runtime) {
    exists n, i: nat :: StallsAt(values, rounds, last, n, i)
  }

  ghost predicate AllResolvable(values: Entries, last: Runtime) {
    forall n :: n in values ==> Resolvable(values[n].value, last)
  }

  ghost predicate AllRefine(rounds: seq<Runtime>, last: Runtime) {
    forall i :: 0 <= i < |rounds| ==> Refines(rounds[i], last)
  }

  /** The values with every reference replaced, whatever the rounds. */
  function Finally(values: Entries, last: Runtime): Entries {
    map n | n in values && Expand(map[], last, values[n].value).Ok? ::
      values[n].(value := Expand(map[], last, values[n].value).value)
  }

  lemma LastRound(values: Entries, last: Runtime)
    requires AllResolvable(values, last)
    ensures ExpandAll(values, last)
         == if exists n :: n in values && Malformed(values[n].value) then Err else Ok(Finally(values, last))
  {
    forall n | n in values
      ensures Expand(map[], last, values[n].value).Ok?
      ensures ExpandEntry(last, values[n]).Err? <==> Malformed(values[n].value)
    {
      ExpandIsAfter(last, last, values[n].value);
    }
    if Expandable(values, last) {
      assert ExpandAll(values, last).value == Finally(values, last);
    }
  }

  /** What an earlier round makes of values that are resolvable and not malformed. */
  lemma EarlierRound(values: Entries, early: Runtime, last: Runtime)
    requires AllRuntimeOnly(values) && AllResolvable(values, last) && Refines(early, last)
    requires forall n :: n in values ==> !Malformed(values[n].value)
    ensures ExpandAll(values, early).Ok?
    ensures var next := ExpandAll(values, early).value;
            && next.Keys == values.Keys && AllRuntimeOnly(next) && AllResolvable(next, last)
            && (forall n :: n in values ==> next[n].value == After(values[n].value, [early], last))
            && Finally(next, last) == Finally(values, last)
  {
    forall n | n in values
      ensures ExpandEntry(early, values[n]) == Ok(values[n].(value := After(values[n].value, [early], last)))
    {
      ExpandIsAfter(early, last, values[n].value);
    }
    var next := ExpandAll(values, early).value;
    forall n | n in values
      ensures next[n] == values[n].(value := After(values[n].value, [early], last))
      ensures RuntimeOnly(next[n].value) && Resolvable(next[n].value, last)
      ensures Expand(map[], last, next[n].value) == Expand(map[], last, values[n].value)
    {
      AfterIsRuntimeOnly(values[n].value, [early], last);
      ExpandIsAfter(early, last, values[n].value);
      ExpandTwice(early, last, values[n].value);
      ResolvableExpands(values[n].value, last);
      ResolvableExpands(next[n].value, last);
    }
    assert Finally(next, last) == Finally(values, last);
  }

  lemma StallsLater(values: Entries, next: Entries, rounds: seq<Runtime>, last: Runtime, n: string, i: nat)
    requires rounds != [] && next.Keys == values.Keys && n in values && i < |rounds|
    requires next[n].value == After(values[n].value, [rounds[0]], last)
    ensures StallsAt(next, rounds[1..], last, n, i) <==> StallsAt(values, rounds, last, n, i + 1)
  {
    AfterAgain(values[n].value, [rounds[0]], rounds[1..][..i], last);
    assert [rounds[0]] + rounds[1..][..i] == rounds[..i + 1];
  }

  lemma {:induction false} RoundsDecide(values: Entries, rounds: seq<Runtime>, last: Runtime)
    requires AllRuntimeOnly(values) && AllResolvable(values, last) && AllRefine(rounds, last)
    ensures ExpandRounds(values, rounds + [last])
         == if Stalls(values, rounds, last) then Err else Ok(Finally(values, last))
    decreases |rounds|
  {
    StallsFirst(values, rounds, last);
    if rounds == [] {
      assert (rounds + [last])[1..] == [] && (rounds + [last])[0] == last;
      LastRound(values, last);
    } else {
      assert (rounds + [last])[1..] == rounds[1..] + [last] && (rounds + [last])[0] == rounds[0];
      if n :| n in values && Malformed(values[n].value) {
        assert ExpandEntry(rounds[0], values[n]).Err?;
      } else {
        EarlierRound(values, rounds[0], last);
        var next := ExpandAll(values, rounds[0]).value;
        RoundsDecide(next, rounds[1..], last);
        StallsShift(values, next, rounds, last);
      }
    }
  }

  lemma StallsFirst(values: Entries, rounds: seq<Runtime>, last: Runtime)
    ensures forall n :: StallsAt(values, rounds, last, n, 0) <==> n in values && Malformed(values[n].value)
    ensures rounds == [] ==> forall n, i: nat :: StallsAt(values, rounds, last, n, i) ==> i == 0
  {
    forall n | n in values
      ensures After(values[n].value, rounds[..0], last) == values[n].value
    {
      AfterNothing(values[n].value, last);
    }
  }

  lemma StallsShift(values: Entries, next: Entries, rounds: seq<Runtime>, last: Runtime)
    requires rounds != [] && next.Keys == values.Keys
    requires forall n :: n in values ==> next[n].value == After(values[n].value, [rounds[0]], last)
    requires forall n :: n in values ==> !Malformed(values[n].value)
    ensures Stalls(next, rounds[1..], last) <==> Stalls(values, rounds, last)
  {
    StallsFirst(values, rounds, last);
    if Stalls(next, rounds[1..], last) {
      var n, i: nat :| StallsAt(next, rounds[1..], last, n, i);
      StallsLater(values, next, rounds, last, n, i);
    }
    if Stalls(values, rounds, last) {
      var n, i: nat :| StallsAt(values, rounds, last, n, i);
      StallsLater(values, next, rounds, last, n, i - 1);
    }
  }

  // ----- Without values in the end the stages fail -----

  lemma {:induction false} ExpandStaysRuntime(rt: Runtime, text: Text)
    requires RuntimeOnly(text) && Expand(map[], rt, text).Ok?
    ensures RuntimeOnly(Expand(map[], rt, text).value)
  {
    if text == [] {
    } else {
      var s := text[|text| - 1];
      ExpandStaysRuntime(rt, text[..|text| - 1]);
      if s.Ref? {
        assert s.reference.IsRuntime();
        RuntimeValueIsSettled(s.reference, Config(rt, false));
      }
    }
  }

  lemma {:induction false} RoundsFail(values: Entries, rounds: seq<Runtime>, last: Runtime, n: string)
    requires AllRuntimeOnly(values) && AllRefine(rounds, last)
    requires n in values && Expand(map[], last, values[n].value).Err?
    ensures ExpandRounds(values, rounds + [last]).Err?
    decreases |rounds|
  {
    if rounds == [] {
      assert (rounds + [last])[0] == last;
      assert ExpandEntry(last, values[n]).Err?;
    } else {
      assert (rounds + [last])[1..] == rounds[1..] + [last] && (rounds + [last])[0] == rounds[0];
      if ExpandAll(values, rounds[0]).Ok? {
        var next := ExpandAll(values, rounds[0]).value;
        forall m | m in values
          ensures RuntimeOnly(next[m].value)
        {
          assert ExpandEntry(rounds[0], values[m]).Ok?;
          ExpandStaysRuntime(rounds[0], values[m].value);
        }
        assert ExpandEntry(rounds[0], values[n]).Ok?;
        ExpandTwice(rounds[0], last, values[n].value);
        RoundsFail(next, rounds[1..], last, n);
      }
    }
  }

  // ----- From values back to entries -----

  /** What the segment has become is an open literal. */
  function Opened(rounds: seq<Runtime>, last: Runtime): Segment -> bool {
    (s: Segment) => (s.Lit? || s.reference.IsRuntime()) && OpenLiteral(Moved(s, rounds, last))
  }

  /** It is still a reference. */
  function Left(rounds: seq<Runtime>, last: Runtime): Segment -> bool {
    (s: Segment) => s.Ref? && s.reference.IsRuntime() && Moved(s, rounds, last).Ref?
  }

  /** With all it reaches, the entry has come to hold an open literal and no reference. */
  ghost predicate HollowAfter(entries: Entries, rounds: seq<Runtime>, last: Runtime, name: string) {
    Below(entries, name, Opened(rounds, last)) && !Below(entries, name, Left(rounds, last))
  }

  lemma AfterIsMalformed(text: Text, rounds: seq<Runtime>, last: Runtime)
    requires RuntimeOnly(text)
    ensures Malformed(After(text, rounds, last))
       <==> Marks(text, Opened(rounds, last)) && !Marks(text, Left(rounds, last))
  {
    var after := After(text, rounds, last);
    forall i | 0 <= i < |text|
      ensures after[i].Ref? <==> Left(rounds, last)(text[i])
      ensures OpenLiteral(after[i]) <==> Opened(rounds, last)(text[i])
    {
      assert after[i] == Moved(text[i], rounds, last);
      assert text[i].Ref? ==> text[i].reference.IsRuntime();
    }
    HasReferenceIsLeft(text, after, Left(rounds, last));
    HasOpenIsOpened(text, after, Opened(rounds, last));
  }

  lemma HasReferenceIsLeft(text: Text, after: Text, mark: Segment -> bool)
    requires |after| == |text| && forall i :: 0 <= i < |text| ==> (after[i].Ref? <==> mark(text[i]))
    ensures HasReference(after) <==> Marks(text, mark)
  {
  }

  lemma HasOpenIsOpened(text: Text, after: Text, mark: Segment -> bool)
    requires |after| == |text| && forall i :: 0 <= i < |text| ==> (OpenLiteral(after[i]) <==> mark(text[i]))
    ensures (exists i :: 0 <= i < |after| && after[i].Lit? && HasOpen(after[i].text)) <==> Marks(text, mark)
  {
    if i :| 0 <= i < |text| && mark(text[i]) {
      assert OpenLiteral(after[i]);
    }
    if i :| 0 <= i < |after| && after[i].Lit? && HasOpen(after[i].text) {
      assert OpenLiteral(after[i]);
    }
  }

  /** What resolving with the settings counts as, besides collecting the references. */
  function Base(early: Config): seq<Runtime> {
    if early.deferRuntime then [] else [early.runtime]
  }

  lemma ResolvedIsAfter(entries: Entries, early: Config, last: Runtime, n: string)
    requires Earlier(early, last) && Meaning(entries, Config(last, false), n).Ok?
    ensures Meaning(entries, Config(early.runtime, true), n).Ok? && Meaning(entries, early, n).Ok?
    ensures var text := Meaning(entries, Config(early.runtime, true), n).value.value;
            && RuntimeOnly(text) && Resolvable(text, last)
            && Meaning(entries, early, n).value.value == After(text, Base(early), last)
  {
    var deferred := Config(early.runtime, true);
    StagedEnv(entries, deferred, last, n, {});
    var text := Meaning(entries, deferred, n).value.value;
    ResolvableExpands(text, last);
    if early.deferRuntime {
      AfterNothing(text, last);
    } else {
      StagedEnv(entries, deferred, early.runtime, n, {});
      ExpandIsAfter(early.runtime, last, text);
    }
  }

  lemma StallIsHollow(entries: Entries, early: Config, rounds: seq<Runtime>, last: Runtime, n: string)
    requires Earlier(early, last) && Meaning(entries, Config(last, false), n).Ok?
    ensures Meaning(entries, early, n).Ok?
    ensures Malformed(After(Meaning(entries, early, n).value.value, rounds, last))
       <==> HollowAfter(entries, Base(early) + rounds, last, n)
  {
    ResolvedIsAfter(entries, early, last, n);
    var deferred, all := Config(early.runtime, true), Base(early) + rounds;
    var text := Meaning(entries, deferred, n).value.value;
    AfterAgain(text, Base(early), rounds, last);
    AfterIsMalformed(text, all, last);
    ValueMarks(entries, deferred, n, {}, Opened(all, last));
    ValueMarks(entries, deferred, n, {}, Left(all, last));
  }

  /** Some entry has become hollow by the time of some round. */
  ghost predicate Hollows(entries: Entries, early: Config, rounds: seq<Runtime>, last: Runtime) {
    exists n, i: nat :: HollowsAt(entries, early, rounds, last, n, i)
  }

  ghost predicate HollowsAt(entries: Entries, early: Config, rounds: seq<Runtime>, last: Runtime, n: string, i: nat) {
    n in entries && i <= |rounds| && HollowAfter(entries, Base(early) + rounds[..i], last, n)
  }

  /** Resolve early, then expand in rounds, the last one with the last runtime. */
  function StagedRounds(entries: Entries, early: Config, rounds: seq<Runtime>, last: Runtime): Result<Entries> {
    var values :- ResolveAll(entries, early);
    ExpandRounds(values, rounds + [last])
  }

  lemma FinalIsDirect(entries: Entries, early: Config, last: Runtime)
    requires Earlier(early, last) && ResolveAll(entries, Config(last, false)).Ok?
    ensures ResolveAll(entries, early).Ok?
    ensures var values := ResolveAll(entries, early).value;
            && AllRuntimeOnly(values) && AllResolvable(values, last)
            && Ok(Finally(values, last)) == ResolveAll(entries, Config(last, false))
  {
    forall n | n in entries
      ensures Meaning(entries, early, n).Ok?
      ensures var e := Meaning(entries, early, n).value;
              && RuntimeOnly(e.value) && Resolvable(e.value, last) && Expand(map[], last, e.value).Ok?
              && Meaning(entries, Config(last, false), n)
                 == Ok(e.(value := Expand(map[], last, e.value).value))
    {
      EntryFinally(entries, early, last, n);
    }
    var values := ResolveAll(entries, early).value;
    assert Finally(values, last) == Meanings(entries, Config(last, false));
  }

  lemma EntryFinally(entries: Entries, early: Config, last: Runtime, n: string)
    requires Earlier(early, last) && Meaning(entries, Config(last, false), n).Ok?
    ensures Meaning(entries, early, n).Ok?
    ensures var e := Meaning(entries, early, n).value;
            && RuntimeOnly(e.value) && Resolvable(e.value, last) && Expand(map[], last, e.value).Ok?
            && Meaning(entries, Config(last, false), n) == Ok(e.(value := Expand(map[], last, e.value).value))
  {
    StagedEnv(entries, early, last, n, {});
    ResolvableExpands(Meaning(entries, early, n).value.value, last);
  }

  lemma StallsAreHollow(entries: Entries, early: Config, rounds: seq<Runtime>, last: Runtime)
    requires Earlier(early, last) && ResolveAll(entries, Config(last, false)).Ok? && ResolveAll(entries, early).Ok?
    ensures Stalls(ResolveAll(entries, early).value, rounds, last) <==> Hollows(entries, early, rounds, last)
  {
    var values := ResolveAll(entries, early).value;
    forall n, i: nat
      ensures StallsAt(values, rounds, last, n, i) <==> HollowsAt(entries, early, rounds, last, n, i)
    {
      if n in entries && i <= |rounds| {
        StallIsHollow(entries, early, rounds[..i], last, n);
      }
    }
  }

  lemma DirectFailureShows(entries: Entries, early: Config, rounds: seq<Runtime>, last: Runtime)
    requires Earlier(early, last) && AllRefine(rounds, last)
    requires ResolveAll(entries, Config(last, false)).Err?
    ensures StagedRounds(entries, early, rounds, last).Err?
  {
    if ResolveAll(entries, early).Ok? {
      var values := ResolveAll(entries, early).value;
      forall m | m in values
        ensures RuntimeOnly(values[m].value)
      {
        StagedEnv(entries, early, last, m, {});
      }
      var n :| n in entries && Meaning(entries, Config(last, false), n).Err?;
      StagedEnv(entries, early, last, n, {});
      RoundsFail(values, rounds, last, n);
    }
  }

  /**
    For all entries, settings and rounds, each knowing no more than the last:
    resolving early and expanding round by round gives what resolving once
    gives exactly when the latter fails or no entry is hollow at the time of
    any round. Otherwise the stages fail.
  */
  lemma StagesAreExact(entries: Entries, early: Config, rounds: seq<Runtime>, last: Runtime)
    requires Earlier(early, last) && AllRefine(rounds, last)
    ensures var direct := ResolveAll(entries, Config(last, false));
            && (StagedRounds(entries, early, rounds, last) == direct
                <==> (direct.Ok? ==> !Hollows(entries, early, rounds, last)))
            && (direct.Err? || Hollows(entries, early, rounds, last) ==>
                  StagedRounds(entries, early, rounds, last).Err?)
  {
    if ResolveAll(entries, Config(last, false)).Err? {
      DirectFailureShows(entries, early, rounds, last);
    } else {
      FinalIsDirect(entries, early, last);
      RoundsDecide(ResolveAll(entries, early).value, rounds, last);
      StallsAreHollow(entries, early, rounds, last);
    }
  }
}
