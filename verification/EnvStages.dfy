/**
  Staged substitution: `Resolve` with `DeferRuntime`, then `ExpandRuntimeValues`
  in as many rounds as it takes for ports to become bound.
*/
module EnvStages {
  import opened Templates
  import opened EnvMeaning
  import opened EnvResolver

  // ----- ExpandRuntime -----

  /** `runtimeReference`, with the refusal of sensitive values folded in. */
  function RuntimePiece(env: Entries, rt: Runtime, s: Segment): Result<Text> {
    match s
    case Lit(_) => Ok([s])
    case Ref(Env(m)) => if m in env && !env[m].sensitive then Ok(env[m].value) else Err
    case Ref(r) => (var v :- Lookup(r, rt); Ok([v]))
  }

  /** The intended result: every reference replaced where it stands. */
  function Expand(env: Entries, rt: Runtime, text: Text): Result<Text> {
    if text == [] then Ok([])
    else
      var before :- Expand(env, rt, text[..|text| - 1]);
      var last :- RuntimePiece(env, rt, text[|text| - 1]);
      Ok(before + last)
  }

  function ExpandChecked(env: Entries, rt: Runtime, text: Text): Result<Text> {
    if Malformed(text) then Err else Expand(env, rt, text)
  }

  lemma {:induction false} ExpandPieces(env: Entries, rt: Runtime, text: Text)
    ensures Expand(env, rt, text).Ok? <==> forall i :: 0 <= i < |text| ==> RuntimePiece(env, rt, text[i]).Ok?
  {
    if text == [] {
    } else {
      var init := text[..|text| - 1];
      ExpandPieces(env, rt, init);
      assert forall i :: 0 <= i < |init| ==> init[i] == text[i];
    }
  }

  /**
    `ExpandRuntime`: references are collected from the original text, and each
    then replaces the first occurrence of its own text in the current value.
  */
  function Rewrite(env: Entries, rt: Runtime, text: Text, i: nat, value: Text): Result<Text>
    requires i <= |text|
    decreases |text| - i
  {
    if i == |text| then Ok(value)
    else if text[i].Lit? then Rewrite(env, rt, text, i + 1, value)
    else
      var p :- RuntimePiece(env, rt, text[i]);
      Rewrite(env, rt, text, i + 1, ReplaceFirst(value, text[i].reference, p))
  }

  /** A value named before position `j` still holds the reference `r`. */
  predicate Named(env: Entries, text: Text, r: Reference) {
    exists i :: 0 <= i < |text| && NamesAt(env, text[i], r)
  }

  predicate NamesAt(env: Entries, s: Segment, r: Reference) {
    s.Ref? && s.reference.Env? && s.reference.name in env && Ref(r) in env[s.reference.name].value
  }

  /** A reference that does not stay in place follows a name whose value holds it too. */
  predicate Misplaced(env: Entries, rt: Runtime, text: Text) {
    exists j :: 0 <= j < |text| && MisplacedAt(env, rt, text, j)
  }

  predicate MisplacedAt(env: Entries, rt: Runtime, text: Text, j: nat)
    requires j < |text|
  {
    text[j].Ref? && !Stuck(text[j].reference, Config(rt, false)) && Named(env, text[..j], text[j].reference)
  }

  /** What one replacement makes of the part of the value in front of its own reference. */
  function Place(before: Text, s: Segment, p: Text): Text {
    if s.Ref? && Ref(s.reference) in before then ReplaceFirst(before, s.reference, p) + [s] else before + p
  }

  /** The value `ExpandRuntime` builds, front to back. */
  function Placed(env: Entries, rt: Runtime, text: Text): Text
    requires forall i :: 0 <= i < |text| ==> RuntimePiece(env, rt, text[i]).Ok?
  {
    if text == [] then []
    else Place(Placed(env, rt, text[..|text| - 1]), text[|text| - 1], RuntimePiece(env, rt, text[|text| - 1]).value)
  }

  lemma PlacedStep(env: Entries, rt: Runtime, text: Text, i: nat)
    requires i < |text| && forall k :: 0 <= k < |text| ==> RuntimePiece(env, rt, text[k]).Ok?
    ensures Placed(env, rt, text[..i + 1]) ==
            Place(Placed(env, rt, text[..i]), text[i], RuntimePiece(env, rt, text[i]).value)
  {
    var init := text[..i + 1];
    assert init[..|init| - 1] == text[..i] && init[|init| - 1] == text[i];
  }

  lemma PlaceInText(before: Text, text: Text, i: nat, p: Text)
    requires i < |text| && (text[i].Lit? ==> p == [text[i]])
    ensures (if text[i].Ref? then ReplaceFirst(before + text[i..], text[i].reference, p) else before + text[i..])
         == Place(before, text[i], p) + text[i + 1..]
  {
    assert before + text[i..] == before + [text[i]] + text[i + 1..];
    PlaceReplaces(before, text[i], text[i + 1..], p);
  }

  /** One round of the loop, seen from the value it has built so far. */
  lemma PlacedNext(env: Entries, rt: Runtime, text: Text, i: nat)
    requires i < |text| && forall k :: 0 <= k < |text| ==> RuntimePiece(env, rt, text[k]).Ok?
    ensures var value := Placed(env, rt, text[..i]) + text[i..];
            Placed(env, rt, text[..i + 1]) + text[i + 1..] ==
            if text[i].Ref? then ReplaceFirst(value, text[i].reference, RuntimePiece(env, rt, text[i]).value) else value
  {
    PlacedStep(env, rt, text, i);
    PlaceInText(Placed(env, rt, text[..i]), text, i, RuntimePiece(env, rt, text[i]).value);
  }

  lemma {:induction false} RewriteIsPlaced(env: Entries, rt: Runtime, text: Text, i: nat, value: Text)
    requires i <= |text| && forall k :: 0 <= k < |text| ==> RuntimePiece(env, rt, text[k]).Ok?
    requires value == Placed(env, rt, text[..i]) + text[i..]
    ensures Rewrite(env, rt, text, i, value) == Ok(Placed(env, rt, text))
    decreases |text| - i
  {
    if i == |text| {
      assert text[..i] == text && value == Placed(env, rt, text);
    } else {
      PlacedNext(env, rt, text, i);
      var p := RuntimePiece(env, rt, text[i]).value;
      RewriteIsPlaced(env, rt, text, i + 1, if text[i].Ref? then ReplaceFirst(value, text[i].reference, p) else value);
    }
  }

  lemma PlaceReplaces(before: Text, s: Segment, rest: Text, p: Text)
    requires s.Lit? ==> p == [s]
    ensures (if s.Ref? then ReplaceFirst(before + [s] + rest, s.reference, p) else before + [s] + rest)
         == Place(before, s, p) + rest
  {
    if s.Ref? {
      if Ref(s.reference) in before {
        ReplaceInFront(before, s.reference, [s] + rest, p);
        assert before + [s] + rest == before + ([s] + rest);
        assert ReplaceFirst(before, s.reference, p) + ([s] + rest) ==
               ReplaceFirst(before, s.reference, p) + [s] + rest;
      } else {
        ReplaceSkips(before, s.reference, rest, p);
      }
    }
  }

  lemma {:induction false} ReplaceInFront(before: Text, r: Reference, rest: Text, p: Text)
    requires Ref(r) in before
    ensures ReplaceFirst(before + rest, r, p) == ReplaceFirst(before, r, p) + rest
  {
    var value := before + rest;
    assert value[0] == before[0] && value[1..] == before[1..] + rest;
    if before[0] == Ref(r) {
      assert p + (before[1..] + rest) == p + before[1..] + rest;
    } else {
      ReplaceInFront(before[1..], r, rest, p);
      assert [before[0]] + (ReplaceFirst(before[1..], r, p) + rest) ==
             [before[0]] + ReplaceFirst(before[1..], r, p) + rest;
    }
  }

  lemma {:induction false} ReplaceMembers(value: Text, r: Reference, p: Text, x: Segment)
    requires Ref(r) in value
    ensures x in ReplaceFirst(value, r, p) ==> x in value || x in p
    ensures x in p || (x in value && x != Ref(r)) ==> x in ReplaceFirst(value, r, p)
  {
    if value[0] != Ref(r) {
      ReplaceMembers(value[1..], r, p, x);
      assert value == [value[0]] + value[1..];
    } else {
      assert value == [value[0]] + value[1..];
    }
  }

  /** Of the references that do not stay in place, the value holds exactly those that named values brought in. */
  ghost predicate Traced(env: Entries, rt: Runtime, text: Text, value: Text) {
    forall r :: !Stuck(r, Config(rt, false)) ==> (Ref(r) in value <==> Named(env, text, r))
  }

  lemma NamedGrows(env: Entries, text: Text, s: Segment, r: Reference)
    ensures Named(env, text + [s], r) <==> Named(env, text, r) || NamesAt(env, s, r)
  {
    var longer := text + [s];
    if i :| 0 <= i < |text| && NamesAt(env, text[i], r) {
      assert NamesAt(env, longer[i], r);
    }
    if NamesAt(env, s, r) {
      assert NamesAt(env, longer[|text|], r);
    }
  }

  /** The piece put in place of `s` brings in what the named value holds, and nothing else. */
  lemma PieceBrings(env: Entries, rt: Runtime, s: Segment, r: Reference)
    requires RuntimePiece(env, rt, s).Ok? && !Stuck(r, Config(rt, false))
    ensures Ref(r) in RuntimePiece(env, rt, s).value <==> NamesAt(env, s, r)
  {
    if s.Ref? && !s.reference.Env? {
      RuntimeValueIsSettled(s.reference, Config(rt, false));
    }
  }

  lemma PlaceTraced(env: Entries, rt: Runtime, text: Text, s: Segment, before: Text)
    requires Traced(env, rt, text, before) && RuntimePiece(env, rt, s).Ok?
    ensures Traced(env, rt, text + [s], Place(before, s, RuntimePiece(env, rt, s).value))
  {
    var p := RuntimePiece(env, rt, s).value;
    forall r | !Stuck(r, Config(rt, false))
      ensures Ref(r) in Place(before, s, p) <==> Named(env, text + [s], r)
    {
      NamedGrows(env, text, s, r);
      PieceBrings(env, rt, s, r);
      if s.Ref? && Ref(s.reference) in before {
        ReplaceMembers(before, s.reference, p, Ref(r));
      }
    }
  }

  lemma {:induction false} PlacedIsTraced(env: Entries, rt: Runtime, text: Text)
    requires forall i :: 0 <= i < |text| ==> RuntimePiece(env, rt, text[i]).Ok?
    ensures Traced(env, rt, text, Placed(env, rt, text))
  {
    if text == [] {
      assert forall r :: !Named(env, text, r);
    } else {
      var init, s := text[..|text| - 1], text[|text| - 1];
      PlacedIsTraced(env, rt, init);
      PlaceTraced(env, rt, init, s, Placed(env, rt, init));
      assert text == init + [s];
    }
  }

  lemma MisplacedGrows(env: Entries, rt: Runtime, init: Text, s: Segment)
    ensures Misplaced(env, rt, init + [s]) <==> Misplaced(env, rt, init) || MisplacedAt(env, rt, init + [s], |init|)
  {
    var text := init + [s];
    forall j | 0 <= j < |init|
      ensures MisplacedAt(env, rt, text, j) <==> MisplacedAt(env, rt, init, j)
    {
      assert text[..j] == init[..j];
    }
    if j :| 0 <= j < |init| && MisplacedAt(env, rt, init, j) {
      assert MisplacedAt(env, rt, text, j);
    }
  }

  /** Where one replacement goes wrong the results differ in their last segment. */
  lemma PlaceAgrees(env: Entries, rt: Runtime, init: Text, s: Segment, before: Text, expanded: Text)
    requires AllRuntimeOnly(env) && RuntimePiece(env, rt, s).Ok? && Traced(env, rt, init, before)
    ensures var p := RuntimePiece(env, rt, s).value;
            if MisplacedAt(env, rt, init + [s], |init|) then Place(before, s, p) != expanded + p
            else Place(before, s, p) == before + p
  {
    var text, p := init + [s], RuntimePiece(env, rt, s).value;
    assert text[..|init|] == init && text[|init|] == s;
    if s.Ref? && Ref(s.reference) in before {
      var r := s.reference;
      if Stuck(r, Config(rt, false)) {
        ReplaceSelf(before, r);
      } else {
        NamedIsRuntime(env, init, r);
        assert Place(before, s, p)[|Place(before, s, p)| - 1] == s;
        assert |p| == 1 && p[0].Lit? && (expanded + p)[|expanded + p| - 1] == p[0];
      }
    }
  }

  lemma NamedIsRuntime(env: Entries, text: Text, r: Reference)
    requires AllRuntimeOnly(env) && Named(env, text, r)
    ensures r.IsRuntime()
  {
    var i :| 0 <= i < |text| && NamesAt(env, text[i], r);
    assert RuntimeOnly(env[text[i].reference.name].value);
  }

  lemma {:induction false} PlacedAgrees(env: Entries, rt: Runtime, text: Text)
    requires AllRuntimeOnly(env) && Expand(env, rt, text).Ok?
    ensures forall i :: 0 <= i < |text| ==> RuntimePiece(env, rt, text[i]).Ok?
    ensures Placed(env, rt, text) == Expand(env, rt, text).value <==> !Misplaced(env, rt, text)
  {
    ExpandPieces(env, rt, text);
    if text == [] {
    } else {
      var init, s := text[..|text| - 1], text[|text| - 1];
      var before, expanded := Placed(env, rt, init), Expand(env, rt, init).value;
      var p := RuntimePiece(env, rt, s).value;
      PlacedAgrees(env, rt, init);
      PlacedIsTraced(env, rt, init);
      assert text == init + [s];
      MisplacedGrows(env, rt, init, s);
      PlaceAgrees(env, rt, init, s, before, expanded);
      if before + p == expanded + p {
        assert (before + p)[..|before|] == before && (expanded + p)[..|expanded|] == expanded;
      }
    }
  }

  method ExpandRuntime(env: Entries, rt: Runtime, text: Text) returns (r: Result<Text>)
    ensures r == Rewritten(env, rt, text)
  {
    if Malformed(text) {
      return Err;
    }
    var value := text;
    for i := 0 to |text|
      invariant Rewrite(env, rt, text, i, value) == Rewrite(env, rt, text, 0, text)
    {
      if text[i].Ref? {
        var replacement := RuntimePiece(env, rt, text[i]);
        if replacement.Err? {
          return Err;
        }
        value := ReplaceFirst(value, text[i].reference, replacement.value);
      }
    }
    return Ok(value);
  }

  function Rewritten(env: Entries, rt: Runtime, text: Text): Result<Text> {
    if Malformed(text) then Err else Rewrite(env, rt, text, 0, text)
  }

  /**
    For values that hold runtime references only, as `Resolve` leaves them,
    `ExpandRuntime` fails exactly when some reference has no value, and
    otherwise gives the intended text exactly when no reference is misplaced.
  */
  lemma ExpandRuntimeIsExact(env: Entries, rt: Runtime, text: Text)
    requires AllRuntimeOnly(env)
    ensures Rewritten(env, rt, text).Ok? <==> ExpandChecked(env, rt, text).Ok?
    ensures Rewritten(env, rt, text) == ExpandChecked(env, rt, text)
       <==> (ExpandChecked(env, rt, text).Ok? ==> !Misplaced(env, rt, text))
  {
    if !Malformed(text) {
      ExpandPieces(env, rt, text);
      if Expand(env, rt, text).Ok? {
        assert text[..0] == [] && text[0..] == text && [] + text == text;
        RewriteIsPlaced(env, rt, text, 0, text);
        PlacedAgrees(env, rt, text);
      } else {
        var i :| 0 <= i < |text| && RuntimePiece(env, rt, text[i]).Err?;
        RewriteFails(env, rt, text, 0, text, i);
      }
    }
  }

  lemma {:induction false} RewriteFails(env: Entries, rt: Runtime, text: Text, i: nat, value: Text, k: nat)
    requires i <= k < |text| && RuntimePiece(env, rt, text[k]).Err?
    ensures Rewrite(env, rt, text, i, value).Err?
    decreases k - i
  {
    if i < k && RuntimePiece(env, rt, text[i]).Ok? {
      var p := RuntimePiece(env, rt, text[i]).value;
      RewriteFails(env, rt, text, i + 1, if text[i].Lit? then value else ReplaceFirst(value, text[i].reference, p), k);
    }
  }

  /**
    The misplacement is real: an entry that refers to a port, resolved with
    runtime references deferred, takes the replacement meant for the same
    reference after it.
  */
  lemma DeferredNameMisplaced(name: string, port: string, rt: Runtime)
    requires port in rt.ports
    ensures var entries: Entries := map[name := Entry([Ref(Port(port))], false, true)];
            var text := [Ref(Env(name)), Ref(Port(port))];
            && ResolveAll(entries, Config(rt, true)) == Ok(entries) && AllRuntimeOnly(entries)
            && ExpandChecked(entries, rt, text).Ok?
            && Rewritten(entries, rt, text) != ExpandChecked(entries, rt, text)
  {
    var r := Port(port);
    var entries: Entries := map[name := Entry([Ref(r)], false, true)];
    var text := [Ref(Env(name)), Ref(r)];
    DeferredStays(entries, name, r, rt);
    assert HasReference(text) by { assert text[0].Ref?; }
    ExpandPieces(entries, rt, text);
    assert forall i :: 0 <= i < |text| ==> RuntimePiece(entries, rt, text[i]).Ok?;
    assert NamesAt(entries, text[..1][0], r);
    assert MisplacedAt(entries, rt, text, 1);
    ExpandRuntimeIsExact(entries, rt, text);
  }

  lemma DeferredStays(entries: Entries, name: string, r: Reference, rt: Runtime)
    requires entries == map[name := Entry([Ref(r)], false, true)] && r.IsRuntime()
    ensures ResolveAll(entries, Config(rt, true)) == Ok(entries)
  {
    var cfg, text, visiting := Config(rt, true), [Ref(r)], {} + {name};
    assert HasReference(text) by { assert text[0].Ref?; }
    assert text[..0] == [] && EvalText(entries, cfg, [], visiting) == Ok(Piece([], false));
    assert EvalSegment(entries, cfg, text[0], visiting) == Ok(Piece([Ref(r)], false));
    var empty: Text := [];
    assert empty + [Ref(r)] == text;
    assert EvalText(entries, cfg, text, visiting) == Ok(Piece(text, false));
    assert Meaning(entries, cfg, name) == Ok(entries[name]);
    assert Meanings(entries, cfg) == entries;
  }

  // ----- ExpandRuntimeValues -----

  /** Only runtime references are left, as after `Resolve`. */
  predicate RuntimeOnly(text: Text) {
    forall i :: 0 <= i < |text| && text[i].Ref? ==> text[i].reference.IsRuntime()
  }

  predicate AllRuntimeOnly(values: Entries) {
    forall n :: n in values ==> RuntimeOnly(values[n].value)
  }

  function ExpandEntry(rt: Runtime, entry: Entry): Result<Entry> {
    var value :- ExpandChecked(map[], rt, entry.value);
    Ok(entry.(value := value))
  }

  predicate Expandable(values: Entries, rt: Runtime) {
    forall n :: n in values ==> ExpandEntry(rt, values[n]).Ok?
  }

  function ExpandAll(values: Entries, rt: Runtime): Result<Entries> {
    if Expandable(values, rt) then Ok(map n | n in values :: ExpandEntry(rt, values[n]).value) else Err
  }

  lemma {:induction false} ExpandIgnoresNames(env: Entries, rt: Runtime, text: Text)
    requires RuntimeOnly(text)
    ensures Expand(env, rt, text) == Expand(map[], rt, text)
  {
    if text == [] {
    } else {
      ExpandIgnoresNames(env, rt, text[..|text| - 1]);
      var s := text[|text| - 1];
      assert s.Ref? ==> s.reference.IsRuntime();
      assert RuntimePiece(env, rt, s) == RuntimePiece(map[], rt, s);
    }
  }

  /** What `ExpandRuntime` returns, whatever the values still hold. */
  function RewriteEntry(values: Entries, rt: Runtime, entry: Entry): Result<Entry> {
    var value :- Rewritten(values, rt, entry.value);
    Ok(entry.(value := value))
  }

  method ExpandRuntimeValues(values: Entries, rt: Runtime) returns (r: Result<Entries>)
    ensures r.Ok? <==> forall n :: n in values ==> RewriteEntry(values, rt, values[n]).Ok?
    ensures r.Ok? ==> r.value.Keys == values.Keys
    ensures r.Ok? ==> forall n :: n in values ==> RewriteEntry(values, rt, values[n]) == Ok(r.value[n])
    ensures AllRuntimeOnly(values) ==> r == ExpandAll(values, rt)
  {
    if AllRuntimeOnly(values) {
      forall n | n in values
        ensures RewriteEntry(values, rt, values[n]) == ExpandEntry(rt, values[n])
      {
        RuntimeOnlyRewrite(values, rt, values[n]);
      }
    }
    var entries: Entries := map[];
    var todo := values.Keys;
    while todo != {}
      invariant todo <= values.Keys && entries.Keys == values.Keys - todo
      invariant forall n :: n in entries ==> RewriteEntry(values, rt, values[n]) == Ok(entries[n])
    {
      var name :| name in todo;
      var entry := values[name];
      var value := ExpandRuntime(values, rt, entry.value);
      if value.Err? {
        assert RewriteEntry(values, rt, values[name]).Err?;
        return Err;
      }
      todo := todo - {name};
      entries := entries[name := Entry(value.value, entry.sensitive, entry.managed)];
    }
    r := Ok(entries);
    if AllRuntimeOnly(values) {
      AllExpanded(values, entries, rt);
    }
  }

  lemma RuntimeOnlyRewrite(values: Entries, rt: Runtime, entry: Entry)
    requires AllRuntimeOnly(values) && RuntimeOnly(entry.value)
    ensures RewriteEntry(values, rt, entry) == ExpandEntry(rt, entry)
  {
    NothingNamed(values, rt, entry.value);
    ExpandRuntimeIsExact(values, rt, entry.value);
    ExpandIgnoresNames(values, rt, entry.value);
  }

  lemma NothingNamed(values: Entries, rt: Runtime, text: Text)
    requires RuntimeOnly(text)
    ensures !Misplaced(values, rt, text)
  {
    forall j, r | 0 <= j < |text|
      ensures !Named(values, text[..j], r)
    {
      assert forall i :: 0 <= i < |text[..j]| ==> text[..j][i] == text[i];
    }
  }

  lemma AllExpanded(values: Entries, entries: Entries, rt: Runtime)
    requires entries.Keys == values.Keys
    requires forall n :: n in values ==> ExpandEntry(rt, values[n]) == Ok(entries[n])
    ensures ExpandAll(values, rt) == Ok(entries)
  {
    assert Expandable(values, rt);
    assert entries == ExpandAll(values, rt).value;
  }

  // ----- Later runtimes -----

  /**
    `late` knows at least what `early` knew: ports stay bound to the same
    number, and every port bound or deferred later was bound or deferred before.
  */
  predicate Refines(early: Runtime, late: Runtime) {
    && early.project == late.project && early.branch == late.branch && early.scope == late.scope
    && early.routes == late.routes
    && (forall n :: n in early.ports ==> n in late.ports && late.ports[n] == early.ports[n])
    && late.ports.Keys + late.deferredPorts <= early.ports.Keys + early.deferredPorts
  }

  /** `early` either defers every runtime reference or knows less than `late`. */
  predicate Earlier(early: Config, late: Runtime) {
    early.deferRuntime || Refines(early.runtime, late)
  }

  /** Expanding the early result with the late runtime gives the late result, failures included. */
  ghost predicate StagedAs(early: Result<Piece>, late: Runtime, direct: Result<Piece>) {
    match early
    case Err => direct.Err?
    case Ok(p) =>
      && RuntimeOnly(p.text)
      && match Expand(map[], late, p.text)
         case Err => direct.Err?
         case Ok(text) => direct == Ok(Piece(text, p.sensitive))
  }

  lemma {:induction false} ExpandConcat(rt: Runtime, a: Text, b: Text)
    ensures Expand(map[], rt, a + b)
         == match (Expand(map[], rt, a), Expand(map[], rt, b))
            case (Ok(x), Ok(y)) => Ok(x + y)
            case _ => Err
  {
    if b == [] {
      assert a + b == a;
      assert forall x: Text :: x + [] == x;
    } else {
      var init := b[..|b| - 1];
      ExpandConcat(rt, a, init);
      assert (a + b)[..|a + b| - 1] == a + init;
      assert (a + b)[|a + b| - 1] == b[|b| - 1];
      assert forall x: Text, y: Text, z: Text :: (x + y) + z == x + (y + z);
    }
  }

  lemma ExpandOne(rt: Runtime, s: Segment)
    ensures Expand(map[], rt, [s]) == RuntimePiece(map[], rt, s)
  {
    assert [s][..0] == [];
    assert Expand(map[], rt, []) == Ok([]);
    assert forall x: Text :: [] + x == x;
  }

  lemma StagedSegment(cfg: Config, late: Runtime, r: Reference)
    requires Earlier(cfg, late) && !r.Env?
    ensures RuntimeValue(r, cfg).Err? ==> Lookup(r, late).Err?
    ensures RuntimeValue(r, cfg).Ok? ==>
              && RuntimeOnly([RuntimeValue(r, cfg).value])
              && Expand(map[], late, [RuntimeValue(r, cfg).value])
                 == match Lookup(r, late) { case Ok(v) => Ok([v]) case Err => Err }
  {
    if RuntimeValue(r, cfg).Ok? {
      ExpandOne(late, RuntimeValue(r, cfg).value);
    }
  }

  lemma StagedLeaf(entries: Entries, cfg: Config, late: Runtime, s: Segment, visiting: set<string>)
    requires Earlier(cfg, late) && !(s.Ref? && s.reference.Env?)
    ensures StagedAs(EvalSegment(entries, cfg, s, visiting), late,
                     EvalSegment(entries, Config(late, false), s, visiting))
  {
    match s {
      case Lit(_) => ExpandOne(late, s);
      case Ref(r) => StagedSegment(cfg, late, r);
    }
  }

  lemma {:induction false} StagedText(entries: Entries, cfg: Config, late: Runtime, text: Text, visiting: set<string>)
    requires Earlier(cfg, late)
    ensures StagedAs(EvalText(entries, cfg, text, visiting), late,
                     EvalText(entries, Config(late, false), text, visiting))
    decreases entries.Keys - visiting, 1, |text|
  {
    if text == [] {
    } else {
      var init, s := text[..|text| - 1], text[|text| - 1];
      StagedText(entries, cfg, late, init, visiting);
      if s.Ref? && s.reference.Env? {
        StagedEnv(entries, cfg, late, s.reference.name, visiting);
      } else {
        StagedLeaf(entries, cfg, late, s, visiting);
      }
      StagedJoin(EvalText(entries, cfg, init, visiting), EvalSegment(entries, cfg, s, visiting), late,
                 EvalText(entries, Config(late, false), init, visiting),
                 EvalSegment(entries, Config(late, false), s, visiting));
    }
  }

  lemma StagedJoin(a: Result<Piece>, b: Result<Piece>, late: Runtime, a': Result<Piece>, b': Result<Piece>)
    requires StagedAs(a, late, a') && StagedAs(b, late, b')
    ensures StagedAs(Join(a, b), late, Join(a', b'))
  {
    if a.Ok? && b.Ok? {
      ExpandConcat(late, a.value.text, b.value.text);
    }
  }

  function Join(a: Result<Piece>, b: Result<Piece>): Result<Piece> {
    var x :- a;
    var y :- b;
    Ok(Piece(x.text + y.text, x.sensitive || y.sensitive))
  }

  function AsPiece(e: Result<Entry>): Result<Piece> {
    var x :- e;
    Ok(Piece(x.value, x.sensitive))
  }

  lemma {:induction false} StagedEnv(entries: Entries, cfg: Config, late: Runtime, name: string, visiting: set<string>)
    requires Earlier(cfg, late)
    ensures StagedAs(AsPiece(EvalEnv(entries, cfg, name, visiting)), late,
                     AsPiece(EvalEnv(entries, Config(late, false), name, visiting)))
    decreases entries.Keys - visiting, 0
  {
    if name !in visiting && name in entries {
      assert name in entries.Keys - visiting;
      StagedText(entries, cfg, late, entries[name].value, visiting + {name});
    }
  }

  // ----- Clean templates never become malformed -----

  ghost predicate CleanEntries(entries: Entries) {
    forall n :: n in entries ==> CleanText(entries[n].value)
  }

  lemma {:induction false} EvalTextClean(entries: Entries, cfg: Config, text: Text, visiting: set<string>)
    requires CleanEntries(entries) && CleanRuntime(cfg.runtime) && CleanText(text)
    requires EvalText(entries, cfg, text, visiting).Ok?
    ensures CleanText(EvalText(entries, cfg, text, visiting).value.text)
    decreases entries.Keys - visiting, |text|
  {
    if text == [] {
    } else {
      EvalTextClean(entries, cfg, text[..|text| - 1], visiting);
      var s := text[|text| - 1];
      assert EvalSegment(entries, cfg, s, visiting).Ok?;
      if s.Ref? && s.reference.Env? {
        var m := s.reference.name;
        assert EvalEnv(entries, cfg, m, visiting).Ok?;
        assert m in entries.Keys - visiting;
        EvalTextClean(entries, cfg, entries[m].value, visiting + {m});
      } else if s.Ref? {
        LookupClean(s.reference, cfg.runtime);
      }
    }
  }

  lemma {:induction false} ExpandClean(rt: Runtime, text: Text)
    requires CleanText(text) && CleanRuntime(rt) && RuntimeOnly(text) && Expand(map[], rt, text).Ok?
    ensures CleanText(Expand(map[], rt, text).value) && RuntimeOnly(Expand(map[], rt, text).value)
  {
    if text == [] {
    } else {
      var s := text[|text| - 1];
      ExpandClean(rt, text[..|text| - 1]);
      if s.Ref? {
        assert s.reference.IsRuntime();
        LookupClean(s.reference, rt);
        RuntimeValueIsSettled(s.reference, Config(rt, false));
      }
    }
  }

  // ----- The staged result is the direct one -----

  /** Values ready for another round. */
  ghost predicate Ready(values: Entries) {
    AllRuntimeOnly(values) && CleanEntries(values)
  }

  function ResolveAll(entries: Entries, cfg: Config): Result<Entries> {
    if forall n :: n in entries ==> Meaning(entries, cfg, n).Ok? then Ok(Meanings(entries, cfg)) else Err
  }

  lemma ResolvedReady(entries: Entries, cfg: Config, late: Runtime)
    requires CleanEntries(entries) && CleanRuntime(cfg.runtime) && Earlier(cfg, late)
    requires ResolveAll(entries, cfg).Ok?
    ensures Ready(ResolveAll(entries, cfg).value)
  {
    forall n | n in entries
      ensures RuntimeOnly(Meaning(entries, cfg, n).value.value) && CleanText(Meaning(entries, cfg, n).value.value)
    {
      StagedEnv(entries, cfg, late, n, {});
      EvalTextClean(entries, cfg, entries[n].value, {} + {n});
    }
  }

  /** One round: resolve early, expand with the late runtime. */
  lemma ResolveThenExpand(entries: Entries, cfg: Config, late: Runtime)
    requires CleanEntries(entries) && CleanRuntime(cfg.runtime) && Earlier(cfg, late)
    ensures match ResolveAll(entries, cfg)
            case Err => ResolveAll(entries, Config(late, false)).Err?
            case Ok(values) => ExpandAll(values, late) == ResolveAll(entries, Config(late, false))
  {
    forall n | n in entries
      ensures StagedEntry(Meaning(entries, cfg, n), late, Meaning(entries, Config(late, false), n))
    {
      StagedEnv(entries, cfg, late, n, {});
      if Meaning(entries, cfg, n).Ok? {
        EvalTextClean(entries, cfg, entries[n].value, {} + {n});
      }
    }
    if ResolveAll(entries, cfg).Ok? {
      var values := ResolveAll(entries, cfg).value;
      assert forall n :: n in entries ==> values[n] == Meaning(entries, cfg, n).value;
      if Expandable(values, late) {
        assert ExpandAll(values, late).value == Meanings(entries, Config(late, false));
      }
    }
  }

  ghost predicate StagedEntry(early: Result<Entry>, late: Runtime, direct: Result<Entry>) {
    match early
    case Err => direct.Err?
    case Ok(e) => ExpandEntry(late, e) == direct
  }

  /** A further round changes nothing about the final result. */
  lemma ExpandThenExpand(values: Entries, early: Runtime, late: Runtime)
    requires Ready(values) && CleanRuntime(early) && Refines(early, late)
    ensures match ExpandAll(values, early)
            case Err => ExpandAll(values, late).Err?
            case Ok(next) => Ready(next) && ExpandAll(next, late) == ExpandAll(values, late)
  {
    forall n | n in values
      ensures StagedEntry(ExpandEntry(early, values[n]), late, ExpandEntry(late, values[n]))
      ensures ExpandEntry(early, values[n]).Ok? ==> ReadyText(ExpandEntry(early, values[n]).value.value)
    {
      ExpandEntryTwice(early, late, values[n]);
    }
    if Expandable(values, early) {
      var next := ExpandAll(values, early).value;
      assert forall n :: n in values ==> Ok(next[n]) == ExpandEntry(early, values[n]);
      assert forall n :: n in next ==> ReadyText(next[n].value);
      StagedMaps(values, next, late);
    }
  }

  predicate ReadyText(text: Text) {
    RuntimeOnly(text) && CleanText(text)
  }

  lemma ExpandEntryTwice(early: Runtime, late: Runtime, entry: Entry)
    requires ReadyText(entry.value) && CleanRuntime(early) && Refines(early, late)
    ensures StagedEntry(ExpandEntry(early, entry), late, ExpandEntry(late, entry))
    ensures ExpandEntry(early, entry).Ok? ==> ReadyText(ExpandEntry(early, entry).value.value)
  {
    ExpandTwice(early, late, entry.value);
    if Expand(map[], early, entry.value).Ok? {
      ExpandClean(early, entry.value);
    }
  }

  lemma StagedMaps(values: Entries, next: Entries, late: Runtime)
    requires next.Keys == values.Keys
    requires forall n :: n in values ==> ExpandEntry(late, next[n]) == ExpandEntry(late, values[n])
    ensures ExpandAll(next, late) == ExpandAll(values, late)
  {
    if Expandable(values, late) {
      assert ExpandAll(next, late).value == ExpandAll(values, late).value;
    }
  }

  lemma {:induction false} ExpandTwice(early: Runtime, late: Runtime, text: Text)
    requires Refines(early, late) && RuntimeOnly(text)
    ensures match Expand(map[], early, text)
            case Err => Expand(map[], late, text).Err?
            case Ok(t) => Expand(map[], late, t) == Expand(map[], late, text)
  {
    if text == [] {
    } else {
      var init, s := text[..|text| - 1], text[|text| - 1];
      ExpandTwice(early, late, init);
      match s {
        case Lit(_) => ExpandOne(late, s);
        case Ref(r) =>
          assert r.IsRuntime();
          StagedSegment(Config(early, false), late, r);
      }
      if Expand(map[], early, text).Ok? {
        ExpandConcat(late, Expand(map[], early, init).value, RuntimePiece(map[], early, s).value);
      }
    }
  }

  function ExpandRounds(values: Entries, rounds: seq<Runtime>): Result<Entries> {
    if rounds == [] then Ok(values)
    else
      var next :- ExpandAll(values, rounds[0]);
      ExpandRounds(next, rounds[1..])
  }

  lemma {:induction false} RoundsAreOne(values: Entries, rounds: seq<Runtime>, last: Runtime)
    requires Ready(values) && forall i :: 0 <= i < |rounds| ==> CleanRuntime(rounds[i]) && Refines(rounds[i], last)
    ensures ExpandRounds(values, rounds + [last]) == ExpandAll(values, last)
  {
    if rounds == [] {
      assert (rounds + [last])[1..] == [];
    } else {
      ExpandThenExpand(values, rounds[0], last);
      assert (rounds + [last])[1..] == rounds[1..] + [last];
      if ExpandAll(values, rounds[0]).Ok? {
        RoundsAreOne(ExpandAll(values, rounds[0]).value, rounds[1..], last);
      }
    }
  }

  /**
    Staged substitution is faithful: resolving with `early` settings and then
    expanding in any number of rounds, each knowing no more than the last,
    gives what resolving once with the last runtime gives: the same values,
    the same sensitivity, and the same success or failure.
  */
  lemma StagedSubstitutionIsFaithful(entries: Entries, early: Config, rounds: seq<Runtime>, last: Runtime)
    requires CleanEntries(entries) && CleanRuntime(early.runtime) && Earlier(early, last)
    requires forall i :: 0 <= i < |rounds| ==> CleanRuntime(rounds[i]) && Refines(rounds[i], last)
    ensures var direct := ResolveAll(entries, Config(last, false));
            match ResolveAll(entries, early)
            case Err => direct.Err?
            case Ok(values) => ExpandRounds(values, rounds + [last]) == direct
  {
    ResolveThenExpand(entries, early, last);
    if ResolveAll(entries, early).Ok? {
      ResolvedReady(entries, early, last);
      RoundsAreOne(ResolveAll(entries, early).value, rounds, last);
    }
  }
}
