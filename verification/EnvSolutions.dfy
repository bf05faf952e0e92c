/**
  Resolution and expansion said without evaluating anything: the resolved
  values are the one assignment that satisfies every entry's own equation.
*/
module EnvSolutions {
  import opened Graphs
  import opened Templates
  import opened EnvLookups
  import opened EnvMeaning
  import opened EnvResolver
  import opened EnvStages

  /** Texts that names may be replaced by. */
  type Names = map<string, Text>

  ghost predicate IsPart(names: Names, cfg: Config, s: Segment, part: Text) {
    match s
    case Lit(_) => part == [s]
    case Ref(Env(m)) => m in names && part == names[m]
    case Ref(r) => |part| == 1 && Denotes(r, cfg, part[0])
  }

  ghost predicate PartAt(names: Names, cfg: Config, text: Text, value: Text, at: seq<nat>, i: nat)
    requires i < |text| && |at| == |text| + 1
  {
    at[i] <= at[i + 1] <= |value| && IsPart(names, cfg, text[i], value[at[i]..at[i + 1]])
  }

  /** `value` falls into one part for each segment of `text`, cut at the positions `at`. */
  ghost predicate Cut(names: Names, cfg: Config, text: Text, value: Text, at: seq<nat>) {
    && |at| == |text| + 1 && at[0] == 0 && at[|text|] == |value|
    && forall i :: 0 <= i < |text| ==> PartAt(names, cfg, text, value, at, i)
  }

  ghost predicate Filled(names: Names, cfg: Config, text: Text, value: Text) {
    exists at :: Cut(names, cfg, text, value, at)
  }

  lemma CutAppend(names: Names, cfg: Config, text: Text, value: Text, at: seq<nat>, s: Segment, part: Text)
    requires Cut(names, cfg, text, value, at) && IsPart(names, cfg, s, part)
    ensures Filled(names, cfg, text + [s], value + part)
  {
    var longer, value', at' := text + [s], value + part, at + [|value| + |part|];
    forall i | 0 <= i < |longer|
      ensures PartAt(names, cfg, longer, value', at', i)
    {
      if i < |text| {
        assert PartAt(names, cfg, text, value, at, i);
        assert value'[at'[i]..at'[i + 1]] == value[at[i]..at[i + 1]];
      } else {
        assert value'[at'[i]..at'[i + 1]] == part;
      }
    }
    assert Cut(names, cfg, longer, value', at');
  }

  lemma CutInit(names: Names, cfg: Config, text: Text, value: Text, at: seq<nat>)
    requires text != [] && Cut(names, cfg, text, value, at)
    ensures var n := |text| - 1;
            && at[n] <= |value| && IsPart(names, cfg, text[n], value[at[n]..])
            && Cut(names, cfg, text[..n], value[..at[n]], at[..n + 1])
  {
    var n := |text| - 1;
    assert PartAt(names, cfg, text, value, at, n);
    assert value[at[n]..at[n + 1]] == value[at[n]..];
    CutRises(names, cfg, text, value, at, n);
    var init, value', at' := text[..n], value[..at[n]], at[..n + 1];
    forall i | 0 <= i < n
      ensures PartAt(names, cfg, init, value', at', i)
    {
      assert PartAt(names, cfg, text, value, at, i);
      assert value'[at[i]..at[i + 1]] == value[at[i]..at[i + 1]];
    }
  }

  lemma {:induction false} CutRises(names: Names, cfg: Config, text: Text, value: Text, at: seq<nat>, k: nat)
    requires Cut(names, cfg, text, value, at) && k <= |text|
    ensures forall i :: 0 <= i <= k ==> at[i] <= at[k]
  {
    if k > 0 {
      CutRises(names, cfg, text, value, at, k - 1);
      assert PartAt(names, cfg, text, value, at, k - 1);
    }
  }

  // ----- Resolution -----

  function Texts(values: Entries): Names {
    map n | n in values :: values[n].value
  }

  ghost predicate NamesSensitive(values: Entries, text: Text) {
    exists m :: Ref(Env(m)) in text && m in values && values[m].sensitive
  }

  /** What entry `e` demands of its resolved value `v`, given the resolved values of the others. */
  ghost predicate Meets(values: Entries, cfg: Config, e: Entry, v: Entry) {
    && !Malformed(e.value) && Filled(Texts(values), cfg, e.value, v.value)
    && (v.sensitive <==> e.sensitive || NamesSensitive(values, e.value))
    && v.managed == e.managed
  }

  ghost predicate Solves(entries: Entries, cfg: Config, values: Entries) {
    values.Keys == entries.Keys && forall n :: n in entries ==> Meets(values, cfg, entries[n], values[n])
  }

  /** With fewer names on the way an entry that has a value keeps it. */
  lemma {:induction false} EvalWithFewer(entries: Entries, cfg: Config, name: string, visiting: set<string>,
                                         fewer: set<string>)
    requires fewer <= visiting && EvalEnv(entries, cfg, name, visiting).Ok?
    ensures EvalEnv(entries, cfg, name, fewer) == EvalEnv(entries, cfg, name, visiting)
    decreases entries.Keys - visiting, 1, 0
  {
    assert name in entries.Keys - visiting;
    TextWithFewer(entries, cfg, entries[name].value, visiting + {name}, fewer + {name});
  }

  lemma {:induction false} TextWithFewer(entries: Entries, cfg: Config, text: Text, visiting: set<string>,
                                         fewer: set<string>)
    requires fewer <= visiting && EvalText(entries, cfg, text, visiting).Ok?
    ensures EvalText(entries, cfg, text, fewer) == EvalText(entries, cfg, text, visiting)
    decreases entries.Keys - visiting, 2, |text|
  {
    if text == [] {
    } else {
      TextWithFewer(entries, cfg, text[..|text| - 1], visiting, fewer);
      match text[|text| - 1] {
        case Ref(Env(m)) => EvalWithFewer(entries, cfg, m, visiting, fewer);
        case _ =>
      }
    }
  }

  /** Every name in `text` has its value in `values`, whatever is being visited. */
  ghost predicate Agrees(entries: Entries, cfg: Config, values: Entries, text: Text, visiting: set<string>) {
    forall m :: Ref(Env(m)) in text ==> m in values && EvalEnv(entries, cfg, m, visiting) == Ok(values[m])
  }

  lemma AgreesInit(entries: Entries, cfg: Config, values: Entries, text: Text, visiting: set<string>)
    requires text != [] && Agrees(entries, cfg, values, text, visiting)
    ensures Agrees(entries, cfg, values, text[..|text| - 1], visiting)
  {
    forall m | Ref(Env(m)) in text[..|text| - 1]
      ensures Ref(Env(m)) in text
    {
    }
  }

  /** One segment evaluates to its part. */
  lemma SegmentIsPart(entries: Entries, cfg: Config, values: Entries, text: Text, i: nat, visiting: set<string>,
                      part: Text)
    requires i < |text| && Agrees(entries, cfg, values, text, visiting)
    ensures IsPart(Texts(values), cfg, text[i], part)
       <==> EvalSegment(entries, cfg, text[i], visiting).Ok?
            && EvalSegment(entries, cfg, text[i], visiting).value.text == part
  {
    match text[i] {
      case Lit(_) =>
      case Ref(Env(m)) => assert Ref(Env(m)) in text;
      case Ref(r) =>
        if |part| == 1 {
          RuntimeValueDenotes(r, cfg, part[0]);
          assert part == [part[0]];
        }
    }
  }

  lemma {:induction false} EvalTextFills(entries: Entries, cfg: Config, values: Entries, text: Text,
                                         visiting: set<string>)
    requires Agrees(entries, cfg, values, text, visiting) && EvalText(entries, cfg, text, visiting).Ok?
    ensures Filled(Texts(values), cfg, text, EvalText(entries, cfg, text, visiting).value.text)
  {
    var value := EvalText(entries, cfg, text, visiting).value.text;
    if text == [] {
      assert Cut(Texts(values), cfg, text, value, [0]);
    } else {
      var n := |text| - 1;
      AgreesInit(entries, cfg, values, text, visiting);
      EvalTextFills(entries, cfg, values, text[..n], visiting);
      var before := EvalText(entries, cfg, text[..n], visiting).value.text;
      var at :| Cut(Texts(values), cfg, text[..n], before, at);
      var part := EvalSegment(entries, cfg, text[n], visiting).value.text;
      SegmentIsPart(entries, cfg, values, text, n, visiting, part);
      CutAppend(Texts(values), cfg, text[..n], before, at, text[n], part);
      assert text == text[..n] + [text[n]];
    }
  }

  lemma {:induction false} FilledIsEvalText(entries: Entries, cfg: Config, values: Entries, text: Text,
                                            visiting: set<string>, value: Text, at: seq<nat>)
    requires Agrees(entries, cfg, values, text, visiting) && EvalText(entries, cfg, text, visiting).Ok?
    requires Cut(Texts(values), cfg, text, value, at)
    ensures EvalText(entries, cfg, text, visiting).value.text == value
  {
    if text == [] {
    } else {
      var n := |text| - 1;
      CutInit(Texts(values), cfg, text, value, at);
      AgreesInit(entries, cfg, values, text, visiting);
      FilledIsEvalText(entries, cfg, values, text[..n], visiting, value[..at[n]], at[..n + 1]);
      SegmentIsPart(entries, cfg, values, text, n, visiting, value[at[n]..]);
      assert value == value[..at[n]] + value[at[n]..];
    }
  }

  lemma TextSensitive(entries: Entries, cfg: Config, values: Entries, text: Text, visiting: set<string>)
    requires Agrees(entries, cfg, values, text, visiting) && EvalText(entries, cfg, text, visiting).Ok?
    ensures EvalText(entries, cfg, text, visiting).value.sensitive <==> NamesSensitive(values, text)
  {
    EvalTextSensitive(entries, cfg, text, visiting);
    if i :| 0 <= i < |text| && EvalSegment(entries, cfg, text[i], visiting).value.sensitive {
      assert text[i].Ref? && text[i].reference.Env? && Ref(Env(text[i].reference.name)) in text;
    }
    if m :| Ref(Env(m)) in text && m in values && values[m].sensitive {
      var i :| 0 <= i < |text| && text[i] == Ref(Env(m));
      assert EvalSegment(entries, cfg, text[i], visiting).value.sensitive;
    }
  }

  /** The meanings satisfy every equation. */
  lemma MeaningsSolve(entries: Entries, cfg: Config)
    requires ResolveAll(entries, cfg).Ok?
    ensures Solves(entries, cfg, ResolveAll(entries, cfg).value)
  {
    var values := ResolveAll(entries, cfg).value;
    forall n | n in entries
      ensures Meets(values, cfg, entries[n], values[n])
    {
      var text, visiting := entries[n].value, {} + {n};
      EvalTextOk(entries, cfg, text, visiting);
      forall m | Ref(Env(m)) in text
        ensures m in values && EvalEnv(entries, cfg, m, visiting) == Ok(values[m])
      {
        var i :| 0 <= i < |text| && text[i] == Ref(Env(m));
        assert EvalSegment(entries, cfg, text[i], visiting).Ok?;
        EvalWithFewer(entries, cfg, m, visiting, {});
      }
      EvalTextFills(entries, cfg, values, text, visiting);
      TextSensitive(entries, cfg, values, text, visiting);
    }
  }

  /** Whatever satisfies every equation gives an entry the value it evaluates to. */
  lemma {:induction false} SolutionIsValue(entries: Entries, cfg: Config, values: Entries, name: string,
                                           visiting: set<string>)
    requires Solves(entries, cfg, values) && EvalEnv(entries, cfg, name, visiting).Ok?
    ensures EvalEnv(entries, cfg, name, visiting) == Ok(values[name])
    decreases entries.Keys - visiting
  {
    var text, inner := entries[name].value, visiting + {name};
    assert name in entries.Keys - visiting;
    assert Meets(values, cfg, entries[name], values[name]);
    EvalTextOk(entries, cfg, text, inner);
    forall m | Ref(Env(m)) in text
      ensures m in values && EvalEnv(entries, cfg, m, inner) == Ok(values[m])
    {
      var i :| 0 <= i < |text| && text[i] == Ref(Env(m));
      assert EvalSegment(entries, cfg, text[i], inner).Ok?;
      SolutionIsValue(entries, cfg, values, m, inner);
    }
    var at :| Cut(Texts(values), cfg, text, values[name].value, at);
    FilledIsEvalText(entries, cfg, values, text, inner, values[name].value, at);
    TextSensitive(entries, cfg, values, text, inner);
  }

  lemma SolutionIsDefined(entries: Entries, cfg: Config, values: Entries)
    requires Solves(entries, cfg, values)
    ensures AllDefined(entries, cfg)
  {
    forall n | n in entries
      ensures EntryDefined(entries, cfg, n)
    {
      var text := entries[n].value;
      assert Meets(values, cfg, entries[n], values[n]);
      var at :| Cut(Texts(values), cfg, text, values[n].value, at);
      forall i | 0 <= i < |text|
        ensures SegmentDefined(entries, cfg, text[i])
      {
        assert PartAt(Texts(values), cfg, text, values[n].value, at, i);
        if text[i].Ref? && !text[i].reference.Env? {
          RuntimeValueDenotes(text[i].reference, cfg, values[n].value[at[i]..at[i + 1]][0]);
        }
      }
    }
  }

  lemma SolutionIsResolved(entries: Entries, cfg: Config, values: Entries)
    requires Acyclic(ReferenceGraph(entries), entries.Keys) && Solves(entries, cfg, values)
    ensures ResolveAll(entries, cfg) == Ok(values)
  {
    SolutionIsDefined(entries, cfg, values);
    SucceedsExactlyWhen(entries, cfg);
    forall n | n in entries
      ensures Meaning(entries, cfg, n) == Ok(values[n])
    {
      SolutionIsValue(entries, cfg, values, n, {});
    }
    assert Meanings(entries, cfg) == values;
  }

  /**
    Resolution returns `values` exactly when no entry refers to itself and
    `values` satisfies every entry's equation; there is one such assignment.
  */
  lemma ResolutionIsTheSolution(entries: Entries, cfg: Config, values: Entries)
    ensures ResolveAll(entries, cfg) == Ok(values)
       <==> Acyclic(ReferenceGraph(entries), entries.Keys) && Solves(entries, cfg, values)
  {
    if ResolveAll(entries, cfg) == Ok(values) {
      MeaningsSolve(entries, cfg);
      SucceedsExactlyWhen(entries, cfg);
    }
    if Acyclic(ReferenceGraph(entries), entries.Keys) && Solves(entries, cfg, values) {
      SolutionIsResolved(entries, cfg, values);
    }
  }

  // ----- Expansion -----

  /** The values that runtime text may show. */
  function Shown(env: Entries): Names {
    map n | n in env && !env[n].sensitive :: env[n].value
  }

  lemma PieceIsPart(env: Entries, rt: Runtime, s: Segment, part: Text)
    ensures RuntimePiece(env, rt, s) == Ok(part) <==> IsPart(Shown(env), Config(rt, false), s, part)
  {
    match s {
      case Ref(r) =>
        if |part| == 1 {
          RuntimeValueDenotes(r, Config(rt, false), part[0]);
          assert part == [part[0]];
        }
      case _ =>
    }
  }

  // ----- One reference alone -----

  /** An entry that is one runtime reference. */
  lemma ReferenceAlone(entries: Entries, cfg: Config, name: string, r: Reference, s: Segment)
    requires name in entries && entries[name].value == [Ref(r)] && r.IsRuntime()
    ensures Meaning(entries, cfg, name) == Ok(entries[name].(value := [s])) <==> Denotes(r, cfg, s)
  {
    var text, visiting := [Ref(r)], {} + {name};
    assert HasReference(text) by { assert text[0].Ref?; }
    RuntimeValueDenotes(r, cfg, s);
    assert text[..0] == [] && EvalText(entries, cfg, [], visiting) == Ok(Piece([], false));
    if RuntimeValue(r, cfg).Ok? {
      var v: Text := [RuntimeValue(r, cfg).value];
      assert EvalSegment(entries, cfg, text[0], visiting) == Ok(Piece(v, false));
      assert [] + v == v;
      assert EvalText(entries, cfg, text, visiting) == Ok(Piece(v, false));
      assert Meaning(entries, cfg, name) == Ok(entries[name].(value := v));
      assert v == [s] <==> v[0] == s;
    } else {
      assert EvalText(entries, cfg, text, visiting).Err?;
    }
  }

  /** A runtime text that is one reference. */
  lemma RuntimeTextAlone(env: Entries, rt: Runtime, r: Reference, value: Text)
    ensures Rewritten(env, rt, [Ref(r)]) == Ok(value) <==> IsPart(Shown(env), Config(rt, false), Ref(r), value)
  {
    var text := [Ref(r)];
    assert HasReference(text) by { assert text[0].Ref?; }
    PieceIsPart(env, rt, Ref(r), value);
    if RuntimePiece(env, rt, text[0]).Ok? {
      var p := RuntimePiece(env, rt, text[0]).value;
      assert text[1..] == [] && p + [] == p;
      assert ReplaceFirst(text, r, p) == p;
      assert Rewrite(env, rt, text, 1, p) == Ok(p);
    }
  }

  // ----- Expansion, part by part -----

  lemma {:induction false} ExpandIsFilled(env: Entries, rt: Runtime, text: Text)
    requires Expand(env, rt, text).Ok?
    ensures Filled(Shown(env), Config(rt, false), text, Expand(env, rt, text).value)
  {
    var cfg := Config(rt, false);
    if text == [] {
      assert Cut(Shown(env), cfg, text, [], [0]);
    } else {
      var n := |text| - 1;
      ExpandIsFilled(env, rt, text[..n]);
      var before, part := Expand(env, rt, text[..n]).value, RuntimePiece(env, rt, text[n]).value;
      var at :| Cut(Shown(env), cfg, text[..n], before, at);
      PieceIsPart(env, rt, text[n], part);
      CutAppend(Shown(env), cfg, text[..n], before, at, text[n], part);
      assert text == text[..n] + [text[n]];
    }
  }

  lemma {:induction false} FilledIsExpand(env: Entries, rt: Runtime, text: Text, value: Text, at: seq<nat>)
    requires Cut(Shown(env), Config(rt, false), text, value, at)
    ensures Expand(env, rt, text) == Ok(value)
  {
    if text == [] {
    } else {
      var n := |text| - 1;
      CutInit(Shown(env), Config(rt, false), text, value, at);
      FilledIsExpand(env, rt, text[..n], value[..at[n]], at[..n + 1]);
      PieceIsPart(env, rt, text[n], value[at[n]..]);
      assert value == value[..at[n]] + value[at[n]..];
    }
  }

  /** The intended expansion, part by part. */
  lemma ExpansionIsFilled(env: Entries, rt: Runtime, text: Text, value: Text)
    ensures Expand(env, rt, text) == Ok(value) <==> Filled(Shown(env), Config(rt, false), text, value)
  {
    if Expand(env, rt, text) == Ok(value) {
      ExpandIsFilled(env, rt, text);
    }
    if Filled(Shown(env), Config(rt, false), text, value) {
      var at :| Cut(Shown(env), Config(rt, false), text, value, at);
      FilledIsExpand(env, rt, text, value, at);
    }
  }
}
