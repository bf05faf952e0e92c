/** When a literal that holds `${` breaks the stages, for one deferred round. */
module EnvOpenLiterals {
  import opened Graphs
  import opened Templates
  import opened EnvMeaning
  import opened EnvResolver
  import opened EnvStages

  // ----- What an entry reaches -----

  predicate Marks(text: Text, mark: Segment -> bool) {
    exists i :: 0 <= i < |text| && mark(text[i])
  }

  /** The entry, or one it refers to at any depth, holds a segment of the kind. */
  ghost predicate Below(entries: Entries, name: string, mark: Segment -> bool) {
    && name in entries
    && (Marks(entries[name].value, mark)
        || exists m :: m in entries && Marks(entries[m].value, mark) && Reaches(ReferenceGraph(entries), name, m))
  }

  /** The entries with the property written into the sensitivity flag. */
  function Flagged(entries: Entries, mark: Segment -> bool): Entries {
    map n | n in entries :: entries[n].(sensitive := Marks(entries[n].value, mark))
  }

  lemma BelowIsSource(entries: Entries, name: string, mark: Segment -> bool)
    ensures Below(entries, name, mark) <==> SensitiveSource(Flagged(entries, mark), name)
  {
    assert ReferenceGraph(Flagged(entries, mark)) == ReferenceGraph(entries);
  }

  lemma BelowStep(entries: Entries, name: string, mark: Segment -> bool)
    requires name in entries
    ensures Below(entries, name, mark)
       <==> (Marks(entries[name].value, mark)
             || exists m :: Ref(Env(m)) in entries[name].value && Below(entries, m, mark))
  {
    var flagged := Flagged(entries, mark);
    SourceStep(flagged, name);
    BelowIsSource(entries, name, mark);
    forall m
      ensures m in Deps(ReferenceGraph(flagged), name) <==> Ref(Env(m)) in entries[name].value
      ensures SensitiveSource(flagged, m) <==> Below(entries, m, mark)
    {
      EnvRefsMembers(entries[name].value, m);
      BelowIsSource(entries, m, mark);
    }
  }

  // ----- What the deferred value of an entry holds -----

  /** A segment contributes itself, or the value of the entry it names. */
  predicate Brings(entries: Entries, cfg: Config, visiting: set<string>, s: Segment, mark: Segment -> bool) {
    match s
    case Ref(Env(m)) =>
      EvalEnv(entries, cfg, m, visiting).Ok? && Marks(EvalEnv(entries, cfg, m, visiting).value.value, mark)
    case _ => mark(s)
  }

  lemma MarksConcat(a: Text, b: Text, mark: Segment -> bool)
    ensures Marks(a + b, mark) <==> Marks(a, mark) || Marks(b, mark)
  {
    if i :| 0 <= i < |a| && mark(a[i]) {
      assert mark((a + b)[i]);
    }
    if i :| 0 <= i < |b| && mark(b[i]) {
      assert mark((a + b)[|a| + i]);
    }
  }

  lemma SegmentMarks(entries: Entries, cfg: Config, s: Segment, visiting: set<string>, mark: Segment -> bool)
    requires cfg.deferRuntime && EvalSegment(entries, cfg, s, visiting).Ok?
    requires forall t :: mark(t) ==> t.Lit? || t.reference.IsRuntime()
    ensures Marks(EvalSegment(entries, cfg, s, visiting).value.text, mark) <==> Brings(entries, cfg, visiting, s, mark)
  {
    if !(s.Ref? && s.reference.Env?) {
      assert EvalSegment(entries, cfg, s, visiting).value.text == [s];
      assert mark(s) ==> mark([s][0]);
    }
  }

  lemma {:induction false} TextMarks(entries: Entries, cfg: Config, text: Text, visiting: set<string>,
                                     mark: Segment -> bool)
    requires cfg.deferRuntime && EvalText(entries, cfg, text, visiting).Ok?
    requires forall t :: mark(t) ==> t.Lit? || t.reference.IsRuntime()
    ensures Marks(EvalText(entries, cfg, text, visiting).value.text, mark)
       <==> exists i :: 0 <= i < |text| && Brings(entries, cfg, visiting, text[i], mark)
  {
    if text == [] {
    } else {
      var init, s := text[..|text| - 1], text[|text| - 1];
      TextMarks(entries, cfg, init, visiting, mark);
      SegmentMarks(entries, cfg, s, visiting, mark);
      MarksConcat(EvalText(entries, cfg, init, visiting).value.text,
                  EvalSegment(entries, cfg, s, visiting).value.text, mark);
      if i :| 0 <= i < |init| && Brings(entries, cfg, visiting, init[i], mark) {
        assert Brings(entries, cfg, visiting, text[i], mark);
      }
      if i :| 0 <= i < |text| && Brings(entries, cfg, visiting, text[i], mark) {
        assert i < |init| ==> Brings(entries, cfg, visiting, init[i], mark);
      }
    }
  }

  /** The deferred value holds a segment of the kind exactly when the entry, or something it reaches, does. */
  lemma {:induction false} ValueMarks(entries: Entries, cfg: Config, name: string, visiting: set<string>,
                                      mark: Segment -> bool)
    requires cfg.deferRuntime && EvalEnv(entries, cfg, name, visiting).Ok?
    requires forall t :: mark(t) ==> t.Lit? || t.reference.IsRuntime()
    ensures Marks(EvalEnv(entries, cfg, name, visiting).value.value, mark) <==> Below(entries, name, mark)
    decreases entries.Keys - visiting
  {
    var text, inner := entries[name].value, visiting + {name};
    assert name in entries.Keys - visiting;
    TextMarks(entries, cfg, text, inner, mark);
    BelowStep(entries, name, mark);
    EvalTextOk(entries, cfg, text, inner);
    forall i | 0 <= i < |text|
      ensures Brings(entries, cfg, inner, text[i], mark)
         <==> BelowSegment(entries, text[i], mark)
    {
      assert EvalSegment(entries, cfg, text[i], inner).Ok?;
      match text[i] {
        case Ref(Env(m)) => ValueMarks(entries, cfg, m, inner, mark);
        case _ =>
      }
    }
    BroughtBelow(entries, name, mark);
  }

  ghost predicate BelowSegment(entries: Entries, s: Segment, mark: Segment -> bool) {
    mark(s) || (s.Ref? && s.reference.Env? && Below(entries, s.reference.name, mark))
  }

  lemma BroughtBelow(entries: Entries, name: string, mark: Segment -> bool)
    requires name in entries
    ensures (exists i :: 0 <= i < |entries[name].value| && BelowSegment(entries, entries[name].value[i], mark))
       <==> (Marks(entries[name].value, mark)
             || exists m :: Ref(Env(m)) in entries[name].value && Below(entries, m, mark))
  {
    var text := entries[name].value;
    if m :| Ref(Env(m)) in text && Below(entries, m, mark) {
      var i :| 0 <= i < |text| && text[i] == Ref(Env(m));
    }
    if i :| 0 <= i < |text| && BelowSegment(entries, text[i], mark) {
      assert mark(text[i]) || Ref(Env(text[i].reference.name)) in text;
    }
  }

  // ----- One deferred round -----

  function OpenLiteral(s: Segment): bool {
    s.Lit? && HasOpen(s.text)
  }

  function RuntimeReference(s: Segment): bool {
    s.Ref? && s.reference.IsRuntime()
  }

  /** With all it reaches, the entry holds an open literal and no runtime reference. */
  ghost predicate Hollow(entries: Entries, name: string) {
    Below(entries, name, OpenLiteral) && !Below(entries, name, RuntimeReference)
  }

  /** Resolve with runtime references deferred, then expand once. */
  function Staged(entries: Entries, rt: Runtime, late: Runtime): Result<Entries> {
    var values :- ResolveAll(entries, Config(rt, true));
    ExpandAll(values, late)
  }

  lemma DeferredIsMalformed(entries: Entries, rt: Runtime, late: Runtime, name: string)
    requires Meaning(entries, Config(rt, true), name).Ok?
    ensures Malformed(Meaning(entries, Config(rt, true), name).value.value) <==> Hollow(entries, name)
  {
    var cfg := Config(rt, true);
    var value := Meaning(entries, cfg, name).value.value;
    ValueMarks(entries, cfg, name, {}, OpenLiteral);
    ValueMarks(entries, cfg, name, {}, RuntimeReference);
    StagedEnv(entries, cfg, late, name, {});
    assert RuntimeOnly(value);
    assert HasReference(value) <==> Marks(value, RuntimeReference);
  }

  /** One entry: expanding its deferred value gives the direct meaning unless the entry is hollow. */
  lemma EntryStaged(entries: Entries, rt: Runtime, late: Runtime, name: string)
    requires Meaning(entries, Config(rt, true), name).Ok?
    ensures var staged := ExpandEntry(late, Meaning(entries, Config(rt, true), name).value);
            staged == if Hollow(entries, name) then Err else Meaning(entries, Config(late, false), name)
  {
    StagedEnv(entries, Config(rt, true), late, name, {});
    DeferredIsMalformed(entries, rt, late, name);
  }

  /**
    For all entries and runtimes: one deferred round gives what resolving once
    gives exactly when the latter fails or no entry is hollow. A hollow entry
    makes the round fail.
  */
  lemma DeferredRoundIsExact(entries: Entries, rt: Runtime, late: Runtime)
    ensures var direct := ResolveAll(entries, Config(late, false));
            && (Staged(entries, rt, late) == direct
                <==> (direct.Ok? ==> forall n :: n in entries ==> !Hollow(entries, n)))
            && (direct.Err? || (exists n :: n in entries && Hollow(entries, n)) ==> Staged(entries, rt, late).Err?)
  {
    var direct := ResolveAll(entries, Config(late, false));
    forall n | n in entries && Meaning(entries, Config(rt, true), n).Err?
      ensures Meaning(entries, Config(late, false), n).Err?
    {
      StagedEnv(entries, Config(rt, true), late, n, {});
    }
    if ResolveAll(entries, Config(rt, true)).Ok? {
      var values := ResolveAll(entries, Config(rt, true)).value;
      forall n | n in entries
        ensures n in values
        ensures ExpandEntry(late, values[n])
             == (if Hollow(entries, n) then Err else Meaning(entries, Config(late, false), n))
      {
        EntryStaged(entries, rt, late, n);
      }
      RoundCollects(entries, values, late);
    }
  }

  lemma RoundCollects(entries: Entries, values: Entries, late: Runtime)
    requires values.Keys == entries.Keys
    requires forall n :: n in entries ==>
               ExpandEntry(late, values[n])
               == (if Hollow(entries, n) then Err else Meaning(entries, Config(late, false), n))
    ensures if exists n :: n in entries && Hollow(entries, n) then ExpandAll(values, late).Err?
            else ExpandAll(values, late) == ResolveAll(entries, Config(late, false))
  {
    if n :| n in entries && Hollow(entries, n) {
      assert ExpandEntry(late, values[n]).Err?;
    } else {
      RoundGoesThrough(entries, values, late);
    }
  }

  lemma RoundGoesThrough(entries: Entries, values: Entries, late: Runtime)
    requires values.Keys == entries.Keys
    requires forall n :: n in entries ==> ExpandEntry(late, values[n]) == Meaning(entries, Config(late, false), n)
    ensures ExpandAll(values, late) == ResolveAll(entries, Config(late, false))
  {
    if Expandable(values, late) {
      assert forall n :: n in entries ==> Meaning(entries, Config(late, false), n).Ok?;
      assert ExpandAll(values, late).value == Meanings(entries, Config(late, false));
    } else {
      var n :| n in values && ExpandEntry(late, values[n]).Err?;
      assert Meaning(entries, Config(late, false), n).Err?;
    }
  }

  /**
    With `${` inside a literal the stages can fail where one resolution
    succeeds: the first stage removes the only reference, and the second then
    takes the literal for a malformed interpolation.
  */
  lemma OpenLiteralBreaksStages()
    ensures exists entries: Entries, rt ::
              && ResolveAll(entries, Config(rt, true)).Ok?
              && ResolveAll(entries, Config(rt, false)).Ok?
              && ExpandAll(ResolveAll(entries, Config(rt, true)).value, rt).Err?
  {
    var rt := Runtime("p", "b", "s", map[], {}, []);
    var text := [Ref(Env("Y")), Lit("${")];
    var entries: Entries := map["X" := Entry(text, false, true), "Y" := Entry([], false, true)];
    assert HasReference(text) by { assert text[0].Ref?; }
    forall cfg | cfg == Config(rt, true) || cfg == Config(rt, false)
      ensures Meaning(entries, cfg, "Y") == Ok(Entry([], false, true))
      ensures Meaning(entries, cfg, "X") == Ok(Entry([Lit("${")], false, true))
    {
      assert EvalText(entries, cfg, [], {} + {"Y"}) == Ok(Piece([], false));
      OpenLiteralValue(entries, cfg, text);
    }
    var values := ResolveAll(entries, Config(rt, true)).value;
    assert values["X"] == Entry([Lit("${")], false, true);
    assert HasOpen("${") by { assert "${"[0] == '$' && "${"[0 + 1] == '{'; }
    assert Malformed([Lit("${")]) by { assert [Lit("${")][0].Lit?; }
    assert ExpandEntry(rt, values["X"]).Err?;
    assert !Expandable(values, rt);
  }

  lemma OpenLiteralValue(entries: Entries, cfg: Config, text: Text)
    requires text == [Ref(Env("Y")), Lit("${")]
    requires entries == map["X" := Entry(text, false, true), "Y" := Entry([], false, true)]
    ensures EvalText(entries, cfg, text, {} + {"X"}) == Ok(Piece([Lit("${")], false))
  {
    var visiting := {} + {"X"};
    assert text[..1] == [Ref(Env("Y"))] && text[..1][..0] == [];
    assert EvalText(entries, cfg, [], visiting + {"Y"}) == Ok(Piece([], false));
    assert EvalEnv(entries, cfg, "Y", visiting) == Ok(Entry([], false, true));
    assert EvalText(entries, cfg, text[..1][..0], visiting) == Ok(Piece([], false));
    var empty: Text := [];
    assert empty + empty == empty && empty + [Lit("${")] == [Lit("${")];
    assert EvalSegment(entries, cfg, text[..1][0], visiting) == Ok(Piece([], false));
    assert EvalText(entries, cfg, text[..1], visiting) == Ok(Piece([], false));
  }
}
