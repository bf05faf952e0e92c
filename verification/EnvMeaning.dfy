/**
  What an environment means: the recursive, memo-free evaluation of an entry,
  with the names on the way to it as the cycle check.
*/
module EnvMeaning {
  import opened Ordering
  import opened Graphs
  import opened Templates

  datatype Entry = Entry(value: Text, sensitive: bool, managed: bool)

  type Entries = map<string, Entry>

  datatype Piece = Piece(text: Text, sensitive: bool)

  function EvalEnv(entries: Entries, cfg: Config, name: string, visiting: set<string>): Result<Entry>
    decreases entries.Keys - visiting, 1, 0
  {
    if name in visiting || name !in entries || Malformed(entries[name].value) then Err
    else
      var entry := entries[name];
      assert entries.Keys - (visiting + {name}) < entries.Keys - visiting by {
        assert name in entries.Keys - visiting;
      }
      var p :- EvalText(entries, cfg, entry.value, visiting + {name});
      Ok(Entry(p.text, entry.sensitive || p.sensitive, entry.managed))
  }

  function EvalText(entries: Entries, cfg: Config, text: Text, visiting: set<string>): Result<Piece>
    decreases entries.Keys - visiting, 2, |text|
  {
    if text == [] then Ok(Piece([], false))
    else
      var before :- EvalText(entries, cfg, text[..|text| - 1], visiting);
      var last :- EvalSegment(entries, cfg, text[|text| - 1], visiting);
      Ok(Piece(before.text + last.text, before.sensitive || last.sensitive))
  }

  function EvalSegment(entries: Entries, cfg: Config, s: Segment, visiting: set<string>): Result<Piece>
    decreases entries.Keys - visiting, 2, 0
  {
    match s
    case Lit(_) => Ok(Piece([s], false))
    case Ref(Env(m)) => (var e :- EvalEnv(entries, cfg, m, visiting); Ok(Piece(e.value, e.sensitive)))
    case Ref(r) => (var v :- RuntimeValue(r, cfg); Ok(Piece([v], false)))
  }

  /** The value of an entry: its evaluation from scratch. */
  function Meaning(entries: Entries, cfg: Config, name: string): Result<Entry> {
    EvalEnv(entries, cfg, name, {})
  }

  // ----- Text evaluation, segment by segment -----

  lemma {:induction false} EvalTextOk(entries: Entries, cfg: Config, text: Text, visiting: set<string>)
    ensures EvalText(entries, cfg, text, visiting).Ok?
       <==> forall i :: 0 <= i < |text| ==> EvalSegment(entries, cfg, text[i], visiting).Ok?
  {
    if text == [] {
    } else {
      var init := text[..|text| - 1];
      EvalTextOk(entries, cfg, init, visiting);
      assert forall i :: 0 <= i < |init| ==> init[i] == text[i];
    }
  }

  lemma {:induction false} EvalTextSensitive(entries: Entries, cfg: Config, text: Text, visiting: set<string>)
    requires EvalText(entries, cfg, text, visiting).Ok?
    ensures forall i :: 0 <= i < |text| ==> EvalSegment(entries, cfg, text[i], visiting).Ok?
    ensures EvalText(entries, cfg, text, visiting).value.sensitive
       <==> exists i :: 0 <= i < |text| && EvalSegment(entries, cfg, text[i], visiting).value.sensitive
  {
    if text == [] {
    } else {
      var n := |text| - 1;
      var init := text[..n];
      EvalTextSensitive(entries, cfg, init, visiting);
      assert forall i :: 0 <= i < n ==> init[i] == text[i];
      assert EvalSegment(entries, cfg, text[n], visiting).Ok?;
    }
  }

  // ----- Defined references and the reference graph -----

  function EnvRefs(text: Text): seq<string> {
    if text == [] then []
    else EnvRefs(text[..|text| - 1]) + match text[|text| - 1] { case Ref(Env(m)) => [m] case _ => [] }
  }

  function ReferenceGraph(entries: Entries): Graph {
    map n | n in entries :: EnvRefs(entries[n].value)
  }

  lemma {:induction false} EnvRefsMembers(text: Text, m: string)
    ensures m in EnvRefs(text) <==> Ref(Env(m)) in text
  {
    if text == [] {
    } else {
      EnvRefsMembers(text[..|text| - 1], m);
      assert text == text[..|text| - 1] + [text[|text| - 1]];
    }
  }

  predicate SegmentDefined(entries: Entries, cfg: Config, s: Segment) {
    match s
    case Lit(_) => true
    case Ref(Env(m)) => m in entries
    case Ref(r) => RuntimeValue(r, cfg).Ok?
  }

  predicate EntryDefined(entries: Entries, cfg: Config, name: string)
    requires name in entries
  {
    && !Malformed(entries[name].value)
    && forall i :: 0 <= i < |entries[name].value| ==> SegmentDefined(entries, cfg, entries[name].value[i])
  }

  /** Every reference is defined and no text is malformed. */
  ghost predicate AllDefined(entries: Entries, cfg: Config) {
    forall n :: n in entries ==> EntryDefined(entries, cfg, n)
  }

  /** `path` leads along references to `name`. */
  ghost predicate LeadsTo(g: Graph, path: seq<string>, name: string) {
    path == [] || (Walk(g, path) && name in Deps(g, path[|path| - 1]))
  }

  lemma EvalReference(entries: Entries, cfg: Config, name: string, visiting: set<string>, m: string)
    requires name in entries && EvalEnv(entries, cfg, name, visiting).Ok? && m in Deps(ReferenceGraph(entries), name)
    ensures EvalEnv(entries, cfg, m, visiting + {name}).Ok?
  {
    var text := entries[name].value;
    EnvRefsMembers(text, m);
    EvalTextOk(entries, cfg, text, visiting + {name});
    var i :| 0 <= i < |text| && text[i] == Ref(Env(m));
    assert EvalSegment(entries, cfg, text[i], visiting + {name}).Ok?;
  }

  // ----- Success is definedness and acyclicity -----

  /** In an acyclic graph with everything defined, evaluation succeeds below any path. */
  lemma {:induction false} AcyclicEvaluates(entries: Entries, cfg: Config, path: seq<string>, name: string)
    requires AllDefined(entries, cfg) && Acyclic(ReferenceGraph(entries), entries.Keys)
    requires Inside(path, entries.Keys) && LeadsTo(ReferenceGraph(entries), path, name) && name in entries
    ensures EvalEnv(entries, cfg, name, Elements(path)).Ok?
    decreases entries.Keys - Elements(path)
  {
    var g := ReferenceGraph(entries);
    var longer := path + [name];
    ElementsAppend(path, name);
    if name in path {
      NoReturn(entries, path, name);
    } else {
      assert name in entries.Keys - Elements(path);
      assert Elements(longer) == Elements(path) + {name};
      var text := entries[name].value;
      assert EntryDefined(entries, cfg, name);
      assert Walk(g, longer);
      forall i | 0 <= i < |text|
        ensures EvalSegment(entries, cfg, text[i], Elements(longer)).Ok?
      {
        assert SegmentDefined(entries, cfg, text[i]);
        match text[i] {
          case Ref(Env(m)) =>
            EnvRefsMembers(text, m);
            AcyclicEvaluates(entries, cfg, longer, m);
          case _ =>
        }
      }
      EvalTextOk(entries, cfg, text, Elements(longer));
    }
  }

  lemma NoReturn(entries: Entries, path: seq<string>, name: string)
    requires Inside(path, entries.Keys) && LeadsTo(ReferenceGraph(entries), path, name) && name in path
    ensures !Acyclic(ReferenceGraph(entries), entries.Keys)
  {
    var g := ReferenceGraph(entries);
    var k :| 0 <= k < |path| && path[k] == name;
    var loop := path[k..] + [name];
    forall i | 0 <= i < |loop| - 1
      ensures loop[i + 1] in Deps(g, loop[i])
    {
      var j := k + i;
      assert loop[i] == path[j];
      if j + 1 < |path| {
        assert path[j + 1] in Deps(g, path[j]);
      }
    }
    assert ClosedWalk(g, loop);
  }

  /** A successful evaluation stays successful along references, with the path marked. */
  lemma {:induction false} EvalAlongWalk(entries: Entries, cfg: Config, p: seq<string>, visiting: set<string>)
    requires Inside(p, entries.Keys) && Walk(ReferenceGraph(entries), p)
    requires EvalEnv(entries, cfg, p[0], visiting).Ok?
    ensures |p| >= 2 ==> p[|p| - 1] != p[0]
    ensures p[|p| - 1] !in visiting
    decreases |p|
  {
    if |p| >= 2 {
      assert p[0 + 1] in Deps(ReferenceGraph(entries), p[0]);
      EvalReference(entries, cfg, p[0], visiting, p[1]);
      forall i | 0 <= i < |p[1..]| - 1
        ensures p[1..][i + 1] in Deps(ReferenceGraph(entries), p[1..][i])
      {
        var k := i + 1;
        assert p[k + 1] in Deps(ReferenceGraph(entries), p[k]);
      }
      EvalAlongWalk(entries, cfg, p[1..], visiting + {p[0]});
    }
  }

  /**
    Resolution succeeds for every entry exactly when every reference is
    defined and the reference graph has no cycle.
  */
  lemma SucceedsExactlyWhen(entries: Entries, cfg: Config)
    ensures (forall n :: n in entries ==> Meaning(entries, cfg, n).Ok?)
       <==> AllDefined(entries, cfg) && Acyclic(ReferenceGraph(entries), entries.Keys)
  {
    if AllDefined(entries, cfg) && Acyclic(ReferenceGraph(entries), entries.Keys) {
      forall n | n in entries
        ensures Meaning(entries, cfg, n).Ok?
      {
        AcyclicEvaluates(entries, cfg, [], n);
        assert Elements<string>([]) == {};
      }
    }
    if forall n :: n in entries ==> Meaning(entries, cfg, n).Ok? {
      forall n | n in entries
        ensures EntryDefined(entries, cfg, n)
      {
        MeaningDefined(entries, cfg, n);
      }
      forall p | Inside(p, entries.Keys)
        ensures !ClosedWalk(ReferenceGraph(entries), p)
      {
        if ClosedWalk(ReferenceGraph(entries), p) {
          assert p[0] in entries;
          EvalAlongWalk(entries, cfg, p, {});
        }
      }
    }
  }

  lemma MeaningDefined(entries: Entries, cfg: Config, n: string)
    requires n in entries && Meaning(entries, cfg, n).Ok?
    ensures EntryDefined(entries, cfg, n)
  {
    var text := entries[n].value;
    EvalTextOk(entries, cfg, text, {} + {n});
    forall i | 0 <= i < |text|
      ensures SegmentDefined(entries, cfg, text[i])
    {
      assert EvalSegment(entries, cfg, text[i], {} + {n}).Ok?;
    }
  }

  // ----- Sensitivity -----

  ghost predicate SensitiveSource(entries: Entries, name: string) {
    && name in entries
    && (entries[name].sensitive
        || exists m :: m in entries && entries[m].sensitive && Reaches(ReferenceGraph(entries), name, m))
  }

  lemma SourceStep(entries: Entries, name: string)
    requires name in entries
    ensures SensitiveSource(entries, name)
       <==> (entries[name].sensitive
             || exists m :: m in Deps(ReferenceGraph(entries), name) && SensitiveSource(entries, m))
  {
    var g := ReferenceGraph(entries);
    if !entries[name].sensitive && SensitiveSource(entries, name) {
      var m :| m in entries && entries[m].sensitive && Reaches(g, name, m);
      var p :| WalkBetween(g, p, name, m);
      assert p[0 + 1] in Deps(g, p[0]);
      if |p| > 2 {
        forall i | 0 <= i < |p[1..]| - 1
          ensures p[1..][i + 1] in Deps(g, p[1..][i])
        {
          var k := i + 1;
          assert p[k + 1] in Deps(g, p[k]);
        }
        assert WalkBetween(g, p[1..], p[1], m);
        assert p[1] in entries by { assert p[1 + 1] in Deps(g, p[1]); }
      }
      assert SensitiveSource(entries, p[1]);
    }
    if m :| m in Deps(g, name) && SensitiveSource(entries, m) {
      if entries[m].sensitive {
        assert WalkBetween(g, [name, m], name, m);
        assert Reaches(g, name, m);
      } else {
        var k :| k in entries && entries[k].sensitive && Reaches(g, m, k);
        var p :| WalkBetween(g, p, m, k);
        WalkConcat(g, [name, m], p);
        assert WalkBetween(g, [name, m] + p[1..], name, k);
        assert Reaches(g, name, k);
      }
    }
  }

  /** A value is sensitive exactly when it, or something it refers to at any depth, is. */
  lemma {:induction false} SensitivityIsReachability(entries: Entries, cfg: Config, name: string, visiting: set<string>)
    requires EvalEnv(entries, cfg, name, visiting).Ok?
    ensures EvalEnv(entries, cfg, name, visiting).value.sensitive <==> SensitiveSource(entries, name)
    decreases entries.Keys - visiting
  {
    var text, inner := entries[name].value, visiting + {name};
    assert name in entries.Keys - visiting;
    EvalTextSensitive(entries, cfg, text, inner);
    SourceStep(entries, name);
    forall i | 0 <= i < |text|
      ensures EvalSegment(entries, cfg, text[i], inner).value.sensitive
         <==> text[i].Ref? && text[i].reference.Env? && SensitiveSource(entries, text[i].reference.name)
    {
      match text[i] {
        case Ref(Env(m)) => SensitivityIsReachability(entries, cfg, m, inner);
        case _ =>
      }
    }
    forall m
      ensures m in Deps(ReferenceGraph(entries), name) <==> Ref(Env(m)) in text
    {
      EnvRefsMembers(text, m);
    }
    SensitiveSegment(entries, name);
  }

  lemma SensitiveSegment(entries: Entries, name: string)
    requires name in entries
    requires forall m :: m in Deps(ReferenceGraph(entries), name) <==> Ref(Env(m)) in entries[name].value
    ensures (exists m :: m in Deps(ReferenceGraph(entries), name) && SensitiveSource(entries, m))
       <==> exists i :: 0 <= i < |entries[name].value| && entries[name].value[i].Ref?
                     && entries[name].value[i].reference.Env?
                     && SensitiveSource(entries, entries[name].value[i].reference.name)
  {
    var text := entries[name].value;
    if m :| m in Deps(ReferenceGraph(entries), name) && SensitiveSource(entries, m) {
      var i :| 0 <= i < |text| && text[i] == Ref(Env(m));
    }
    if i :| 0 <= i < |text| && text[i].Ref? && text[i].reference.Env?
            && SensitiveSource(entries, text[i].reference.name) {
      assert Ref(Env(text[i].reference.name)) in text;
    }
  }
}
