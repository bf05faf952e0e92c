/** The memoised `resolver` and `Resolve`'s loop over all entries. */
module EnvResolver {
  import opened Ordering
  import opened Graphs
  import opened Templates
  import opened EnvLookups
  import opened EnvMeaning

  // ----- Text evaluation against a table of finished values -----

  function TableSegment(table: Entries, cfg: Config, s: Segment): Result<Piece> {
    match s
    case Lit(_) => Ok(Piece([s], false))
    case Ref(Env(m)) => if m in table then Ok(Piece(table[m].value, table[m].sensitive)) else Err
    case Ref(r) => (var v :- RuntimeValue(r, cfg); Ok(Piece([v], false)))
  }

  function TableText(table: Entries, cfg: Config, text: Text): Result<Piece> {
    if text == [] then Ok(Piece([], false))
    else
      var before :- TableText(table, cfg, text[..|text| - 1]);
      var last :- TableSegment(table, cfg, text[|text| - 1]);
      Ok(Piece(before.text + last.text, before.sensitive || last.sensitive))
  }

  ghost predicate SubTable(small: Entries, large: Entries) {
    forall n :: n in small ==> n in large && large[n] == small[n]
  }

  lemma {:induction false} TableTextGrows(small: Entries, large: Entries, cfg: Config, text: Text)
    requires SubTable(small, large) && TableText(small, cfg, text).Ok?
    ensures TableText(large, cfg, text) == TableText(small, cfg, text)
  {
    if text == [] {
    } else {
      TableTextGrows(small, large, cfg, text[..|text| - 1]);
    }
  }

  // ----- The memo agrees with evaluation from scratch -----

  /**
    `order` lists the resolved names as they were finished. Each value is what
    evaluation gives, whatever is being visited outside the names before it.
  */
  ghost predicate Sound(entries: Entries, cfg: Config, memo: Entries, order: seq<string>) {
    && NoDuplicates(order) && Elements(order) == memo.Keys && memo.Keys <= entries.Keys
    && forall i, visiting :: 0 <= i < |order| && visiting !! Elements(order[..i + 1]) ==>
         EvalEnv(entries, cfg, order[i], visiting) == Ok(memo[order[i]])
  }

  lemma MemoLookup(entries: Entries, cfg: Config, memo: Entries, order: seq<string>, n: string, visiting: set<string>)
    requires Sound(entries, cfg, memo, order) && n in memo && visiting !! memo.Keys
    ensures EvalEnv(entries, cfg, n, visiting) == Ok(memo[n])
  {
    assert n in Elements(order);
    var i :| 0 <= i < |order| && order[i] == n;
    assert visiting !! Elements(order[..i + 1]);
  }

  lemma {:induction false} TableMatchesEval(entries: Entries, cfg: Config, memo: Entries, order: seq<string>,
                                            text: Text, visiting: set<string>)
    requires Sound(entries, cfg, memo, order) && visiting !! memo.Keys
    requires TableText(memo, cfg, text).Ok?
    ensures EvalText(entries, cfg, text, visiting) == TableText(memo, cfg, text)
  {
    if text == [] {
    } else {
      TableMatchesEval(entries, cfg, memo, order, text[..|text| - 1], visiting);
      match text[|text| - 1] {
        case Ref(Env(m)) => MemoLookup(entries, cfg, memo, order, m, visiting);
        case _ =>
      }
    }
  }

  lemma SoundAppend(entries: Entries, cfg: Config, memo: Entries, order: seq<string>, name: string, p: Piece)
    requires Sound(entries, cfg, memo, order)
    requires name in entries && name !in memo && !Malformed(entries[name].value)
    requires TableText(memo, cfg, entries[name].value) == Ok(p)
    ensures Sound(entries, cfg, memo[name := Finished(entries[name], p)], order + [name])
  {
    var longer, memo' := order + [name], memo[name := Finished(entries[name], p)];
    ElementsAppend(order, name);
    assert name !in Elements(order);
    forall i, visiting | 0 <= i < |longer| && visiting !! Elements(longer[..i + 1])
      ensures EvalEnv(entries, cfg, longer[i], visiting) == Ok(memo'[longer[i]])
    {
      if i < |order| {
        assert longer[..i + 1] == order[..i + 1];
        assert longer[i] in Elements(order);
      } else {
        assert longer[..i + 1] == longer;
        assert visiting + {name} !! memo.Keys;
        TableMatchesEval(entries, cfg, memo, order, entries[name].value, visiting + {name});
      }
    }
  }

  function Finished(entry: Entry, p: Piece): Entry {
    Entry(p.text, entry.sensitive || p.sensitive, entry.managed)
  }

  /** Resolved texts hold only references that stay in place. */
  ghost predicate AllSettled(memo: Entries, cfg: Config) {
    forall n :: n in memo ==> Settled(memo[n].value, cfg)
  }

  lemma {:induction false} TableTextSettled(memo: Entries, cfg: Config, text: Text)
    requires AllSettled(memo, cfg) && TableText(memo, cfg, text).Ok?
    ensures Settled(TableText(memo, cfg, text).value.text, cfg)
  {
    if text == [] {
    } else {
      TableTextSettled(memo, cfg, text[..|text| - 1]);
      SegmentSettled(memo, cfg, text[|text| - 1]);
      SettledConcat(TableText(memo, cfg, text[..|text| - 1]).value.text,
                    TableSegment(memo, cfg, text[|text| - 1]).value.text, cfg);
    }
  }

  lemma SegmentSettled(memo: Entries, cfg: Config, s: Segment)
    requires AllSettled(memo, cfg) && TableSegment(memo, cfg, s).Ok?
    ensures Settled(TableSegment(memo, cfg, s).value.text, cfg)
    ensures s.Ref? && Stuck(s.reference, cfg) ==> TableSegment(memo, cfg, s).value.text == [s]
  {
    match s {
      case Ref(r) => RuntimeValueIsSettled(r, cfg);
      case _ =>
    }
  }

  /** After `i` segments: `p` is their value and `value` is the partly rewritten text. */
  ghost predicate TextProgress(table: Entries, cfg: Config, text: Text, i: nat, p: Piece, value: Text) {
    i <= |text| && TableText(table, cfg, text[..i]) == Ok(p) && value == p.text + text[i..]
  }

  lemma TextNext(table: Entries, table': Entries, cfg: Config, text: Text, i: nat, p: Piece, value: Text)
    requires i < |text| && TextProgress(table, cfg, text, i, p, value)
    requires SubTable(table, table') && AllSettled(table', cfg) && TableSegment(table', cfg, text[i]).Ok?
    ensures var s := TableSegment(table', cfg, text[i]).value;
            TextProgress(table', cfg, text, i + 1, Piece(p.text + s.text, p.sensitive || s.sensitive),
                         if text[i].Ref? then ReplaceFirst(value, text[i].reference, s.text) else value)
  {
    var s := TableSegment(table', cfg, text[i]).value;
    TableTextGrows(table, table', cfg, text[..i]);
    assert text[..i + 1][..i] == text[..i];
    assert text[i..] == [text[i]] + text[i + 1..];
    assert value == p.text + [text[i]] + text[i + 1..];
    TableTextSettled(table', cfg, text[..i]);
    if text[i].Ref? {
      SegmentSettled(table', cfg, text[i]);
      ReplaceNext(p.text, text[i].reference, text[i + 1..], s.text, cfg);
    }
  }

  class Resolver {
    const entries: Entries
    const cfg: Config
    var resolved: Entries
    var resolving: set<string>
    var stack: seq<string>
    ghost var order: seq<string>

    ghost predicate Valid()
      reads this
    {
      && Sound(entries, cfg, resolved, order)
      && AllSettled(resolved, cfg)
      && resolving == Elements(stack)
      && resolving !! resolved.Keys
    }

    constructor (entries: Entries, cfg: Config)
      ensures Valid() && this.entries == entries && this.cfg == cfg
      ensures resolved == map[] && resolving == {}
    {
      this.entries, this.cfg := entries, cfg;
      resolved, resolving, stack, order := map[], {}, [], [];
    }

    method ResolveEnv(name: string) returns (r: Result<Entry>)
      requires Valid()
      modifies this
      ensures Valid() && stack == old(stack) && resolving == old(resolving)
      ensures SubTable(old(resolved), resolved)
      ensures r.Ok? ==> name in resolved && resolved[name] == r.value
      ensures r.Err? ==> EvalEnv(entries, cfg, name, old(resolving)).Err?
      decreases entries.Keys - resolving, 1
    {
      if name in resolved {
        return Ok(resolved[name]);
      }
      if name in resolving || name !in entries {
        return Err;
      }
      var entry := entries[name];
      ghost var before, beforeStack := resolving, stack;
      assert name in entries.Keys - resolving;
      ElementsAppend(stack, name);
      resolving := resolving + {name};
      stack := stack + [name];
      var p := ResolveText(entry.value);
      assert stack == beforeStack + [name];
      stack := stack[..|stack| - 1];
      resolving := resolving - {name};
      assert resolving == before;
      if p.Err? {
        return Err;
      }
      SoundAppend(entries, cfg, resolved, order, name, p.value);
      TableTextSettled(resolved, cfg, entry.value);
      var result := Entry(p.value.text, entry.sensitive || p.value.sensitive, entry.managed);
      resolved, order := resolved[name := result], order + [name];
      return Ok(result);
    }

    /** `value` is rewritten reference by reference with `strings.Replace(..., 1)`. */
    method ResolveText(text: Text) returns (r: Result<Piece>)
      requires Valid()
      modifies this
      ensures Valid() && stack == old(stack) && resolving == old(resolving)
      ensures SubTable(old(resolved), resolved)
      ensures old(resolved).Keys <= resolved.Keys && resolved.Keys !! resolving
      ensures r.Ok? ==> !Malformed(text) && TableText(resolved, cfg, text) == r
      ensures r.Err? ==> Malformed(text) || EvalText(entries, cfg, text, old(resolving)).Err?
      decreases entries.Keys - resolving, 3
    {
      if Malformed(text) {
        return Err;
      }
      var value, sensitive := text, false;
      ghost var done: Text := [];
      for i := 0 to |text|
        invariant Valid() && stack == old(stack) && resolving == old(resolving)
        invariant SubTable(old(resolved), resolved)
        invariant TextProgress(resolved, cfg, text, i, Piece(done, sensitive), value)
      {
        ghost var table, before, value0 := resolved, Piece(done, sensitive), value;
        if text[i].Ref? {
          var replacement := ResolveReference(text[i].reference);
          if replacement.Err? {
            EvalTextOk(entries, cfg, text, resolving);
            return Err;
          }
          value := ReplaceFirst(value, text[i].reference, replacement.value.text);
          sensitive := sensitive || replacement.value.sensitive;
          done := done + replacement.value.text;
        } else {
          done := done + [text[i]];
        }
        TextNext(table, resolved, cfg, text, i, before, value0);
      }
      assert text[..|text|] == text && text[|text|..] == [] && done + [] == done;
      return Ok(Piece(value, sensitive));
    }

    method ResolveReference(reference: Reference) returns (r: Result<Piece>)
      requires Valid()
      modifies this
      ensures Valid() && stack == old(stack) && resolving == old(resolving)
      ensures SubTable(old(resolved), resolved)
      ensures r.Ok? ==> TableSegment(resolved, cfg, Ref(reference)) == r
      ensures r.Err? ==> EvalSegment(entries, cfg, Ref(reference), old(resolving)).Err?
      ensures !reference.Env? ==> forall s :: r == Ok(Piece([s], false)) <==> Denotes(reference, cfg, s)
      ensures !reference.Env? && r.Ok? ==> |r.value.text| == 1 && !r.value.sensitive
      decreases entries.Keys - resolving, 2
    {
      forall s
        ensures RuntimeValue(reference, cfg) == Ok(s) <==> Denotes(reference, cfg, s)
      {
        RuntimeValueDenotes(reference, cfg, s);
      }
      if cfg.deferRuntime && reference.IsRuntime() {
        return Ok(Piece([Ref(reference)], false));
      }
      if reference.Env? {
        var e := ResolveEnv(reference.name);
        if e.Err? {
          return Err;
        }
        return Ok(Piece(e.value.value, e.value.sensitive));
      }
      var v := Lookup(reference, cfg.runtime);
      match v
      case Err => return Err;
      case Ok(segment) => return Ok(Piece([segment], false));
    }
  }

  // ----- Resolve -----

  /** The meaning of every entry, when each has one. */
  function Meanings(entries: Entries, cfg: Config): Entries
    requires forall n :: n in entries ==> Meaning(entries, cfg, n).Ok?
  {
    map n | n in entries :: Meaning(entries, cfg, n).value
  }

  lemma SoundMeansMeaning(entries: Entries, cfg: Config, memo: Entries, order: seq<string>, n: string)
    requires Sound(entries, cfg, memo, order) && n in memo
    ensures Meaning(entries, cfg, n) == Ok(memo[n])
  {
    MemoLookup(entries, cfg, memo, order, n, {});
  }

  lemma SoundMeansMeanings(entries: Entries, cfg: Config, memo: Entries, order: seq<string>)
    requires Sound(entries, cfg, memo, order) && memo.Keys == entries.Keys
    ensures forall n :: n in entries ==> Meaning(entries, cfg, n).Ok?
    ensures memo == Meanings(entries, cfg)
  {
    forall n | n in entries
      ensures Meaning(entries, cfg, n) == Ok(memo[n])
    {
      SoundMeansMeaning(entries, cfg, memo, order, n);
    }
  }

  /**
    The loop of `Resolve` over the composed entries, in whatever order the map
    yields them: it succeeds exactly when every reference is defined and no
    entry refers to itself, and then returns exactly the meanings.
  */
  method Resolve(entries: Entries, cfg: Config) returns (r: Result<Entries>)
    ensures r.Ok? <==> AllDefined(entries, cfg) && Acyclic(ReferenceGraph(entries), entries.Keys)
    ensures r.Ok? <==> forall n :: n in entries ==> Meaning(entries, cfg, n).Ok?
    ensures r.Ok? ==> r.value == Meanings(entries, cfg) && AllSettled(r.value, cfg)
  {
    var resolver := new Resolver(entries, cfg);
    var todo := entries.Keys;
    while todo != {}
      invariant resolver.Valid() && resolver.entries == entries && resolver.cfg == cfg && resolver.resolving == {}
      invariant todo <= entries.Keys
      invariant entries.Keys <= todo + resolver.resolved.Keys
      invariant resolver.resolved.Keys <= entries.Keys
    {
      var name :| name in todo;
      todo := todo - {name};
      ghost var before := resolver.resolved;
      var result := resolver.ResolveEnv(name);
      if result.Err? {
        assert Meaning(entries, cfg, name).Err?;
        SucceedsExactlyWhen(entries, cfg);
        return Err;
      }
      assert SubTable(before, resolver.resolved);
    }
    SucceedsExactlyWhen(entries, cfg);
    SoundMeansMeanings(entries, cfg, resolver.resolved, resolver.order);
    return Ok(resolver.resolved);
  }
}
