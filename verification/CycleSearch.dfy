/**
  `topologicalOrder`: a depth-first search that reports a dependency cycle, then
  Kahn's algorithm with the lexicographically smallest ready service first.
*/
module CycleSearch {
  import opened Options
  import opened Ordering
  import opened Graphs

  // ----- Depth-first search -----

  datatype Mark = Active | Done

  /**
    The variables the recursive `visit` closure shares: `state` and `stack`.
    `finished` lists the `Done` services in the order they were finished.
  */
  datatype Search = Search(state: map<string, Mark>, stack: seq<string>)

  ghost predicate StackInv(services: Graph, closure: set<string>, stack: seq<string>) {
    && NoDuplicates(stack) && Inside(stack, closure)
    && forall i :: 0 <= i < |stack| - 1 ==> stack[i + 1] in Deps(services, stack[i])
  }

  ghost predicate MarksInv(s: Search, finished: seq<string>) {
    && (forall x :: x in s.stack <==> x in s.state && s.state[x].Active?)
    && (forall x :: x in finished <==> x in s.state && s.state[x].Done?)
  }

  ghost predicate FinishedInv(services: Graph, closure: set<string>, finished: seq<string>) {
    NoDuplicates(finished) && Inside(finished, closure) && DepsEarlier(services, closure, finished)
  }

  ghost predicate SearchInv(services: Graph, closure: set<string>, s: Search, finished: seq<string>) {
    StackInv(services, closure, s.stack) && MarksInv(s, finished) && FinishedInv(services, closure, finished)
  }

  /** The reported path: the stack from the first occurrence of `name`, then `name`. */
  method CyclePath(services: Graph, closure: set<string>, stack: seq<string>, name: string) returns (path: seq<string>)
    requires StackInv(services, closure, stack) && name in stack
    requires name in Deps(services, stack[|stack| - 1])
    ensures ClosedWalk(services, path) && Inside(path, closure)
  {
    var start := 0;
    for i := 0 to |stack|
      invariant start == 0
      invariant forall j :: 0 <= j < i ==> stack[j] != name
    {
      if stack[i] == name {
        start := i;
        break;
      }
    }
    path := stack[start..] + [name];
    forall i | 0 <= i < |path| - 1
      ensures path[i + 1] in Deps(services, path[i])
    {
      assert path[i] == stack[start + i];
      if i < |path| - 2 {
        var k := start + i;
        assert stack[k + 1] in Deps(services, stack[k]);
      }
    }
  }

  lemma PushInv(services: Graph, closure: set<string>, s: Search, finished: seq<string>, name: string)
    requires SearchInv(services, closure, s, finished) && name in closure && name !in s.state
    requires s.stack == [] || name in Deps(services, s.stack[|s.stack| - 1])
    ensures SearchInv(services, closure, Search(s.state[name := Active], s.stack + [name]), finished)
  {
  }

  lemma PopInv(services: Graph, closure: set<string>, s: Search, finished: seq<string>, name: string)
    requires SearchInv(services, closure, s, finished)
    requires |s.stack| > 0 && s.stack[|s.stack| - 1] == name
    requires forall d :: d in Deps(services, name) && d in closure ==> d in finished
    ensures SearchInv(services, closure, Search(s.state[name := Done], s.stack[..|s.stack| - 1]), finished + [name])
  {
    var popped := s.stack[..|s.stack| - 1];
    assert s.stack == popped + [name];
    assert name in s.stack && name !in popped;
    PopMarks(s, finished, name);
    AppendDepsEarlier(services, closure, finished, name);
    assert name !in finished;
  }

  lemma PopMarks(s: Search, finished: seq<string>, name: string)
    requires MarksInv(s, finished) && NoDuplicates(s.stack)
    requires |s.stack| > 0 && s.stack[|s.stack| - 1] == name
    ensures MarksInv(Search(s.state[name := Done], s.stack[..|s.stack| - 1]), finished + [name])
  {
    var popped := s.stack[..|s.stack| - 1];
    assert s.stack == popped + [name];
  }

  lemma AppendDepsEarlier(services: Graph, closure: set<string>, order: seq<string>, name: string)
    requires DepsEarlier(services, closure, order)
    requires forall d :: d in Deps(services, name) && d in closure ==> d in order
    ensures DepsEarlier(services, closure, order + [name])
  {
    var longer := order + [name];
    forall i, d | 0 <= i < |longer| && d in Deps(services, longer[i]) && d in closure
      ensures d in longer[..i]
    {
      if i < |order| {
        assert longer[..i] == order[..i];
        assert d in order[..i];
      } else {
        assert longer[..i] == order;
      }
    }
  }

  method Visit(services: Graph, closure: set<string>, name: string, s: Search, ghost finished: seq<string>)
    returns (cycle: Option<seq<string>>, s': Search, ghost finished': seq<string>)
    requires SearchInv(services, closure, s, finished) && name in closure
    requires s.stack == [] || name in Deps(services, s.stack[|s.stack| - 1])
    ensures cycle.Some? ==> ClosedWalk(services, cycle.value) && Inside(cycle.value, closure)
    ensures cycle.None? ==> SearchInv(services, closure, s', finished') && s'.stack == s.stack
    ensures cycle.None? ==> Elements(finished) + {name} <= Elements(finished')
    decreases closure - Elements(s.stack)
  {
    cycle, s', finished' := None, s, finished;
    if name in s.state {
      if s.state[name].Active? {
        var path := CyclePath(services, closure, s.stack, name);
        cycle := Some(path);
      }
      return;
    }
    assert name !in s.stack;
    PushInv(services, closure, s, finished, name);
    s' := Search(s.state[name := Active], s.stack + [name]);
    cycle, s', finished' := VisitDependencies(services, closure, name, s', finished);
    if cycle.Some? {
      return;
    }
    PopInv(services, closure, s', finished', name);
    assert s'.stack[..|s'.stack| - 1] == s.stack;
    s' := Search(s'.state[name := Done], s'.stack[..|s'.stack| - 1]);
    ElementsAppend(finished', name);
    finished' := finished' + [name];
  }

  method VisitDependencies(services: Graph, closure: set<string>, name: string, s: Search, ghost finished: seq<string>)
    returns (cycle: Option<seq<string>>, s': Search, ghost finished': seq<string>)
    requires SearchInv(services, closure, s, finished)
    requires |s.stack| > 0 && s.stack[|s.stack| - 1] == name
    ensures cycle.Some? ==> ClosedWalk(services, cycle.value) && Inside(cycle.value, closure)
    ensures cycle.None? ==> SearchInv(services, closure, s', finished') && s'.stack == s.stack
    ensures cycle.None? ==> Elements(finished) <= Elements(finished')
    ensures cycle.None? ==> forall d :: d in Deps(services, name) && d in closure ==> d in finished'
    decreases closure - Elements(s.stack[..|s.stack| - 1]), 0
  {
    var deps := SortStrings(Deps(services, name));
    ghost var below := s.stack[..|s.stack| - 1];
    assert s.stack == below + [name];
    ElementsAppend(below, name);
    assert name in closure && name !in Elements(below);
    cycle, s', finished' := None, s, finished;
    for i := 0 to |deps|
      invariant cycle.None?
      invariant SearchInv(services, closure, s', finished') && s'.stack == s.stack
      invariant Elements(finished) <= Elements(finished')
      invariant SelectedDone(deps, i, closure, Elements(finished'))
    {
      SortKeepsMembers(Deps(services, name), deps[i]);
      ghost var before := Elements(finished');
      if deps[i] in closure {
        cycle, s', finished' := Visit(services, closure, deps[i], s', finished');
        if cycle.Some? {
          return;
        }
      }
      SelectedDoneNext(deps, i, closure, before, Elements(finished'));
    }
    AllSelectedDone(Deps(services, name), closure, finished');
  }

  predicate SelectedDone(deps: seq<string>, count: nat, closure: set<string>, done: set<string>) {
    forall j :: 0 <= j < count && j < |deps| && deps[j] in closure ==> deps[j] in done
  }

  lemma SelectedDoneNext(deps: seq<string>, i: nat, closure: set<string>, before: set<string>, done: set<string>)
    requires i < |deps| && SelectedDone(deps, i, closure, before) && before <= done
    requires deps[i] in closure ==> deps[i] in done
    ensures SelectedDone(deps, i + 1, closure, done)
  {
  }

  lemma AllSelectedDone(deps: seq<string>, closure: set<string>, finished: seq<string>)
    requires SelectedDone(SortStrings(deps), |SortStrings(deps)|, closure, Elements(finished))
    ensures forall d :: d in deps && d in closure ==> d in finished
  {
    forall d | d in deps && d in closure
      ensures d in finished
    {
      SortKeepsMembers(deps, d);
    }
  }
}
