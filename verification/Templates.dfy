/**
  Environment values as templates: sequences of literal text and `${...}`
  references, and what a reference means at run time.
*/
module Templates {

  datatype Result<+T> = Ok(value: T) | Err {
    predicate IsFailure() { Err? }
    function PropagateFailure<U>(): Result<U> requires Err? { Err }
    function Extract(): T requires Ok? { value }
  }

  /** The reference forms the resolver recognises; `BadRoute` is `routes.` with a wrong tail. */
  datatype Reference =
    | Project
    | Branch
    | Scope
    | Port(name: string)
    | RouteHost(service: string)
    | RouteURL(service: string)
    | BadRoute(tail: string)
    | Env(name: string)
    | Unknown(text: string)
  {
    /** The references `DeferRuntime` leaves for later. */
    predicate IsRuntime() {
      !Env? && !Unknown?
    }
  }

  datatype Segment = Lit(text: string) | Ref(reference: Reference)

  type Text = seq<Segment>

  datatype RouteInfo = RouteInfo(service: string, available: bool, host: string, url: string)

  datatype Runtime = Runtime(
    project: string, branch: string, scope: string,
    ports: map<string, int>, deferredPorts: set<string>, routes: seq<RouteInfo>)

  /** Resolver settings: with `deferRuntime` every runtime reference is kept as it is. */
  datatype Config = Config(runtime: Runtime, deferRuntime: bool)

  // ----- Decimal rendering of ports -----

  function Digits(n: nat): string {
    if n < 10 then ["0123456789"[n]] else Digits(n / 10) + ["0123456789"[n % 10]]
  }

  function Itoa(n: int): string {
    if n < 0 then "-" + Digits(-n) else Digits(n)
  }

  // ----- Malformed text -----

  predicate HasOpen(s: string) {
    exists i :: 0 <= i < |s| - 1 && s[i] == '$' && s[i + 1] == '{'
  }

  predicate HasReference(t: Text) {
    exists i :: 0 <= i < |t| && t[i].Ref?
  }

  /** The text contains `${` and yet no reference. */
  predicate Malformed(t: Text) {
    !HasReference(t) && exists i :: 0 <= i < |t| && t[i].Lit? && HasOpen(t[i].text)
  }

  predicate CleanText(t: Text) {
    forall i :: 0 <= i < |t| && t[i].Lit? ==> !HasOpen(t[i].text)
  }

  predicate CleanRuntime(rt: Runtime) {
    && !HasOpen(rt.project) && !HasOpen(rt.branch) && !HasOpen(rt.scope)
    && forall i :: 0 <= i < |rt.routes| ==> !HasOpen(rt.routes[i].host) && !HasOpen(rt.routes[i].url)
  }

  lemma {:induction false} DigitsClean(n: nat)
    ensures forall i :: 0 <= i < |Digits(n)| ==> Digits(n)[i] != '$'
  {
    if n >= 10 {
      DigitsClean(n / 10);
    }
  }

  lemma ItoaClean(n: int)
    ensures !HasOpen(Itoa(n))
  {
    DigitsClean(if n < 0 then -n else n);
  }

  // ----- Looking up a runtime reference -----

  /** The first route of the service decides. */
  function FindRoute(routes: seq<RouteInfo>, service: string): Result<RouteInfo> {
    if routes == [] then Err
    else if routes[0].service == service then (if routes[0].available then Ok(routes[0]) else Err)
    else FindRoute(routes[1..], service)
  }

  /** `runtimeReference` without its `env.` arm; a deferred port stands for itself. */
  function Lookup(r: Reference, rt: Runtime): Result<Segment> {
    match r
    case Project => Ok(Lit(rt.project))
    case Branch => Ok(Lit(rt.branch))
    case Scope => Ok(Lit(rt.scope))
    case Port(name) =>
      if name in rt.ports then Ok(Lit(Itoa(rt.ports[name])))
      else if name in rt.deferredPorts then Ok(Ref(r))
      else Err
    case RouteHost(service) => (var route :- FindRoute(rt.routes, service); Ok(Lit(route.host)))
    case RouteURL(service) => (var route :- FindRoute(rt.routes, service); Ok(Lit(route.url)))
    case BadRoute(_) => Err
    case Env(_) => Err
    case Unknown(_) => Err
  }

  function RuntimeValue(r: Reference, cfg: Config): Result<Segment> {
    if cfg.deferRuntime && r.IsRuntime() then Ok(Ref(r)) else Lookup(r, cfg.runtime)
  }

  /** A reference that the settings leave in place. */
  predicate Stuck(r: Reference, cfg: Config) {
    r.IsRuntime() && RuntimeValue(r, cfg) == Ok(Ref(r))
  }

  /** Only references that stay in place remain. */
  predicate Settled(t: Text, cfg: Config) {
    forall i :: 0 <= i < |t| && t[i].Ref? ==> Stuck(t[i].reference, cfg)
  }

  lemma RuntimeValueIsSettled(r: Reference, cfg: Config)
    ensures RuntimeValue(r, cfg).Ok? ==> Settled([RuntimeValue(r, cfg).value], cfg)
    ensures RuntimeValue(r, cfg).Ok? && RuntimeValue(r, cfg).value.Ref? ==> RuntimeValue(r, cfg).value == Ref(r)
  {
  }

  lemma {:induction false} FindRouteClean(routes: seq<RouteInfo>, service: string)
    requires forall i :: 0 <= i < |routes| ==> !HasOpen(routes[i].host) && !HasOpen(routes[i].url)
    ensures FindRoute(routes, service).Ok? ==>
              !HasOpen(FindRoute(routes, service).value.host) && !HasOpen(FindRoute(routes, service).value.url)
  {
    if routes != [] && routes[0].service != service {
      FindRouteClean(routes[1..], service);
    }
  }

  lemma LookupClean(r: Reference, rt: Runtime)
    requires CleanRuntime(rt)
    ensures Lookup(r, rt).Ok? ==> CleanText([Lookup(r, rt).value])
  {
    match r {
      case Port(name) =>
        if name in rt.ports {
          ItoaClean(rt.ports[name]);
        }
      case RouteHost(service) => FindRouteClean(rt.routes, service);
      case RouteURL(service) => FindRouteClean(rt.routes, service);
      case _ =>
    }
  }

  // ----- strings.Replace(value, reference, replacement, 1) -----

  function ReplaceFirst(value: Text, r: Reference, replacement: Text): Text {
    if value == [] then []
    else if value[0] == Ref(r) then replacement + value[1..]
    else [value[0]] + ReplaceFirst(value[1..], r, replacement)
  }

  lemma {:induction false} ReplaceSelf(value: Text, r: Reference)
    ensures ReplaceFirst(value, r, [Ref(r)]) == value
  {
    if value != [] && value[0] != Ref(r) {
      ReplaceSelf(value[1..], r);
    }
  }

  lemma {:induction false} ReplaceSkips(done: Text, r: Reference, rest: Text, replacement: Text)
    requires Ref(r) !in done
    ensures ReplaceFirst(done + [Ref(r)] + rest, r, replacement) == done + replacement + rest
  {
    var value := done + [Ref(r)] + rest;
    if done == [] {
      assert value == [Ref(r)] + rest;
      assert done + replacement + rest == replacement + rest;
    } else {
      assert value[0] == done[0] && value[1..] == done[1..] + [Ref(r)] + rest;
      ReplaceSkips(done[1..], r, rest, replacement);
      assert done + replacement + rest == [done[0]] + (done[1..] + replacement + rest);
    }
  }

  /** Replacing the next reference, when what precedes it is already settled. */
  lemma ReplaceNext(done: Text, r: Reference, rest: Text, replacement: Text, cfg: Config)
    requires Settled(done, cfg)
    requires Stuck(r, cfg) ==> replacement == [Ref(r)]
    ensures ReplaceFirst(done + [Ref(r)] + rest, r, replacement) == done + replacement + rest
  {
    if Ref(r) in done {
      assert Stuck(r, cfg);
      ReplaceSelf(done + [Ref(r)] + rest, r);
    } else {
      ReplaceSkips(done, r, rest, replacement);
    }
  }

  lemma SettledConcat(a: Text, b: Text, cfg: Config)
    requires Settled(a, cfg) && Settled(b, cfg)
    ensures Settled(a + b, cfg)
  {
  }
}
