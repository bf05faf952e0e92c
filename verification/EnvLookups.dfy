/**
  What a runtime reference stands for, said of the runtime's own fields: the
  first route of a service, and the decimal numeral of a bound port.
*/
module EnvLookups {
  import opened Templates

  // ----- Decimal numerals -----

  function DecimalValue(s: string): int {
    if s == [] then 0 else 10 * DecimalValue(s[..|s| - 1]) + (s[|s| - 1] as int - '0' as int)
  }

  predicate AllDigits(s: string) {
    forall i :: 0 <= i < |s| ==> '0' <= s[i] <= '9'
  }

  /** Decimal digits without a leading zero, the most significant first. */
  predicate IsNumeral(s: string) {
    |s| > 0 && AllDigits(s) && (|s| > 1 ==> s[0] != '0')
  }

  /** The written form of `n`. */
  predicate Writes(s: string, n: int) {
    if n < 0 then |s| > 0 && s[0] == '-' && IsNumeral(s[1..]) && DecimalValue(s[1..]) == -n
    else IsNumeral(s) && DecimalValue(s) == n
  }

  lemma DigitChar(d: nat)
    requires d < 10
    ensures "0123456789"[d] as int - '0' as int == d
  {
    assert d == 0 || d == 1 || d == 2 || d == 3 || d == 4 || d == 5 || d == 6 || d == 7 || d == 8 || d == 9;
  }

  lemma {:induction false} DigitsAreNumeral(n: nat)
    ensures IsNumeral(Digits(n)) && DecimalValue(Digits(n)) == n
    ensures n > 0 ==> Digits(n)[0] != '0'
  {
    DigitChar(n % 10);
    if n < 10 {
      assert Digits(n)[..0] == [] && DecimalValue([]) == 0;
    } else {
      DigitsAreNumeral(n / 10);
      assert Digits(n)[..|Digits(n)| - 1] == Digits(n / 10);
    }
  }

  lemma {:induction false} NumeralIsDigits(s: string)
    requires IsNumeral(s)
    ensures DecimalValue(s) >= 0 && (s[0] != '0' ==> DecimalValue(s) >= 1)
    ensures s == Digits(DecimalValue(s))
  {
    var init := s[..|s| - 1];
    var d: int := s[|s| - 1] as int - '0' as int;
    DigitOf(s[|s| - 1]);
    if |s| == 1 {
      assert s == [s[0]] && DecimalValue(s) == d;
    } else {
      NumeralIsDigits(init);
      DigitsAppend(DecimalValue(init), d);
      assert s == init + [s[|s| - 1]];
    }
  }

  lemma DigitOf(c: char)
    requires '0' <= c <= '9'
    ensures var d := c as int - '0' as int; 0 <= d < 10 && ["0123456789"[d]] == [c]
  {
    DigitChar(c as int - '0' as int);
  }

  lemma DigitsAppend(n: nat, d: nat)
    requires n > 0 && d < 10
    ensures Digits(10 * n + d) == Digits(n) + ["0123456789"[d]]
  {
    assert (10 * n + d) / 10 == n && (10 * n + d) % 10 == d;
  }

  /** A port is written as its numeral and in no other way. */
  lemma ItoaWrites(n: int, s: string)
    ensures Writes(s, n) <==> s == Itoa(n)
  {
    DigitsAreNumeral(if n < 0 then -n else n);
    if Writes(s, n) {
      if n < 0 {
        NumeralIsDigits(s[1..]);
        assert s == "-" + s[1..];
      } else {
        NumeralIsDigits(s);
      }
    }
  }

  // ----- The first route of a service -----

  predicate IsFirst(routes: seq<RouteInfo>, service: string, k: int) {
    0 <= k < |routes| && routes[k].service == service && forall j :: 0 <= j < k ==> routes[j].service != service
  }

  lemma {:induction false} FindRouteIsFirst(routes: seq<RouteInfo>, service: string, k: int)
    requires IsFirst(routes, service, k)
    ensures FindRoute(routes, service) == if routes[k].available then Ok(routes[k]) else Err
  {
    if k > 0 {
      FindRouteIsFirst(routes[1..], service, k - 1);
    }
  }

  lemma {:induction false} FindRouteFinds(routes: seq<RouteInfo>, service: string)
    requires FindRoute(routes, service).Ok?
    ensures exists k :: IsFirst(routes, service, k)
  {
    if routes[0].service == service {
      assert IsFirst(routes, service, 0);
    } else {
      FindRouteFinds(routes[1..], service);
      var k :| IsFirst(routes[1..], service, k);
      assert routes[k + 1] == routes[1..][k];
      assert IsFirst(routes, service, k + 1) by {
        forall j | 0 <= j < k + 1
          ensures routes[j].service != service
        {
          assert j > 0 ==> routes[j] == routes[1..][j - 1];
        }
      }
    }
  }

  // ----- What a reference stands for -----

  /** The segment that stands for `r` once the runtime `rt` is known. */
  ghost predicate StandsFor(r: Reference, rt: Runtime, s: Segment) {
    match r
    case Project => s == Lit(rt.project)
    case Branch => s == Lit(rt.branch)
    case Scope => s == Lit(rt.scope)
    case Port(name) =>
      if name in rt.ports then s.Lit? && Writes(s.text, rt.ports[name]) else name in rt.deferredPorts && s == Ref(r)
    case RouteHost(service) =>
      exists k :: IsFirst(rt.routes, service, k) && rt.routes[k].available && s == Lit(rt.routes[k].host)
    case RouteURL(service) =>
      exists k :: IsFirst(rt.routes, service, k) && rt.routes[k].available && s == Lit(rt.routes[k].url)
    case BadRoute(_) => false
    case Env(_) => false
    case Unknown(_) => false
  }

  /** The same under resolver settings that may keep every runtime reference. */
  ghost predicate Denotes(r: Reference, cfg: Config, s: Segment) {
    if !cfg.deferRuntime then StandsFor(r, cfg.runtime, s)
    else match r
      case Env(_) => false
      case Unknown(_) => false
      case _ => s == Ref(r)
  }

  lemma LookupStands(r: Reference, rt: Runtime, s: Segment)
    ensures Lookup(r, rt) == Ok(s) <==> StandsFor(r, rt, s)
  {
    match r {
      case Port(name) =>
        if name in rt.ports && s.Lit? {
          ItoaWrites(rt.ports[name], s.text);
        }
      case RouteHost(service) => FirstRouteStands(rt, service);
      case RouteURL(service) => FirstRouteStands(rt, service);
      case _ =>
    }
  }

  lemma FirstRouteStands(rt: Runtime, service: string)
    ensures FindRoute(rt.routes, service).Ok? ==> exists k :: IsFirst(rt.routes, service, k)
    ensures forall k :: IsFirst(rt.routes, service, k) ==>
              FindRoute(rt.routes, service) == if rt.routes[k].available then Ok(rt.routes[k]) else Err
  {
    if FindRoute(rt.routes, service).Ok? {
      FindRouteFinds(rt.routes, service);
    }
    forall k | IsFirst(rt.routes, service, k)
      ensures FindRoute(rt.routes, service) == if rt.routes[k].available then Ok(rt.routes[k]) else Err
    {
      FindRouteIsFirst(rt.routes, service, k);
    }
  }

  lemma RuntimeValueDenotes(r: Reference, cfg: Config, s: Segment)
    ensures RuntimeValue(r, cfg) == Ok(s) <==> Denotes(r, cfg, s)
  {
    LookupStands(r, cfg.runtime, s);
  }
}
