/**
 The precedence of routing rules: the comparators of HTTP and gRPC effective rules, the effective
 rules of a listener in the order they are generated, and which rule a request reaches.
 */
module RoutePrecedence {
  import opened Prelude
  import opened Backends
  import opened Orders
  import opened StableSorting

  datatype PathType = Exact | PathPrefix | RegularExpression

  datatype PathMatch = PathMatch(kind: Option<PathType>, value: Option<string>)

  datatype Method = Get | Head | Post | Put | Delete | Connect | Options | Trace | Patch

  datatype NameValue = NameValue(name: string, value: string)

  datatype HttpMatch = HttpMatch(headers: Option<seq<NameValue>>, verb: Option<Method>,
                                 path: Option<PathMatch>, queryParams: Option<seq<NameValue>>)

  datatype GrpcMethod = GrpcMethod(service: Option<string>, name: Option<string>)

  datatype GrpcMatch = GrpcMatch(headers: Option<seq<NameValue>>, call: Option<GrpcMethod>)

  /** One rule with one matcher, under its route's hostnames. */
  datatype Effective<M> = Effective(matcher: M, name: string, hostnames: seq<string>, body: RuleBody)

  // ---------------------------------------------------------------------------------------------
  // Comparators
  // ---------------------------------------------------------------------------------------------

  /** More entries first; no list at all comes last. */
  function CompareEntries(x: Option<seq<NameValue>>, y: Option<seq<NameValue>>): Ordering {
    match (x, y)
    case (None, None) => Equal
    case (None, Some(_)) => Greater
    case (Some(_), None) => Less
    case (Some(a), Some(b)) => CompareInt(|b|, |a|)
  }

  function PathRank(t: PathType): nat {
    match t
    case Exact => 0
    case PathPrefix => 1
    case RegularExpression => 2
  }

  function MethodRank(m: Method): nat {
    match m
    case Get => 0
    case Head => 1
    case Post => 2
    case Put => 3
    case Delete => 4
    case Connect => 5
    case Options => 6
    case Trace => 7
    case Patch => 8
  }

  function CompareMethod(x: Option<Method>, y: Option<Method>): Ordering {
    match (x, y)
    case (None, None) => Equal
    case (None, Some(_)) => Greater
    case (Some(_), None) => Less
    case (Some(a), Some(b)) => CompareInt(MethodRank(a), MethodRank(b))
  }

  /** Longer values first; no value comes last. */
  function ComparePathValue(x: Option<string>, y: Option<string>): Ordering {
    match (x, y)
    case (None, None) => Equal
    case (None, Some(_)) => Greater
    case (Some(_), None) => Less
    case (Some(a), Some(b)) => CompareInt(|b|, |a|)
  }

  function ComparePath(x: Option<PathMatch>, y: Option<PathMatch>): Ordering {
    match (x, y)
    case (None, None) => Equal
    case (None, Some(_)) => Greater
    case (Some(_), None) => Less
    case (Some(a), Some(b)) =>
      match (a.kind, b.kind)
      case (None, None) => CompareOptional(a.value, b.value)
      case (None, Some(_)) => Less
      case (Some(_), None) => Greater
      case (Some(s), Some(t)) => Then(CompareInt(PathRank(s), PathRank(t)), ComparePathValue(a.value, b.value))
  }

  /** The query comparison is given the headers of the two matchers, as the source does. */
  function CompareHttpMatch(x: HttpMatch, y: HttpMatch): Ordering {
    var pathOrder := ComparePath(x.path, y.path);
    var methodOrder := CompareMethod(x.verb, y.verb);
    var headerOrder := CompareEntries(x.headers, y.headers);
    var queryOrder := CompareEntries(x.headers, y.headers);
    if queryOrder.Equal? then
      if headerOrder.Equal? then
        if pathOrder.Equal? then methodOrder else pathOrder
      else headerOrder
    else queryOrder
  }

  function CompareGrpcMethod(x: Option<GrpcMethod>, y: Option<GrpcMethod>): Ordering {
    match (x, y)
    case (None, None) => Equal
    case (None, Some(_)) => Greater
    case (Some(_), None) => Less
    case (Some(a), Some(b)) =>
      var byMethod := CompareOptional(a.name, b.name);
      var byService := CompareOptional(a.service, b.service);
      if byMethod.Equal? then byService else byMethod
  }

  function CompareGrpcMatch(x: GrpcMatch, y: GrpcMatch): Ordering {
    var headerOrder := CompareEntries(x.headers, y.headers);
    if headerOrder.Equal? then CompareGrpcMethod(x.call, y.call) else headerOrder
  }

  function CompareHttp(x: Effective<HttpMatch>, y: Effective<HttpMatch>): Ordering {
    CompareHttpMatch(x.matcher, y.matcher)
  }

  function CompareGrpc(x: Effective<GrpcMatch>, y: Effective<GrpcMatch>): Ordering {
    CompareGrpcMatch(x.matcher, y.matcher)
  }

  lemma {:induction false} PathLaws(x: Option<PathMatch>, y: Option<PathMatch>, z: Option<PathMatch>)
    ensures ComparePath(y, x) == Flip(ComparePath(x, y))
    ensures Chains(ComparePath(x, y), ComparePath(y, z), ComparePath(x, z))
  {
    if x.Some? && y.Some? {
      OptionalLaws(x.value.value, y.value.value, if z.Some? then z.value.value else None);
    }
  }

  lemma {:induction false} GrpcMethodLaws(x: Option<GrpcMethod>, y: Option<GrpcMethod>, z: Option<GrpcMethod>)
    ensures CompareGrpcMethod(y, x) == Flip(CompareGrpcMethod(x, y))
    ensures Chains(CompareGrpcMethod(x, y), CompareGrpcMethod(y, z), CompareGrpcMethod(x, z))
  {
    if x.Some? && y.Some? {
      var c := if z.Some? then z.value else y.value;
      OptionalLaws(x.value.name, y.value.name, c.name);
      OptionalLaws(x.value.service, y.value.service, c.service);
    }
  }

  lemma {:induction false} HttpTotalPreorder()
    ensures TotalPreorder(CompareHttp)
  {
    forall x, y ensures CompareHttp(y, x) == Flip(CompareHttp(x, y)) {
      PathLaws(x.matcher.path, y.matcher.path, y.matcher.path);
    }
    forall x, y, z ensures Chains(CompareHttp(x, y), CompareHttp(y, z), CompareHttp(x, z)) {
      PathLaws(x.matcher.path, y.matcher.path, z.matcher.path);
    }
  }

  lemma {:induction false} GrpcTotalPreorder()
    ensures TotalPreorder(CompareGrpc)
  {
    forall x, y ensures CompareGrpc(y, x) == Flip(CompareGrpc(x, y)) {
      GrpcMethodLaws(x.matcher.call, y.matcher.call, y.matcher.call);
    }
    forall x, y, z ensures Chains(CompareGrpc(x, y), CompareGrpc(y, z), CompareGrpc(x, z)) {
      GrpcMethodLaws(x.matcher.call, y.matcher.call, z.matcher.call);
    }
  }

  // ---------------------------------------------------------------------------------------------
  // Effective rules of a listener
  // ---------------------------------------------------------------------------------------------

  datatype Rule<M> = Rule(name: string, matches: seq<M>, body: RuleBody)

  datatype RouteType = Http(httpRules: seq<Rule<HttpMatch>>) | Grpc(grpcRules: seq<Rule<GrpcMatch>>)

  datatype Route = Route(hostnames: seq<string>, routeType: RouteType)

  const DEFAULT_HTTP_MATCH := HttpMatch(Some([]), None, Some(PathMatch(Some(PathPrefix), Some("/"))), None)
  const DEFAULT_GRPC_MATCH := GrpcMatch(Some([]), None)

  /** One effective rule per matcher; a rule without matchers gets the default one. */
  function Matchers<M>(rule: Rule<M>, default_: M): seq<M> {
    if rule.matches == [] then [default_] else rule.matches
  }

  function OfRule<M>(rule: Rule<M>, default_: M, hostnames: seq<string>): seq<Effective<M>> {
    var matches := Matchers(rule, default_);
    seq(|matches|, i requires 0 <= i < |matches| => Effective(matches[i], rule.name, hostnames, rule.body))
  }

  function OfRules<M>(rules: seq<Rule<M>>, default_: M, hostnames: seq<string>): seq<Effective<M>> {
    if rules == [] then [] else OfRule(rules[0], default_, hostnames) + OfRules(rules[1..], default_, hostnames)
  }

  function HttpOf(r: Route): seq<Effective<HttpMatch>> {
    match r.routeType
    case Http(rules) => OfRules(rules, DEFAULT_HTTP_MATCH, r.hostnames)
    case Grpc(_) => []
  }

  function GrpcOf(r: Route): seq<Effective<GrpcMatch>> {
    match r.routeType
    case Http(_) => []
    case Grpc(rules) => OfRules(rules, DEFAULT_GRPC_MATCH, r.hostnames)
  }

  function HttpEffective(routes: seq<Route>): seq<Effective<HttpMatch>> {
    if routes == [] then [] else HttpOf(routes[0]) + HttpEffective(routes[1..])
  }

  function GrpcEffective(routes: seq<Route>): seq<Effective<GrpcMatch>> {
    if routes == [] then [] else GrpcOf(routes[0]) + GrpcEffective(routes[1..])
  }

  function HttpMatchingRules(resolved: seq<Route>, unresolved: seq<Route>): seq<Effective<HttpMatch>> {
    StableSort(CompareHttp, HttpEffective(resolved + unresolved))
  }

  function GrpcMatchingRules(resolved: seq<Route>, unresolved: seq<Route>): seq<Effective<GrpcMatch>> {
    StableSort(CompareGrpc, GrpcEffective(resolved + unresolved))
  }

  /** `e` is one of the rules with one of its matchers. */
  ghost predicate ComesFrom<M>(rules: seq<Rule<M>>, default_: M, hostnames: seq<string>, e: Effective<M>) {
    exists i :: 0 <= i < |rules| && e.name == rules[i].name && e.body == rules[i].body
                && e.hostnames == hostnames && e.matcher in Matchers(rules[i], default_)
  }

  lemma {:induction false} OfRulesIff<M>(rules: seq<Rule<M>>, default_: M, hostnames: seq<string>, e: Effective<M>)
    ensures e in OfRules(rules, default_, hostnames) <==> ComesFrom(rules, default_, hostnames, e)
  {
    if rules != [] {
      OfRulesIff(rules[1..], default_, hostnames, e);
      var matches, ofFirst := Matchers(rules[0], default_), OfRule(rules[0], default_, hostnames);
      assert forall k :: 0 <= k < |matches| ==> ofFirst[k].matcher == matches[k];
      if e.name == rules[0].name && e.body == rules[0].body && e.hostnames == hostnames && e.matcher in matches {
        var k :| 0 <= k < |matches| && matches[k] == e.matcher;
        assert ofFirst[k] == e;
      }
      if ComesFrom(rules[1..], default_, hostnames, e) {
        var i :| 0 <= i < |rules[1..]| && e.name == rules[1..][i].name && e.body == rules[1..][i].body
                 && e.hostnames == hostnames && e.matcher in Matchers(rules[1..][i], default_);
        assert rules[i + 1] == rules[1..][i];
      }
      if ComesFrom(rules, default_, hostnames, e) && e !in ofFirst {
        var i :| 0 <= i < |rules| && e.name == rules[i].name && e.body == rules[i].body
                 && e.hostnames == hostnames && e.matcher in Matchers(rules[i], default_);
        assert i > 0 && rules[i] == rules[1..][i - 1];
      }
    }
  }

  /** The HTTP effective rules are exactly the rules of the attached HTTP routes with each of their
      matchers, under their route's hostnames; a rule without matchers has the default one. */
  lemma {:induction false} EveryRuleEffective(routes: seq<Route>, e: Effective<HttpMatch>)
    ensures e in HttpEffective(routes) <==>
            exists r :: r in routes && r.routeType.Http?
                        && ComesFrom(r.routeType.httpRules, DEFAULT_HTTP_MATCH, r.hostnames, e)
  {
    if routes != [] {
      assert routes == [routes[0]] + routes[1..];
      EveryRuleEffective(routes[1..], e);
      if routes[0].routeType.Http? {
        OfRulesIff(routes[0].routeType.httpRules, DEFAULT_HTTP_MATCH, routes[0].hostnames, e);
      }
    }
  }

  lemma {:induction false} EveryGrpcRuleEffective(routes: seq<Route>, e: Effective<GrpcMatch>)
    ensures e in GrpcEffective(routes) <==>
            exists r :: r in routes && r.routeType.Grpc?
                        && ComesFrom(r.routeType.grpcRules, DEFAULT_GRPC_MATCH, r.hostnames, e)
  {
    if routes != [] {
      assert routes == [routes[0]] + routes[1..];
      EveryGrpcRuleEffective(routes[1..], e);
      if routes[0].routeType.Grpc? {
        OfRulesIff(routes[0].routeType.grpcRules, DEFAULT_GRPC_MATCH, routes[0].hostnames, e);
      }
    }
  }

  lemma {:induction false} OfRulesConcat<M>(a: seq<Rule<M>>, b: seq<Rule<M>>, default_: M, hostnames: seq<string>)
    ensures OfRules(a + b, default_, hostnames) == OfRules(a, default_, hostnames) + OfRules(b, default_, hostnames)
  {
    if a == [] {
      assert a + b == b;
    } else {
      assert (a + b)[1..] == a[1..] + b;
      OfRulesConcat(a[1..], b, default_, hostnames);
    }
  }

  lemma {:induction false} HttpEffectiveConcat(a: seq<Route>, b: seq<Route>)
    ensures HttpEffective(a + b) == HttpEffective(a) + HttpEffective(b)
  {
    if a == [] {
      assert a + b == b;
    } else {
      assert (a + b)[1..] == a[1..] + b;
      HttpEffectiveConcat(a[1..], b);
    }
  }

  lemma {:induction false} GrpcEffectiveConcat(a: seq<Route>, b: seq<Route>)
    ensures GrpcEffective(a + b) == GrpcEffective(a) + GrpcEffective(b)
  {
    if a == [] {
      assert a + b == b;
    } else {
      assert (a + b)[1..] == a[1..] + b;
      GrpcEffectiveConcat(a[1..], b);
    }
  }

  lemma {:induction false} OfRulesAround<M>(first: seq<Rule<M>>, rule: Rule<M>, rest: seq<Rule<M>>, default_: M,
                                            hostnames: seq<string>)
    ensures OfRules(first + [rule] + rest, default_, hostnames) ==
            OfRules(first, default_, hostnames) + OfRule(rule, default_, hostnames) + OfRules(rest, default_, hostnames)
  {
    OfRulesConcat(first + [rule], rest, default_, hostnames);
    OfRulesConcat(first, [rule], default_, hostnames);
    assert [rule][1..] == [];
  }

  lemma {:induction false} Reassociated<T>(a: seq<T>, x: seq<T>, y: seq<T>, z: seq<T>, b: seq<T>)
    ensures (a + (x + y + z)) + b == (a + x) + y + (z + b)
  {
  }

  /** The effective rules that a rule's matchers make, in the order of the matchers. */
  ghost predicate InOrder<M>(es: seq<Effective<M>>, rule: Rule<M>, default_: M, hostnames: seq<string>) {
    && |es| == (if rule.matches == [] then 1 else |rule.matches|)
    && forall k :: 0 <= k < |es| ==>
         es[k] == Effective(if rule.matches == [] then default_ else rule.matches[k], rule.name, hostnames, rule.body)
  }

  /** Effective rules come in the order of the routes, within a route in that of its rules, and within a
      rule in that of its matchers: what any one rule makes stands between what the rules before and the
      rules after it make. Ties in precedence go by this order. */
  lemma {:induction false} HttpEffectiveOrder(before: seq<Route>, r: Route, after: seq<Route>,
                                              first: seq<Rule<HttpMatch>>, rule: Rule<HttpMatch>,
                                              rest: seq<Rule<HttpMatch>>)
    returns (own: seq<Effective<HttpMatch>>)
    requires r.routeType == Http(first + [rule] + rest)
    ensures InOrder(own, rule, DEFAULT_HTTP_MATCH, r.hostnames)
    ensures HttpEffective(before + [r] + after) ==
            HttpEffective(before + [r.(routeType := Http(first))]) + own
            + HttpEffective([r.(routeType := Http(rest))] + after)
  {
    own := OfRule(rule, DEFAULT_HTTP_MATCH, r.hostnames);
    HttpAround(before, r, after);
    HttpEffectiveConcat(before, [r.(routeType := Http(first))]);
    HttpEffectiveConcat([r.(routeType := Http(rest))], after);
    OneHttpRoute(r.(routeType := Http(first)));
    OneHttpRoute(r.(routeType := Http(rest)));
    OfRulesAround(first, rule, rest, DEFAULT_HTTP_MATCH, r.hostnames);
    Reassociated(HttpEffective(before), OfRules(first, DEFAULT_HTTP_MATCH, r.hostnames), own,
                 OfRules(rest, DEFAULT_HTTP_MATCH, r.hostnames), HttpEffective(after));
  }

  lemma {:induction false} OneHttpRoute(r: Route)
    ensures HttpEffective([r]) == HttpOf(r)
  {
    assert [r][1..] == [];
  }

  lemma {:induction false} HttpAround(before: seq<Route>, r: Route, after: seq<Route>)
    ensures HttpEffective(before + [r] + after) == HttpEffective(before) + HttpOf(r) + HttpEffective(after)
  {
    HttpEffectiveConcat(before + [r], after);
    HttpEffectiveConcat(before, [r]);
    OneHttpRoute(r);
  }

  lemma {:induction false} OneGrpcRoute(r: Route)
    ensures GrpcEffective([r]) == GrpcOf(r)
  {
    assert [r][1..] == [];
  }

  lemma {:induction false} GrpcAround(before: seq<Route>, r: Route, after: seq<Route>)
    ensures GrpcEffective(before + [r] + after) == GrpcEffective(before) + GrpcOf(r) + GrpcEffective(after)
  {
    GrpcEffectiveConcat(before + [r], after);
    GrpcEffectiveConcat(before, [r]);
    OneGrpcRoute(r);
  }

  lemma {:induction false} GrpcEffectiveOrder(before: seq<Route>, r: Route, after: seq<Route>,
                                              first: seq<Rule<GrpcMatch>>, rule: Rule<GrpcMatch>,
                                              rest: seq<Rule<GrpcMatch>>)
    returns (own: seq<Effective<GrpcMatch>>)
    requires r.routeType == Grpc(first + [rule] + rest)
    ensures InOrder(own, rule, DEFAULT_GRPC_MATCH, r.hostnames)
    ensures GrpcEffective(before + [r] + after) ==
            GrpcEffective(before + [r.(routeType := Grpc(first))]) + own
            + GrpcEffective([r.(routeType := Grpc(rest))] + after)
  {
    own := OfRule(rule, DEFAULT_GRPC_MATCH, r.hostnames);
    GrpcAround(before, r, after);
    GrpcEffectiveConcat(before, [r.(routeType := Grpc(first))]);
    GrpcEffectiveConcat([r.(routeType := Grpc(rest))], after);
    OneGrpcRoute(r.(routeType := Grpc(first)));
    OneGrpcRoute(r.(routeType := Grpc(rest)));
    OfRulesAround(first, rule, rest, DEFAULT_GRPC_MATCH, r.hostnames);
    Reassociated(GrpcEffective(before), OfRules(first, DEFAULT_GRPC_MATCH, r.hostnames), own,
                 OfRules(rest, DEFAULT_GRPC_MATCH, r.hostnames), GrpcEffective(after));
  }

  /** Sorting loses and adds nothing. */
  lemma {:induction false} MatchingRulesIn(resolved: seq<Route>, unresolved: seq<Route>)
    ensures forall e :: e in HttpMatchingRules(resolved, unresolved) <==> e in HttpEffective(resolved + unresolved)
    ensures forall e :: e in GrpcMatchingRules(resolved, unresolved) <==> e in GrpcEffective(resolved + unresolved)
  {
    HttpTotalPreorder();
    GrpcTotalPreorder();
    var http, grpc := HttpEffective(resolved + unresolved), GrpcEffective(resolved + unresolved);
    SortSorted(CompareHttp, http);
    SortSorted(CompareGrpc, grpc);
    assert forall e :: e in StableSort(CompareHttp, http) <==> e in multiset(StableSort(CompareHttp, http));
    assert forall e :: e in StableSort(CompareGrpc, grpc) <==> e in multiset(StableSort(CompareGrpc, grpc));
  }

  // ---------------------------------------------------------------------------------------------
  // The rule a request reaches
  // ---------------------------------------------------------------------------------------------

  function Both<T>(p: T -> bool, q: T -> bool): T -> bool {
    (x: T) => p(x) && q(x)
  }

  lemma {:induction false} FirstMatchFilter<T>(s: seq<T>, p: T -> bool, q: T -> bool)
    ensures FirstMatch(Filter(s, p), q) == FirstMatch(s, Both(p, q))
  {
    if s != [] {
      FirstMatchFilter(s[1..], p, q);
      FilterTail(s, p);
      if p(s[0]) {
        assert Filter(s, p)[1..] == Filter(s[1..], p);
      }
    }
  }

  /** In a virtual host's sorted and hostname-filtered list, the first HTTP rule that accepts a
      request is, of all effective rules of the listener that serve the hostname and accept the
      request, the one of highest precedence, ties going to the rule listed earlier. The same list
      results from filtering before sorting. */
  lemma {:induction false} HttpRequestReachesBest(resolved: seq<Route>, unresolved: seq<Route>,
                                                  serves: Effective<HttpMatch> -> bool,
                                                  accepts: Effective<HttpMatch> -> bool)
    ensures var all := HttpEffective(resolved + unresolved);
            var hosted := Filter(HttpMatchingRules(resolved, unresolved), serves);
            && hosted == StableSort(CompareHttp, Filter(all, serves))
            && match FirstMatch(hosted, accepts)
               case None => forall r :: r in all ==> !(serves(r) && accepts(r))
               case Some(r) => exists i: nat :: IsBest(CompareHttp, all, Both(serves, accepts), i) && all[i] == r
    ensures var all := HttpEffective(resolved + unresolved);
            forall i: nat :: IsBest(CompareHttp, all, Both(serves, accepts), i) ==>
              FirstMatch(Filter(HttpMatchingRules(resolved, unresolved), serves), accepts) == Some(all[i])
  {
    HttpTotalPreorder();
    var all := HttpEffective(resolved + unresolved);
    FilterSortCommute(CompareHttp, all, serves);
    FirstMatchFilter(StableSort(CompareHttp, all), serves, accepts);
    FirstMatchIsBest(CompareHttp, all, Both(serves, accepts));
    forall i: nat | IsBest(CompareHttp, all, Both(serves, accepts), i)
      ensures FirstMatch(StableSort(CompareHttp, all), Both(serves, accepts)) == Some(all[i])
    {
      BestIsFirstMatch(CompareHttp, all, Both(serves, accepts), i);
    }
    assert forall r :: Both(serves, accepts)(r) <==> serves(r) && accepts(r);
  }

  lemma {:induction false} GrpcRequestReachesBest(resolved: seq<Route>, unresolved: seq<Route>,
                                                  serves: Effective<GrpcMatch> -> bool,
                                                  accepts: Effective<GrpcMatch> -> bool)
    ensures var all := GrpcEffective(resolved + unresolved);
            var hosted := Filter(GrpcMatchingRules(resolved, unresolved), serves);
            && hosted == StableSort(CompareGrpc, Filter(all, serves))
            && match FirstMatch(hosted, accepts)
               case None => forall r :: r in all ==> !(serves(r) && accepts(r))
               case Some(r) => exists i: nat :: IsBest(CompareGrpc, all, Both(serves, accepts), i) && all[i] == r
    ensures var all := GrpcEffective(resolved + unresolved);
            forall i: nat :: IsBest(CompareGrpc, all, Both(serves, accepts), i) ==>
              FirstMatch(Filter(GrpcMatchingRules(resolved, unresolved), serves), accepts) == Some(all[i])
  {
    GrpcTotalPreorder();
    var all := GrpcEffective(resolved + unresolved);
    FilterSortCommute(CompareGrpc, all, serves);
    FirstMatchFilter(StableSort(CompareGrpc, all), serves, accepts);
    FirstMatchIsBest(CompareGrpc, all, Both(serves, accepts));
    forall i: nat | IsBest(CompareGrpc, all, Both(serves, accepts), i)
      ensures FirstMatch(StableSort(CompareGrpc, all), Both(serves, accepts)) == Some(all[i])
    {
      BestIsFirstMatch(CompareGrpc, all, Both(serves, accepts), i);
    }
    assert forall r :: Both(serves, accepts)(r) <==> serves(r) && accepts(r);
  }

  // ---------------------------------------------------------------------------------------------
  // What the order means, and where it departs from the Gateway API
  // ---------------------------------------------------------------------------------------------

  function Entries(x: Option<seq<NameValue>>): nat {
    if x.None? then 0 else 1 + |x.value|
  }

  /** Paths without a type rank first, then exact, prefix and regular-expression paths, then none. */
  function PathClass(p: Option<PathMatch>): nat {
    if p.None? then 4
    else match p.value.kind
      case None => 0
      case Some(Exact) => 1
      case Some(PathPrefix) => 2
      case Some(RegularExpression) => 3
  }

  function ValueLength(p: Option<PathMatch>): nat {
    if p.None? || p.value.value.None? then 0 else 1 + |p.value.value.value|
  }

  /** Within a class: values of untyped paths in their order, otherwise the longer value first. */
  predicate PathBefore(p: Option<PathMatch>, q: Option<PathMatch>) {
    || PathClass(p) < PathClass(q)
    || (PathClass(p) == PathClass(q) && PathClass(p) > 0 && ValueLength(p) > ValueLength(q))
    || (PathClass(p) == PathClass(q) == 0 && CompareOptional(p.value.value, q.value.value).Less?)
  }

  /** The methods in the order in which the Gateway API declares them. */
  const METHODS := [Get, Head, Post, Put, Delete, Connect, Options, Trace, Patch]

  /** A method comes before one that is declared later, and before none. */
  predicate VerbBefore(m: Option<Method>, n: Option<Method>) {
    m.Some? && (n.None? || exists i, j :: 0 <= i < j < |METHODS| && METHODS[i] == m.value && METHODS[j] == n.value)
  }

  lemma {:induction false} VerbBeforeIff(m: Option<Method>, n: Option<Method>)
    ensures VerbBefore(m, n) <==> m.Some? && (n.None? || MethodRank(m.value) < MethodRank(n.value))
  {
    assert forall i :: 0 <= i < |METHODS| ==> MethodRank(METHODS[i]) == i;
    if m.Some? && n.Some? {
      assert METHODS[MethodRank(m.value)] == m.value && METHODS[MethodRank(n.value)] == n.value;
    }
  }

  /** Most headers first, then the path, then the method. Query parameters have no part in it. */
  predicate RankedBefore(x: HttpMatch, y: HttpMatch) {
    || Entries(x.headers) > Entries(y.headers)
    || (&& Entries(x.headers) == Entries(y.headers)
        && (|| PathBefore(x.path, y.path)
            || (!PathBefore(y.path, x.path) && VerbBefore(x.verb, y.verb))))
  }

  /** The comparator, with all its cases, is this ranking. */
  lemma {:induction false} ComparatorIsRanking(x: HttpMatch, y: HttpMatch)
    ensures CompareHttpMatch(x, y).Less? <==> RankedBefore(x, y)
    ensures CompareHttpMatch(x, y).Greater? <==> RankedBefore(y, x)
  {
    PathIsRanking(x.path, y.path);
    VerbBeforeIff(x.verb, y.verb);
    VerbBeforeIff(y.verb, x.verb);
  }

  lemma {:induction false} PathIsRanking(p: Option<PathMatch>, q: Option<PathMatch>)
    ensures ComparePath(p, q).Less? <==> PathBefore(p, q)
    ensures ComparePath(p, q).Greater? <==> PathBefore(q, p)
  {
    if p.Some? && q.Some? {
      OptionalLaws(p.value.value, q.value.value, None);
    }
  }

  /** Most headers first, then a method over none, then method names and services in their order. */
  predicate GrpcRankedBefore(x: GrpcMatch, y: GrpcMatch) {
    || Entries(x.headers) > Entries(y.headers)
    || (&& Entries(x.headers) == Entries(y.headers) && x.call.Some?
        && (|| y.call.None?
            || CompareOptional(x.call.value.name, y.call.value.name).Less?
            || (x.call.value.name == y.call.value.name
                && CompareOptional(x.call.value.service, y.call.value.service).Less?)))
  }

  lemma {:induction false} GrpcComparatorIsRanking(x: GrpcMatch, y: GrpcMatch)
    ensures CompareGrpcMatch(x, y).Less? <==> GrpcRankedBefore(x, y)
    ensures CompareGrpcMatch(x, y).Greater? <==> GrpcRankedBefore(y, x)
  {
    if x.call.Some? && y.call.Some? {
      OptionalLaws(x.call.value.name, y.call.value.name, None);
      OptionalLaws(x.call.value.service, y.call.value.service, None);
    }
  }

  /** A request that reaches a rule reaches one that no accepting rule of the list outranks. */
  lemma {:induction false} ReachedIsRankedFirst(s: seq<Effective<HttpMatch>>, accepts: Effective<HttpMatch> -> bool,
                                                other: Effective<HttpMatch>)
    requires other in s && accepts(other)
    ensures var reached := FirstMatch(StableSort(CompareHttp, s), accepts);
            reached.Some? && reached.value in s && accepts(reached.value)
            && !RankedBefore(other.matcher, reached.value.matcher)
  {
    HttpTotalPreorder();
    FirstMatchIsBest(CompareHttp, s, accepts);
    var r := FirstMatch(StableSort(CompareHttp, s), accepts).value;
    var i: nat :| IsBest(CompareHttp, s, accepts, i) && s[i] == r;
    var j :| 0 <= j < |s| && s[j] == other;
    assert !CompareHttp(s[i], s[j]).Greater?;
    ComparatorIsRanking(r.matcher, other.matcher);
  }

  /** The same for gRPC rules. */
  lemma {:induction false} GrpcReachedIsRankedFirst(s: seq<Effective<GrpcMatch>>,
                                                    accepts: Effective<GrpcMatch> -> bool, other: Effective<GrpcMatch>)
    requires other in s && accepts(other)
    ensures var reached := FirstMatch(StableSort(CompareGrpc, s), accepts);
            reached.Some? && reached.value in s && accepts(reached.value)
            && !GrpcRankedBefore(other.matcher, reached.value.matcher)
  {
    GrpcTotalPreorder();
    FirstMatchIsBest(CompareGrpc, s, accepts);
    var r := FirstMatch(StableSort(CompareGrpc, s), accepts).value;
    var i: nat :| IsBest(CompareGrpc, s, accepts, i) && s[i] == r;
    var j :| 0 <= j < |s| && s[j] == other;
    assert !CompareGrpc(s[i], s[j]).Greater?;
    GrpcComparatorIsRanking(r.matcher, other.matcher);
  }

  /** A reached rule has no header list exactly if no rule that accepts the request has one. A rule
      without matchers is given an empty list, so it, too, keeps requests from rules without one. */
  lemma {:induction false} HeaderlessReachedIff(s: seq<Effective<HttpMatch>>, accepts: Effective<HttpMatch> -> bool)
    ensures match FirstMatch(StableSort(CompareHttp, s), accepts)
            case None => forall e :: e in s ==> !accepts(e)
            case Some(r) => r.matcher.headers.None? <==> forall e :: e in s && accepts(e) ==> e.matcher.headers.None?
  {
    HttpTotalPreorder();
    FirstMatchIsBest(CompareHttp, s, accepts);
    var reached := FirstMatch(StableSort(CompareHttp, s), accepts);
    if reached.Some? {
      forall e | e in s && accepts(e) ensures reached.value.matcher.headers.None? ==> e.matcher.headers.None? {
        ReachedIsRankedFirst(s, accepts, e);
      }
    }
  }

  // ---------------------------------------------------------------------------------------------
  // The documented order
  // ---------------------------------------------------------------------------------------------

  /** What first distinguishes two matchers in the order that the Gateway API documents for the
      `matches` of an HTTPRouteRule. */
  datatype Criterion = ByPath | ByMethod | ByHeaders | ByQuery

  function KindOf(m: HttpMatch): PathType {
    if m.path.Some? && m.path.value.kind.Some? then m.path.value.kind.value else PathPrefix
  }

  /** A matcher without a path, or without its value, has the documented default. */
  function PathValue(m: HttpMatch): string {
    if m.path.Some? && m.path.value.value.Some? then m.path.value.value.value else "/"
  }

  function Count(x: Option<seq<NameValue>>): nat {
    if x.None? then 0 else |x.value|
  }

  /** An exact path comes first, then the prefix with more characters. */
  predicate PathDemands(x: HttpMatch, y: HttpMatch) {
    || (KindOf(x).Exact? && !KindOf(y).Exact?)
    || (KindOf(x).PathPrefix? && KindOf(y).PathPrefix? && |PathValue(x)| > |PathValue(y)|)
  }

  /** Nothing is demanded of a regular expression and a prefix. */
  predicate PathsTie(x: HttpMatch, y: HttpMatch) {
    KindOf(x) == KindOf(y) && !PathDemands(x, y) && !PathDemands(y, x)
  }

  /** Why the documentation demands `x` before `y`, if it does: path, then having a method, then the
      number of headers, then of query parameters. */
  function Demands(x: HttpMatch, y: HttpMatch): Option<Criterion> {
    if PathDemands(x, y) then Some(ByPath)
    else if !PathsTie(x, y) then None
    else if x.verb.Some? != y.verb.Some? then (if x.verb.Some? then Some(ByMethod) else None)
    else if Count(x.headers) != Count(y.headers) then
      (if Count(x.headers) > Count(y.headers) then Some(ByHeaders) else None)
    else if Count(x.queryParams) > Count(y.queryParams) then Some(ByQuery)
    else None
  }

  /** The documentation never demands both orders. */
  lemma {:induction false} DemandsOneWay(x: HttpMatch, y: HttpMatch)
    ensures Demands(x, y).Some? ==> Demands(y, x).None?
  {
  }

  /** The exact condition for a pair to be ordered as documented: the matcher demanded first has more
      header entries; or both have as many, and the comparator's path, then method order agrees. A
      demand by headers is always met. The documentation never demands the other order as well. */
  lemma {:induction false} DocumentedIff(x: HttpMatch, y: HttpMatch)
    requires Demands(x, y).Some?
    ensures CompareHttpMatch(x, y).Less? <==>
            || Entries(x.headers) > Entries(y.headers)
            || (Entries(x.headers) == Entries(y.headers)
                && match Demands(x, y).value
                   case ByPath => PathBefore(x.path, y.path)
                   case ByMethod => !PathBefore(y.path, x.path)
                   case ByHeaders => false
                   case ByQuery => PathBefore(x.path, y.path)
                                   || (!PathBefore(y.path, x.path) && VerbBefore(x.verb, y.verb)))
    ensures Demands(x, y) == Some(ByHeaders) ==> CompareHttpMatch(x, y).Less?
    ensures Demands(y, x).None?
  {
    DemandsOneWay(x, y);
    PathIsRanking(x.path, y.path);
    if x.path.Some? && y.path.Some? {
      OptionalLaws(x.path.value.value, y.path.value.value, None);
    }
    ComparatorIsRanking(x, y);
  }

  predicate FullPath(m: HttpMatch) {
    m.path.Some? && m.path.value.kind.Some? && m.path.value.value.Some?
  }

  /** With paths as the API server stores them, of a type and with a value, a demand by path is met
      exactly if the other matcher has no more header entries, and one by method exactly if it has
      none more and, if as many, no longer path. */
  lemma {:induction false} DocumentedForFullPaths(x: HttpMatch, y: HttpMatch)
    requires FullPath(x) && FullPath(y)
    ensures Demands(x, y) == Some(ByPath) ==>
              (CompareHttpMatch(x, y).Less? <==> Entries(x.headers) >= Entries(y.headers))
    ensures Demands(x, y) == Some(ByMethod) ==>
              (CompareHttpMatch(x, y).Less? <==>
               || Entries(x.headers) > Entries(y.headers)
               || (Entries(x.headers) == Entries(y.headers) && |PathValue(x)| >= |PathValue(y)|))
  {
    ComparatorIsRanking(x, y);
  }

  /** A reversed pair: an exact path loses its requests to any path with one header match. */
  lemma {:induction false} HeaderBeatsExactPath(exact: Effective<HttpMatch>, header: Effective<HttpMatch>, h: NameValue,
                                                accepts: Effective<HttpMatch> -> bool)
    requires exact.matcher == HttpMatch(None, None, Some(PathMatch(Some(Exact), Some("/login"))), None)
    requires header.matcher == HttpMatch(Some([h]), None, Some(PathMatch(Some(PathPrefix), Some("/"))), None)
    requires accepts(exact) && accepts(header)
    ensures Demands(exact.matcher, header.matcher) == Some(ByPath)
    ensures FirstMatch(StableSort(CompareHttp, [exact, header]), accepts) == Some(header)
  {
    var s := [exact, header];
    ReachedIsRankedFirst(s, accepts, header);
    var r := FirstMatch(StableSort(CompareHttp, s), accepts).value;
    assert r == exact || r == header;
  }
}
