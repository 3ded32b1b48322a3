/**
 The resolution of a route's backends: every backend of every rule is checked against reference
 grants and known objects, and the route's status is that of the last failing backend.
 */
module BackendResolution {
  import opened Prelude
  import opened Backends
  import LS = ListenerStatus

  type Status = LS.Resolution

  const RESOLVED: Status := LS.RouteResolved

  datatype TargetPort = Numbered(port: int) | Named(name: string)

  datatype ServicePort = ServicePort(port: int, target: Option<TargetPort>)

  datatype ServiceSpec = ServiceSpec(clusterIp: Option<string>, ports: seq<ServicePort>)

  /** A known inference pool; `patched` tells whether its status update succeeds. */
  datatype Pool = Pool(spec: string, targetPorts: seq<int>, endpoints: seq<string>, hasName: bool, patched: bool)

  /** What the resolver looks up for one route of one gateway. */
  datatype Lookup = Lookup(gatewayNamespace: string, routeNamespace: string, granted: set<ResourceKey>,
                           services: map<ResourceKey, Option<ServiceSpec>>, pools: map<ResourceKey, Pool>)

  // ---------------------------------------------------------------------------------------------
  // One backend
  // ---------------------------------------------------------------------------------------------

  function FirstTarget(ports: seq<ServicePort>, port: int): int {
    if ports == [] then port
    else if ports[0].port == port then
      match ports[0].target
      case Some(Numbered(n)) => n
      case _ => port
    else FirstTarget(ports[1..], port)
  }

  /** The port behind a service: only a headless service maps a port to its numbered target. */
  function RemapPort(port: int, spec: Option<ServiceSpec>): int {
    if spec.None? then port
    else if spec.value.clusterIp.Some? && spec.value.clusterIp.value != "None" then port
    else FirstTarget(spec.value.ports, port)
  }

  predicate IsPermitted(env: Lookup, backendNamespace: string) {
    env.gatewayNamespace != env.routeNamespace || backendNamespace == env.gatewayNamespace
  }

  predicate IsPool(b: Backend) {
    b.type_.InferencePool?
  }

  datatype Processed = Processed(backend: Backend, status: Status)

  function NotResolved(reason: LS.Reason): Status {
    LS.RouteNotResolved(reason)
  }

  /** What happens to a backend that was settled before. */
  function Settled(b: Backend): Processed
    requires !b.Maybe?
  {
    if b.Resolved? then Processed(b, RESOLVED) else Processed(b, NotResolved(LS.InvalidBackendRef))
  }

  function ProcessService(env: Lookup, b: Backend): Processed
    requires !IsPool(b)
  {
    if !b.Maybe? then Settled(b)
    else
      var config := b.type_.service;
      if config.key in env.granted || IsPermitted(env, config.key.namespace) then
        if config.key in env.services then
          var port := RemapPort(config.port, env.services[config.key]);
          Processed(Resolved(Service(config.(effectivePort := port))), RESOLVED)
        else Processed(Unresolved(Service(config)), NotResolved(LS.BackendNotFound))
      else Processed(NotAllowed(Service(config)), NotResolved(LS.ReferenceNotPermitted))
  }

  function ProcessPool(env: Lookup, b: Backend): Processed
    requires IsPool(b)
  {
    if !b.Maybe? then Settled(b)
    else
      var config := b.type_.pool;
      if IsPermitted(env, config.key.namespace) then
        if config.key in env.pools then
          var pool := env.pools[config.key];
          var known := config.(extension := Some(pool.spec), targetPorts := pool.targetPorts,
                               endpoints := Some(pool.endpoints));
          if pool.hasName && pool.patched then Processed(Resolved(InferencePool(known)), RESOLVED)
          else Processed(Unresolved(InferencePool(known)), NotResolved(LS.BackendNotFound))
        else Processed(Unresolved(InferencePool(config)), NotResolved(LS.BackendNotFound))
      else Processed(NotAllowed(InferencePool(config)), NotResolved(LS.ReferenceNotPermitted))
  }

  function Process(env: Lookup, b: Backend): Processed {
    if IsPool(b) then ProcessPool(env, b) else ProcessService(env, b)
  }

  /** What the resolver knows of an open backend. */
  predicate Found(env: Lookup, b: Backend) {
    var key := b.type_.Key();
    if IsPool(b) then key in env.pools && env.pools[key].hasName && env.pools[key].patched
    else key in env.services
  }

  /** Grants are asked for services only. */
  predicate Allowed(env: Lookup, b: Backend) {
    || (!IsPool(b) && b.type_.Key() in env.granted)
    || env.gatewayNamespace != env.routeNamespace
    || b.type_.Key().namespace == env.gatewayNamespace
  }

  /** A backend's status is resolved exactly when the backend is; key and weight stay. An open backend
      is refused exactly if it is not allowed, resolved exactly if it is allowed and found, and
      unresolved otherwise; a settled one stays as it is. */
  lemma {:induction false} ProcessOutcome(env: Lookup, b: Backend)
    ensures var r := Process(env, b);
            && (r.status == RESOLVED <==> r.backend.Resolved?)
            && !r.backend.Maybe?
            && IsPool(r.backend) == IsPool(b)
            && r.backend.type_.Key() == b.type_.Key() && r.backend.type_.Weight() == b.type_.Weight()
            && (!b.Maybe? ==> r.backend == b)
            && (!b.Maybe? && !b.Resolved? ==> r.status == NotResolved(LS.InvalidBackendRef))
            && (b.Maybe? ==>
                  && (r.backend.NotAllowed? <==> !Allowed(env, b))
                  && (r.backend.Resolved? <==> Allowed(env, b) && Found(env, b))
                  && (r.backend.Unresolved? <==> Allowed(env, b) && !Found(env, b))
                  && (r.status == NotResolved(LS.ReferenceNotPermitted) <==> r.backend.NotAllowed?)
                  && (r.status == NotResolved(LS.BackendNotFound) <==> r.backend.Unresolved?))
  {
  }

  predicate Headless(spec: Option<ServiceSpec>) {
    spec.Some? && (spec.value.clusterIp.None? || spec.value.clusterIp.value == "None")
  }

  predicate FirstWithPort(ports: seq<ServicePort>, port: int, i: nat) {
    i < |ports| && ports[i].port == port && forall j :: 0 <= j < i ==> ports[j].port != port
  }

  ghost predicate NumberedAt(ports: seq<ServicePort>, port: int, i: nat) {
    FirstWithPort(ports, port, i) && ports[i].target.Some? && ports[i].target.value.Numbered?
  }

  /** A port is mapped to the target of the first service port of its number, if the service is headless
      and that target is a number; otherwise it stays. */
  lemma {:induction false} RemapOutcome(port: int, spec: Option<ServiceSpec>)
    ensures forall i: nat :: Headless(spec) && NumberedAt(spec.value.ports, port, i) ==>
              RemapPort(port, spec) == spec.value.ports[i].target.value.port
    ensures !(Headless(spec) && exists i: nat :: NumberedAt(spec.value.ports, port, i)) ==>
              RemapPort(port, spec) == port
  {
    if Headless(spec) {
      FirstTargetAt(spec.value.ports, port);
    }
  }

  /** What becomes of an open service: it keeps its name, port and weight; if it is allowed and known it is
      resolved, with the port that its first numbered target maps it to if it is headless, and else its
      own; and its status tells a refused one from an unknown one. */
  lemma {:induction false} ServiceOutcome(env: Lookup, b: Backend)
    requires b.Maybe? && !IsPool(b)
    ensures var c, out := b.type_.service, Process(env, b);
            var spec := if c.key in env.services then env.services[c.key] else None;
            if !(c.key in env.granted || env.gatewayNamespace != env.routeNamespace
                 || c.key.namespace == env.gatewayNamespace)
            then out == Processed(NotAllowed(Service(c)), LS.RouteNotResolved(LS.ReferenceNotPermitted))
            else if c.key !in env.services
            then out == Processed(Unresolved(Service(c)), LS.RouteNotResolved(LS.BackendNotFound))
            else
              && out.status == LS.RouteResolved && out.backend.Resolved? && out.backend.type_.Service?
              && var d := out.backend.type_.service;
                 && d.key == c.key && d.port == c.port && d.weight == c.weight
                 && (forall i: nat :: Headless(spec) && NumberedAt(spec.value.ports, c.port, i) ==>
                       d.effectivePort == spec.value.ports[i].target.value.port)
                 && (!(Headless(spec) && exists i: nat :: NumberedAt(spec.value.ports, c.port, i)) ==>
                       d.effectivePort == c.port)
  {
    var c := b.type_.service;
    if c.key in env.services {
      RemapOutcome(c.port, env.services[c.key]);
    }
  }

  /** What becomes of an open pool: grants are not asked for; a known one takes over the pool's extension,
      ports and endpoints, and is resolved if it has a name and its patch succeeds. */
  lemma {:induction false} PoolOutcome(env: Lookup, b: Backend)
    requires b.Maybe? && IsPool(b)
    ensures var c, out := b.type_.pool, Process(env, b);
            && out.backend.type_.InferencePool?
            && var d := out.backend.type_.pool;
               && d.key == c.key && d.weight == c.weight
               && (out.backend.NotAllowed? <==>
                   env.gatewayNamespace == env.routeNamespace && c.key.namespace != env.gatewayNamespace)
               && (out.backend.NotAllowed? || c.key !in env.pools ==> d == c)
               && (!out.backend.NotAllowed? && c.key in env.pools ==>
                     var pool := env.pools[c.key];
                     && d.extension == Some(pool.spec) && d.targetPorts == pool.targetPorts
                     && d.endpoints == Some(pool.endpoints)
                     && (out.backend.Resolved? <==> pool.hasName && pool.patched))
  {
    ProcessOutcome(env, b);
  }

  lemma {:induction false} FirstTargetAt(ports: seq<ServicePort>, port: int)
    ensures forall i: nat :: NumberedAt(ports, port, i) ==> FirstTarget(ports, port) == ports[i].target.value.port
    ensures (forall i: nat :: !NumberedAt(ports, port, i)) ==> FirstTarget(ports, port) == port
  {
    if ports != [] {
      var rest := ports[1..];
      FirstTargetAt(rest, port);
      if ports[0].port == port {
        assert NumberedAt(ports, port, 0) <==> ports[0].target.Some? && ports[0].target.value.Numbered?;
        assert forall i: nat :: FirstWithPort(ports, port, i) ==> i == 0;
      } else {
        forall i: nat ensures NumberedAt(ports, port, i + 1) <==> NumberedAt(rest, port, i) {
          NumberedTail(ports, port, i);
        }
        assert forall i: nat :: NumberedAt(ports, port, i) ==> i > 0 && NumberedAt(ports, port, (i - 1) + 1);
      }
    }
  }

  lemma {:induction false} NumberedTail(ports: seq<ServicePort>, port: int, i: nat)
    requires ports != [] && ports[0].port != port
    ensures NumberedAt(ports, port, i + 1) <==> NumberedAt(ports[1..], port, i)
  {
    if i + 1 < |ports| {
      assert forall j :: 0 <= j <= i ==> ports[1..][j] == ports[j + 1];
      if FirstWithPort(ports[1..], port, i) {
        forall j | 0 <= j < i + 1 ensures ports[j].port != port {
          assert j > 0 ==> ports[j] == ports[1..][j - 1];
        }
      }
    }
  }

  // ---------------------------------------------------------------------------------------------
  // A list of backends, for any processing of one backend
  // ---------------------------------------------------------------------------------------------

  type Processor = Backend -> Processed

  /** What `ProcessOutcome` establishes for the resolver's own processing. */
  ghost predicate Faithful(f: Processor) {
    forall b: Backend ::
      && (f(b).status == RESOLVED <==> f(b).backend.Resolved?)
      && IsPool(f(b).backend) == IsPool(b)
      && KeyWeight(f(b).backend) == KeyWeight(b)
  }

  function Group(bs: seq<Backend>, pools: bool): (out: seq<Backend>)
    ensures forall b :: b in out ==> b in bs && IsPool(b) == pools
  {
    if bs == [] then []
    else (if IsPool(bs[0]) == pools then [bs[0]] else []) + Group(bs[1..], pools)
  }

  function ProcessEach(f: Processor, bs: seq<Backend>): (out: seq<Backend>)
    ensures |out| == |bs|
    ensures forall i :: 0 <= i < |bs| ==> out[i] == f(bs[i]).backend
  {
    seq(|bs|, i requires 0 <= i < |bs| => f(bs[i]).backend)
  }

  /** The last status that is not resolved, if any. */
  function LastOf(ss: seq<Status>): Status {
    if ss == [] then RESOLVED
    else Override(LastOf(ss[..|ss| - 1]), ss[|ss| - 1])
  }

  function Override(before: Status, status: Status): Status {
    if status != RESOLVED then status else before
  }

  function Statuses(f: Processor, bs: seq<Backend>): seq<Status> {
    seq(|bs|, i requires 0 <= i < |bs| => f(bs[i]).status)
  }

  lemma {:induction false} LastOfIff(ss: seq<Status>)
    ensures LastOf(ss) == RESOLVED <==> forall i :: 0 <= i < |ss| ==> ss[i] == RESOLVED
    ensures LastOf(ss) != RESOLVED ==> LastOf(ss) in ss
  {
    if ss != [] {
      var n := |ss| - 1;
      assert ss == ss[..n] + [ss[n]];
      LastOfIff(ss[..n]);
    }
  }

  lemma {:induction false} LastOfConcat(a: seq<Status>, b: seq<Status>)
    ensures LastOf(a + b) == Override(LastOf(a), LastOf(b))
  {
    if b == [] {
      assert a + b == a;
    } else {
      assert (a + b)[..|a + b| - 1] == a + b[..|b| - 1];
      LastOfConcat(a, b[..|b| - 1]);
    }
  }

  /** The order in which a list is processed: services first, then pools. */
  function Ordered(bs: seq<Backend>): seq<Backend> {
    Group(bs, false) + Group(bs, true)
  }

  datatype List = List(backends: seq<Backend>, status: Status)

  function ProcessBackends(f: Processor, bs: seq<Backend>): List {
    List(ProcessEach(f, Ordered(bs)), LastOf(Statuses(f, Ordered(bs))))
  }

  function KeyWeight(b: Backend): (ResourceKey, int) {
    (b.type_.Key(), b.type_.Weight())
  }

  function KeyWeights(bs: seq<Backend>): multiset<(ResourceKey, int)> {
    if bs == [] then multiset{} else multiset{KeyWeight(bs[0])} + KeyWeights(bs[1..])
  }

  lemma {:induction false} KeyWeightsConcat(a: seq<Backend>, b: seq<Backend>)
    ensures KeyWeights(a + b) == KeyWeights(a) + KeyWeights(b)
  {
    if a == [] {
      assert a + b == b;
    } else {
      assert (a + b)[1..] == a[1..] + b;
      KeyWeightsConcat(a[1..], b);
    }
  }

  lemma {:induction false} GroupsKeep(bs: seq<Backend>)
    ensures KeyWeights(Group(bs, false)) + KeyWeights(Group(bs, true)) == KeyWeights(bs)
  {
    if bs != [] {
      GroupsKeep(bs[1..]);
      var pool := IsPool(bs[0]);
      assert ([bs[0]] + Group(bs[1..], pool))[1..] == Group(bs[1..], pool);
      assert Group(bs, pool) == [bs[0]] + Group(bs[1..], pool) && Group(bs, !pool) == Group(bs[1..], !pool);
    }
  }

  lemma {:induction false} ProcessEachKeeps(f: Processor, bs: seq<Backend>)
    requires Faithful(f)
    ensures KeyWeights(ProcessEach(f, bs)) == KeyWeights(bs)
  {
    if bs != [] {
      assert ProcessEach(f, bs)[1..] == ProcessEach(f, bs[1..]);
      ProcessEachKeeps(f, bs[1..]);
    }
  }

  lemma {:induction false} ListStatusIff(f: Processor, bs: seq<Backend>)
    requires Faithful(f)
    ensures LastOf(Statuses(f, bs)) == RESOLVED <==> forall b :: b in ProcessEach(f, bs) ==> b.Resolved?
  {
    var ss, out := Statuses(f, bs), ProcessEach(f, bs);
    LastOfIff(ss);
    forall i | 0 <= i < |bs| ensures ss[i] == RESOLVED <==> out[i].Resolved? {
    }
    assert forall i :: 0 <= i < |bs| ==> out[i] in out;
  }

  /** Processing a list: the status is resolved exactly when every backend ends resolved, and keys
      and weights are kept as a multiset. */
  lemma {:induction false} ProcessBackendsOutcome(f: Processor, bs: seq<Backend>)
    requires Faithful(f)
    ensures var out := ProcessBackends(f, bs);
            && (out.status == RESOLVED <==> forall b :: b in out.backends ==> b.Resolved?)
            && KeyWeights(out.backends) == KeyWeights(bs)
  {
    ListStatusIff(f, Ordered(bs));
    ProcessEachKeeps(f, Ordered(bs));
    KeyWeightsConcat(Group(bs, false), Group(bs, true));
    GroupsKeep(bs);
  }

  /** The positions of the services, or of the pools, in order. */
  function Positions(bs: seq<Backend>, pools: bool): (ps: seq<nat>)
    ensures forall k :: 0 <= k < |ps| ==> ps[k] < |bs|
  {
    if bs == [] then []
    else
      var n := |bs| - 1;
      Positions(bs[..n], pools) + if IsPool(bs[n]) == pools then [n] else []
  }

  /** `ps` are the positions of the services, or of the pools, in ascending order. */
  ghost predicate PositionsOf(bs: seq<Backend>, pools: bool, ps: seq<nat>) {
    && (forall i, j :: 0 <= i < j < |ps| ==> ps[i] < ps[j])
    && (forall p: nat :: p in ps <==> p < |bs| && IsPool(bs[p]) == pools)
  }

  /** The processed backends at the positions, in the order of the positions. */
  function ProcessAt(f: Processor, bs: seq<Backend>, ps: seq<nat>): seq<Backend>
    requires forall k :: 0 <= k < |ps| ==> ps[k] < |bs|
  {
    seq(|ps|, k requires 0 <= k < |ps| => f(bs[ps[k]]).backend)
  }

  lemma {:induction false} PositionsAscend(bs: seq<Backend>, pools: bool)
    ensures PositionsOf(bs, pools, Positions(bs, pools))
  {
    if bs != [] {
      var n := |bs| - 1;
      PositionsAscend(bs[..n], pools);
      var before := Positions(bs[..n], pools);
      assert forall i :: 0 <= i < |before| ==> before[i] in before;
      assert forall p :: 0 <= p < n ==> bs[..n][p] == bs[p];
    }
  }

  lemma {:induction false} GroupConcat(a: seq<Backend>, b: seq<Backend>, pools: bool)
    ensures Group(a + b, pools) == Group(a, pools) + Group(b, pools)
  {
    if a == [] {
      assert a + b == b;
    } else {
      assert (a + b)[1..] == a[1..] + b;
      GroupConcat(a[1..], b, pools);
    }
  }

  /** A group is the list read at its positions. */
  lemma {:induction false} GroupAtPositions(bs: seq<Backend>, pools: bool)
    ensures var g, ps := Group(bs, pools), Positions(bs, pools);
            |g| == |ps| && forall k :: 0 <= k < |g| ==> ps[k] < |bs| && g[k] == bs[ps[k]]
  {
    if bs != [] {
      var n := |bs| - 1;
      GroupAtPositions(bs[..n], pools);
      GroupSnoc(bs[..n], bs[n], pools);
      assert bs == bs[..n] + [bs[n]];
    }
  }

  lemma {:induction false} GroupSnoc(bs: seq<Backend>, b: Backend, pools: bool)
    ensures Group(bs + [b], pools) == Group(bs, pools) + if IsPool(b) == pools then [b] else []
  {
    GroupConcat(bs, [b], pools);
  }

  /** Services come before pools, and each group keeps its order: the processed list is the original at
      the ascending positions of all its services, then at those of all its pools. */
  lemma {:induction false} PoolsComeLast(f: Processor, bs: seq<Backend>)
    ensures PositionsOf(bs, false, Positions(bs, false)) && PositionsOf(bs, true, Positions(bs, true))
    ensures ProcessBackends(f, bs).backends ==
            ProcessAt(f, bs, Positions(bs, false)) + ProcessAt(f, bs, Positions(bs, true))
  {
    PositionsAscend(bs, false);
    PositionsAscend(bs, true);
    GroupProcessed(f, bs, false);
    GroupProcessed(f, bs, true);
    OrderedParts(f, bs);
  }

  lemma {:induction false} GroupProcessed(f: Processor, bs: seq<Backend>, pools: bool)
    ensures ProcessEach(f, Group(bs, pools)) == ProcessAt(f, bs, Positions(bs, pools))
  {
    GroupAtPositions(bs, pools);
  }

  // ---------------------------------------------------------------------------------------------
  // A route
  // ---------------------------------------------------------------------------------------------

  /** A routing rule; gRPC rules have no filter backends. */
  datatype Rule = Rule(backends: seq<Backend>, filterBackends: seq<Backend>)

  datatype Route = Route(isHttp: bool, rules: seq<Rule>, status: Status)

  function ResolveRule(f: Processor, isHttp: bool, r: Rule): Rule {
    Rule(ProcessBackends(f, r.backends).backends,
         if isHttp then ProcessBackends(f, r.filterBackends).backends else r.filterBackends)
  }

  /** The statuses of one rule's lists, in the order they are processed. */
  function RuleStatuses(f: Processor, isHttp: bool, r: Rule): seq<Status> {
    [ProcessBackends(f, r.backends).status] + (if isHttp then [ProcessBackends(f, r.filterBackends).status] else [])
  }

  function Flatten(parts: seq<seq<Status>>): seq<Status> {
    if parts == [] then [] else Flatten(parts[..|parts| - 1]) + parts[|parts| - 1]
  }

  lemma {:induction false} FlattenIff(parts: seq<seq<Status>>)
    ensures LastOf(Flatten(parts)) == RESOLVED <==> forall i :: 0 <= i < |parts| ==> LastOf(parts[i]) == RESOLVED
  {
    if parts != [] {
      var n := |parts| - 1;
      var init, last := parts[..n], parts[n];
      FlattenIff(init);
      LastOfConcat(Flatten(init), last);
      assert forall i :: 0 <= i < n ==> init[i] == parts[i];
    }
  }

  function RulesStatuses(f: Processor, isHttp: bool, rs: seq<Rule>): (parts: seq<seq<Status>>)
    ensures |parts| == |rs|
    ensures forall i :: 0 <= i < |rs| ==> parts[i] == RuleStatuses(f, isHttp, rs[i])
  {
    seq(|rs|, i requires 0 <= i < |rs| => RuleStatuses(f, isHttp, rs[i]))
  }

  function ResolveRoute(f: Processor, r: Route): Route {
    Route(r.isHttp,
          seq(|r.rules|, i requires 0 <= i < |r.rules| => ResolveRule(f, r.isHttp, r.rules[i])),
          LastOf(Flatten(RulesStatuses(f, r.isHttp, r.rules))))
  }

  /** Every backend of the rule that resolution processes ended resolved. */
  ghost predicate AllResolved(isHttp: bool, r: Rule) {
    && (forall b :: b in r.backends ==> b.Resolved?)
    && (isHttp ==> forall b :: b in r.filterBackends ==> b.Resolved?)
  }

  ghost predicate RuleClean(f: Processor, isHttp: bool, r: Rule) {
    LastOf(RuleStatuses(f, isHttp, r)) == RESOLVED
  }

  lemma {:induction false} RuleOutcome(f: Processor, isHttp: bool, r: Rule)
    requires Faithful(f)
    ensures RuleClean(f, isHttp, r) <==> AllResolved(isHttp, ResolveRule(f, isHttp, r))
    ensures KeyWeights(ResolveRule(f, isHttp, r).backends) == KeyWeights(r.backends)
    ensures KeyWeights(ResolveRule(f, isHttp, r).filterBackends) == KeyWeights(r.filterBackends)
  {
    ProcessBackendsOutcome(f, r.backends);
    ProcessBackendsOutcome(f, r.filterBackends);
    LastOfIff(RuleStatuses(f, isHttp, r));
    assert RuleStatuses(f, isHttp, r)[0] == ProcessBackends(f, r.backends).status;
    assert isHttp ==> RuleStatuses(f, isHttp, r)[1] == ProcessBackends(f, r.filterBackends).status;
  }

  // ---------------------------------------------------------------------------------------------
  // The resolver
  // ---------------------------------------------------------------------------------------------

  function Resolver(env: Lookup): Processor {
    (b: Backend) => Process(env, b)
  }

  lemma {:induction false} ResolverFaithful(env: Lookup)
    ensures Faithful(Resolver(env))
  {
    var f := Resolver(env);
    forall b: Backend
      ensures f(b).status == RESOLVED <==> f(b).backend.Resolved?
      ensures IsPool(f(b).backend) == IsPool(b) && KeyWeight(f(b).backend) == KeyWeight(b)
    {
      ProcessOutcome(env, b);
    }
  }

  /** A route ends resolved exactly when every processed backend of every rule, filter backends of
      HTTP rules included, ends resolved; and every rule keeps its backends' keys and weights. */
  lemma {:induction false} ResolveRouteOutcome(env: Lookup, r: Route)
    ensures var out := ResolveRoute(Resolver(env), r);
            && |out.rules| == |r.rules|
            && (out.status == RESOLVED <==> forall i :: 0 <= i < |out.rules| ==> AllResolved(r.isHttp, out.rules[i]))
            && (forall i :: 0 <= i < |r.rules| ==>
                  && KeyWeights(out.rules[i].backends) == KeyWeights(r.rules[i].backends)
                  && KeyWeights(out.rules[i].filterBackends) == KeyWeights(r.rules[i].filterBackends)
                  && (!r.isHttp ==> out.rules[i].filterBackends == r.rules[i].filterBackends))
  {
    ResolverFaithful(env);
    var f := Resolver(env);
    FlattenIff(RulesStatuses(f, r.isHttp, r.rules));
    var out := ResolveRoute(f, r);
    assert forall i :: 0 <= i < |r.rules| ==> out.rules[i] == ResolveRule(f, r.isHttp, r.rules[i]);
    forall i | 0 <= i < |r.rules|
      ensures RuleClean(f, r.isHttp, r.rules[i]) <==> AllResolved(r.isHttp, out.rules[i])
      ensures KeyWeights(out.rules[i].backends) == KeyWeights(r.rules[i].backends)
      ensures KeyWeights(out.rules[i].filterBackends) == KeyWeights(r.rules[i].filterBackends)
    {
      RuleOutcome(f, r.isHttp, r.rules[i]);
    }
  }

  // ---------------------------------------------------------------------------------------------
  // The status of a route that fails
  // ---------------------------------------------------------------------------------------------

  /** The statuses of all processed backends, in the order of processing: rule by rule, the rule's backends
      before those of its filters, and in either list services before pools. */
  function BackendStatuses(f: Processor, isHttp: bool, rs: seq<Rule>): seq<Status> {
    if rs == [] then []
    else
      var r := rs[|rs| - 1];
      BackendStatuses(f, isHttp, rs[..|rs| - 1])
      + (Statuses(f, Ordered(r.backends)) + if isHttp then Statuses(f, Ordered(r.filterBackends)) else [])
  }

  /** The status at `i` is a failure, and no later one is. */
  ghost predicate FailsLast(ss: seq<Status>, i: nat) {
    i < |ss| && ss[i] != RESOLVED && forall j :: i < j < |ss| ==> ss[j] == RESOLVED
  }

  lemma {:induction false} LastOfIs(ss: seq<Status>)
    ensures forall i: nat :: FailsLast(ss, i) ==> LastOf(ss) == ss[i]
  {
    if ss != [] {
      var n := |ss| - 1;
      var init := ss[..n];
      LastOfIs(init);
      forall i: nat | FailsLast(ss, i) ensures LastOf(ss) == ss[i] {
        assert i < n ==> ss[n] == RESOLVED && FailsLast(init, i);
      }
    }
  }

  lemma {:induction false} RuleStatusIs(f: Processor, isHttp: bool, r: Rule)
    ensures LastOf(RuleStatuses(f, isHttp, r)) ==
            LastOf(Statuses(f, Ordered(r.backends)) + if isHttp then Statuses(f, Ordered(r.filterBackends)) else [])
  {
    var a, b := Statuses(f, Ordered(r.backends)), Statuses(f, Ordered(r.filterBackends));
    if isHttp {
      LastOfConcat(a, b);
      LastOfConcat([LastOf(a)], [LastOf(b)]);
      LastOfOne(LastOf(b));
    } else {
      assert a + [] == a && RuleStatuses(f, isHttp, r) == [LastOf(a)];
    }
    LastOfOne(LastOf(a));
  }

  lemma {:induction false} LastOfOne(s: Status)
    ensures LastOf([s]) == s
  {
    assert [s][..0] == [];
  }

  lemma {:induction false} FlattenedStatusIs(f: Processor, isHttp: bool, rs: seq<Rule>)
    ensures LastOf(Flatten(RulesStatuses(f, isHttp, rs))) == LastOf(BackendStatuses(f, isHttp, rs))
  {
    if rs != [] {
      var n := |rs| - 1;
      var parts := RulesStatuses(f, isHttp, rs);
      FlattenedStatusIs(f, isHttp, rs[..n]);
      assert parts[..|parts| - 1] == RulesStatuses(f, isHttp, rs[..n]);
      LastOfConcat(Flatten(parts[..|parts| - 1]), parts[n]);
      RuleStatusIs(f, isHttp, rs[n]);
      LastOfConcat(BackendStatuses(f, isHttp, rs[..n]),
                   Statuses(f, Ordered(rs[n].backends))
                   + if isHttp then Statuses(f, Ordered(rs[n].filterBackends)) else []);
    }
  }

  /** A route that fails reports the status of the backend that was processed last among those that
      failed; earlier failures are forgotten. */
  lemma {:induction false} RouteStatusIsLast(f: Processor, r: Route, i: nat)
    requires FailsLast(BackendStatuses(f, r.isHttp, r.rules), i)
    ensures ResolveRoute(f, r).status == BackendStatuses(f, r.isHttp, r.rules)[i]
  {
    FlattenedStatusIs(f, r.isHttp, r.rules);
    LastOfIs(BackendStatuses(f, r.isHttp, r.rules));
  }

  // ---------------------------------------------------------------------------------------------
  // What a route may use
  // ---------------------------------------------------------------------------------------------

  /** A backend that leaves its route resolved: settled so before, or open, allowed and found. */
  predicate Usable(env: Lookup, b: Backend) {
    b.Resolved? || (b.Maybe? && Allowed(env, b) && Found(env, b))
  }

  ghost predicate RuleUses(isHttp: bool, r: Rule, b: Backend) {
    b in r.backends || (isHttp && b in r.filterBackends)
  }

  lemma {:induction false} GroupHas(bs: seq<Backend>, b: Backend)
    ensures b in Group(bs, IsPool(b)) <==> b in bs
  {
    if bs != [] {
      GroupHas(bs[1..], b);
    }
  }

  lemma {:induction false} ListUsableIff(env: Lookup, bs: seq<Backend>)
    ensures ProcessBackends(Resolver(env), bs).status == RESOLVED <==> forall b :: b in bs ==> Usable(env, b)
  {
    var f, ordered := Resolver(env), Ordered(bs);
    var ss := Statuses(f, ordered);
    LastOfIff(ss);
    forall i | 0 <= i < |ordered| ensures ss[i] == RESOLVED <==> Usable(env, ordered[i]) {
      ProcessOutcome(env, ordered[i]);
    }
    forall b | b in bs ensures exists i :: 0 <= i < |ordered| && ordered[i] == b {
      GroupHas(bs, b);
      assert b in ordered;
    }
  }

  lemma {:induction false} RuleUsableIff(env: Lookup, isHttp: bool, r: Rule)
    ensures LastOf(RuleStatuses(Resolver(env), isHttp, r)) == RESOLVED <==>
            forall b :: RuleUses(isHttp, r, b) ==> Usable(env, b)
  {
    var f := Resolver(env);
    ListUsableIff(env, r.backends);
    ListUsableIff(env, r.filterBackends);
    LastOfIff(RuleStatuses(f, isHttp, r));
    assert RuleStatuses(f, isHttp, r)[0] == ProcessBackends(f, r.backends).status;
    assert isHttp ==> RuleStatuses(f, isHttp, r)[1] == ProcessBackends(f, r.filterBackends).status;
  }

  /** A route ends resolved exactly if every backend of every rule, filter backends of HTTP rules included,
      was resolved before or is open, allowed and found. */
  lemma {:induction false} RouteResolvedIff(env: Lookup, r: Route)
    ensures ResolveRoute(Resolver(env), r).status == RESOLVED <==>
            forall i, b :: 0 <= i < |r.rules| && RuleUses(r.isHttp, r.rules[i], b) ==> Usable(env, b)
  {
    FlattenIff(RulesStatuses(Resolver(env), r.isHttp, r.rules));
    forall i | 0 <= i < |r.rules|
      ensures LastOf(RuleStatuses(Resolver(env), r.isHttp, r.rules[i])) == RESOLVED <==>
              forall b :: RuleUses(r.isHttp, r.rules[i], b) ==> Usable(env, b)
    {
      RuleUsableIff(env, r.isHttp, r.rules[i]);
    }
  }

  /** What reference grants are for: a route may use its own namespace and what it was granted. */
  predicate OwnOrGranted(env: Lookup, b: Backend) {
    b.type_.Key().namespace == env.routeNamespace || b.type_.Key() in env.granted
  }

  /** A route with the backend as its only one. */
  function RouteOf(isHttp: bool, b: Backend): Route {
    Route(isHttp, [Rule([b], [])], RESOLVED)
  }

  lemma {:induction false} OnlyBackendUsable(env: Lookup, isHttp: bool, b: Backend)
    ensures ResolveRoute(Resolver(env), RouteOf(isHttp, b)).status == RESOLVED <==> Usable(env, b)
  {
    var r := RouteOf(isHttp, b);
    RouteResolvedIff(env, r);
    assert r.isHttp == isHttp && |r.rules| == 1;
    assert RuleUses(r.isHttp, r.rules[0], b);
  }

  /** The exact condition for a route to an open and known backend to end resolved just if the backend is
      its own or granted: it is its own; or the route shares the gateway's namespace, and the backend is no
      granted pool; or the route does not share it, and the backend is granted. */
  lemma {:induction false} GrantsRespectedIff(env: Lookup, isHttp: bool, b: Backend)
    requires b.Maybe? && Found(env, b)
    ensures (ResolveRoute(Resolver(env), RouteOf(isHttp, b)).status == RESOLVED) == OwnOrGranted(env, b) <==>
            var granted := b.type_.Key() in env.granted;
            || b.type_.Key().namespace == env.routeNamespace
            || (if env.gatewayNamespace == env.routeNamespace then !(IsPool(b) && granted) else granted)
  {
    OnlyBackendUsable(env, isHttp, b);
  }

  /** A route of one namespace, at a gateway of another, uses a service of a third without any grant. */
  lemma {:induction false} UngrantedBackendUsed(env: Lookup, isHttp: bool, name: string, spec: Option<ServiceSpec>)
    requires env.gatewayNamespace == "a" && env.routeNamespace == "b" && env.granted == {}
    requires env.services == map[ResourceKey("", "c", name, "Service") := spec]
    ensures var b := Maybe(Service(ServiceConfig(ResourceKey("", "c", name, "Service"), 80, 80, 1)));
            !OwnOrGranted(env, b) && ResolveRoute(Resolver(env), RouteOf(isHttp, b)).status == RESOLVED
  {
    var b := Maybe(Service(ServiceConfig(ResourceKey("", "c", name, "Service"), 80, 80, 1)));
    GrantsRespectedIff(env, isHttp, b);
  }

  // ---------------------------------------------------------------------------------------------
  // The loops
  // ---------------------------------------------------------------------------------------------

  /** Processes one group, continuing from the status so far. */
  method ProcessGroup(env: Lookup, group: seq<Backend>, pools: bool, before: Status)
    returns (out: seq<Backend>, status: Status)
    requires forall b :: b in group ==> IsPool(b) == pools
    ensures out == ProcessEach(Resolver(env), group)
    ensures status == Override(before, LastOf(Statuses(Resolver(env), group)))
  {
    ghost var f := Resolver(env);
    ghost var ss := Statuses(f, group);
    out, status := [], before;
    for i := 0 to |group|
      invariant |out| == i && forall j :: 0 <= j < i ==> out[j] == f(group[j]).backend
      invariant status == Override(before, LastOf(ss[..i]))
    {
      assert group[i] in group && ss[..i + 1][..i] == ss[..i];
      var r: Processed;
      if pools {
        r := ProcessPool(env, group[i]);
      } else {
        r := ProcessService(env, group[i]);
      }
      assert r == f(group[i]);
      if r.status != RESOLVED {
        status := r.status;
      }
      out := out + [r.backend];
    }
    assert ss[..|group|] == ss;
  }

  lemma {:induction false} OrderedParts(f: Processor, bs: seq<Backend>)
    ensures ProcessBackends(f, bs)
            == List(ProcessEach(f, Group(bs, false)) + ProcessEach(f, Group(bs, true)),
                    Override(LastOf(Statuses(f, Group(bs, false))), LastOf(Statuses(f, Group(bs, true)))))
  {
    EachConcat(f, Group(bs, false), Group(bs, true));
    LastOfConcat(Statuses(f, Group(bs, false)), Statuses(f, Group(bs, true)));
  }

  lemma {:induction false} EachConcat(f: Processor, services: seq<Backend>, pools: seq<Backend>)
    ensures Statuses(f, services + pools) == Statuses(f, services) + Statuses(f, pools)
    ensures ProcessEach(f, services + pools) == ProcessEach(f, services) + ProcessEach(f, pools)
  {
  }

  method ProcessBackendsLoop(env: Lookup, bs: seq<Backend>) returns (out: List)
    ensures out == ProcessBackends(Resolver(env), bs)
  {
    OrderedParts(Resolver(env), bs);
    var services, serviceStatus := ProcessGroup(env, Group(bs, false), false, RESOLVED);
    var pools, status := ProcessGroup(env, Group(bs, true), true, serviceStatus);
    out := List(services + pools, status);
  }

  /** One round of the loop over the rules. */
  method ResolveOne(env: Lookup, isHttp: bool, rule: Rule, before: Status) returns (out: Rule, status: Status)
    ensures out == ResolveRule(Resolver(env), isHttp, rule)
    ensures status == Override(before, LastOf(RuleStatuses(Resolver(env), isHttp, rule)))
  {
    status := before;
    var backends := ProcessBackendsLoop(env, rule.backends);
    if backends.status != RESOLVED {
      status := backends.status;
    }
    var filterBackends := rule.filterBackends;
    ghost var ss := [backends.status];
    assert ss[..0] == [];
    if isHttp {
      var filtered := ProcessBackendsLoop(env, rule.filterBackends);
      filterBackends := filtered.backends;
      if filtered.status != RESOLVED {
        status := filtered.status;
      }
      LastOfConcat(ss, [filtered.status]);
      assert [filtered.status][..0] == [];
    }
    assert RuleStatuses(Resolver(env), isHttp, rule)
        == ss + (if isHttp then [ProcessBackends(Resolver(env), rule.filterBackends).status] else []);
    out := Rule(backends.backends, filterBackends);
  }

  lemma {:induction false} FlattenUpTo(parts: seq<seq<Status>>, i: nat)
    requires i < |parts|
    ensures LastOf(Flatten(parts[..i + 1])) == Override(LastOf(Flatten(parts[..i])), LastOf(parts[i]))
  {
    assert parts[..i + 1][..i] == parts[..i];
    LastOfConcat(Flatten(parts[..i]), parts[i]);
  }

  ghost predicate Goal(env: Lookup, isHttp: bool, rule: Rule, goal: Rule, part: seq<Status>) {
    goal == ResolveRule(Resolver(env), isHttp, rule) && part == RuleStatuses(Resolver(env), isHttp, rule)
  }

  /** The loop over the rules; `goal` and `parts` are what each rule resolves to. */
  method ResolveRules(env: Lookup, isHttp: bool, rs: seq<Rule>, ghost goal: seq<Rule>, ghost parts: seq<seq<Status>>)
    returns (rules: seq<Rule>, status: Status)
    requires |goal| == |parts| == |rs|
    requires forall j :: 0 <= j < |rs| ==> Goal(env, isHttp, rs[j], goal[j], parts[j])
    ensures rules == goal && status == LastOf(Flatten(parts))
  {
    rules, status := [], RESOLVED;
    for i := 0 to |rs|
      invariant Done(rules, status, goal, parts, i)
    {
      var rule, next := ResolveNext(env, isHttp, rs[i], status, goal[i], parts[i]);
      DoneNext(rules, status, goal, parts, i, next);
      rules, status := rules + [rule], next;
    }
    assert parts[..|parts|] == parts;
  }

  /** The first `i` rules are done. */
  ghost predicate Done(rules: seq<Rule>, status: Status, goal: seq<Rule>, parts: seq<seq<Status>>, i: nat)
    requires i <= |goal| == |parts|
  {
    rules == goal[..i] && status == LastOf(Flatten(parts[..i]))
  }

  lemma {:induction false} DoneNext(rules: seq<Rule>, status: Status, goal: seq<Rule>, parts: seq<seq<Status>>, i: nat,
                                    next: Status)
    requires i < |goal| == |parts| && Done(rules, status, goal, parts, i)
    requires next == Override(status, LastOf(parts[i]))
    ensures Done(rules + [goal[i]], next, goal, parts, i + 1)
  {
    FlattenUpTo(parts, i);
  }

  method ResolveNext(env: Lookup, isHttp: bool, rule: Rule, before: Status, ghost goal: Rule, ghost part: seq<Status>)
    returns (out: Rule, status: Status)
    requires Goal(env, isHttp, rule, goal, part)
    ensures out == goal && status == Override(before, LastOf(part))
  {
    out, status := ResolveOne(env, isHttp, rule, before);
  }

  method Resolve(env: Lookup, route: Route) returns (out: Route)
    ensures out == ResolveRoute(Resolver(env), route)
  {
    ghost var goal := ResolveRoute(Resolver(env), route).rules;
    ghost var parts := RulesStatuses(Resolver(env), route.isHttp, route.rules);
    var rules, status := ResolveRules(env, route.isHttp, route.rules, goal, parts);
    out := Route(route.isHttp, rules, status);
  }
}
