/**
 The generation of envoy virtual hosts and clusters from a gateway's listeners. Routes name clusters
 in three ways: weighted backends, mirrored backends, and the ext-proc service of an inference pool.
 The clusters are generated elsewhere, from the attached routes and from a list of inference pools
 collected on the side, so that a route's names resolve is a property across both.
 */
module ClusterGeneration {
  import opened Prelude
  import opened Orders
  import opened StableSorting
  import opened Backends
  import RP = RoutePrecedence
  import LS = ListenerStatus

  type HttpRule = RP.Effective<RP.HttpMatch>
  type GrpcRule = RP.Effective<RP.GrpcMatch>

  datatype Listener = Listener(name: string, port: int, protocol: LS.Protocol, hostname: Option<string>,
                               tls: Option<LS.TlsType>, resolved: seq<RP.Route>, unresolved: seq<RP.Route>)

  /** What a generator is made for: the gateway's name, the hostname filter of the matcher library, and
      the hostnames that a virtual host's hostname stands for. */
  datatype Generator = Generator(gateway: string, hosts: (string, seq<string>) -> bool,
                                 effective: string -> seq<string>)

  // ---------------------------------------------------------------------------------------------
  // Routes of a virtual host
  // ---------------------------------------------------------------------------------------------

  datatype EnvoyRoute = EnvoyRoute(name: string, clusters: seq<string>, mirrors: seq<string>, extProc: Option<string>)

  function Pools(bs: seq<Backend>): (out: seq<PoolConfig>)
    ensures forall p :: p in out <==> exists b :: b in bs && b.type_ == InferencePool(p)
  {
    if bs == [] then []
    else
      assert bs == [bs[0]] + bs[1..];
      (if bs[0].type_.InferencePool? then [bs[0].type_.pool] else []) + Pools(bs[1..])
  }

  /** The clusters of the backends with a positive weight, whatever became of the backends. */
  function WeightedNames(bs: seq<Backend>): (out: seq<string>)
    ensures forall n :: n in out <==> exists b :: b in bs && b.type_.Weight() > 0 && ClusterName(b.type_) == n
  {
    if bs == [] then []
    else
      assert bs == [bs[0]] + bs[1..];
      (if bs[0].type_.Weight() > 0 then [ClusterName(bs[0].type_)] else []) + WeightedNames(bs[1..])
  }

  function ServiceNames(bs: seq<Backend>): (out: seq<string>)
    ensures forall n :: n in out <==>
              exists b :: b in bs && b.type_.Service? && b.type_.Weight() > 0 && ClusterName(b.type_) == n
  {
    if bs == [] then []
    else
      assert bs == [bs[0]] + bs[1..];
      (if bs[0].type_.Service? && bs[0].type_.Weight() > 0 then [ClusterName(bs[0].type_)] else [])
      + ServiceNames(bs[1..])
  }

  function MirrorNames(bs: seq<Backend>, key: ResourceKey): (out: seq<string>)
    ensures forall n :: n in out <==>
              exists b :: b in bs && !b.type_.InferencePool? && b.type_.Key() == key && ClusterName(b.type_) == n
  {
    if bs == [] then []
    else
      assert bs == [bs[0]] + bs[1..];
      (if !bs[0].type_.InferencePool? && bs[0].type_.Key() == key then [ClusterName(bs[0].type_)] else [])
      + MirrorNames(bs[1..], key)
  }

  /** The ext-proc cluster name, as both sides build it from a route name and a pool key. */
  function ExtProcName(routeName: string, key: ResourceKey): string {
    routeName + "-extsvc-" + key.namespace + "." + key.name
  }

  function RouteName(e: HttpRule): string {
    e.name + "_route"
  }

  /** The converter's route before inference filters; a redirect names no cluster. */
  function PlainRoute(e: HttpRule): EnvoyRoute {
    if e.body.redirects then EnvoyRoute(RouteName(e), [], [], None)
    else EnvoyRoute(RouteName(e), WeightedNames(e.body.backends),
                    if e.body.mirror.Some? then MirrorNames(e.body.filterBackends, e.body.mirror.value) else [], None)
  }

  /** The converter takes the name from the route it has built. */
  function AddInferenceFilters(r: EnvoyRoute, pool: PoolConfig): EnvoyRoute {
    r.(extProc := if pool.extension.Some? then Some(ExtProcName(r.name, pool.key)) else None)
  }

  function ConvertHttp(e: HttpRule): seq<EnvoyRoute> {
    var pools := Pools(e.body.backends);
    if pools == [] then [PlainRoute(e)]
    else seq(|pools|, i requires 0 <= i < |pools| => AddInferenceFilters(PlainRoute(e), pools[i]))
  }

  function ConvertGrpc(e: GrpcRule): EnvoyRoute {
    EnvoyRoute(e.name + "-grpc-route", ServiceNames(e.body.backends), [], None)
  }

  /** A pool that some HTTP rule uses, with the ext-proc cluster name that the generator gives it. */
  datatype Info = Info(clusterName: string, pool: PoolConfig)

  function Infos(e: HttpRule): seq<Info> {
    var pools := Pools(e.body.backends);
    seq(|pools|, i requires 0 <= i < |pools| => Info(ExtProcName(RouteName(e), pools[i].key), pools[i]))
  }

  function AllInfos(es: seq<HttpRule>): (out: seq<Info>)
    ensures forall e, i :: e in es && i in Infos(e) ==> i in out
  {
    if es == [] then []
    else
      assert es == [es[0]] + es[1..];
      Infos(es[0]) + AllInfos(es[1..])
  }

  datatype VirtualHost = VirtualHost(name: string, effectiveHostnames: seq<string>, http: seq<HttpRule>,
                                     grpc: seq<GrpcRule>, attached: seq<RP.Route>)

  // ---------------------------------------------------------------------------------------------
  // The fold over listeners
  // ---------------------------------------------------------------------------------------------

  function AllHostnames(rs: seq<RP.Route>): seq<string> {
    if rs == [] then [] else rs[0].hostnames + AllHostnames(rs[1..])
  }

  /** A hostname of its own, or the sorted distinct hostnames of the resolved routes, or "*". */
  function Hostnames(rs: seq<RP.Route>, hostname: Option<string>, create: string -> seq<string>): seq<string> {
    var hostnames := KeepLast(CompareString, StableSort(CompareString, AllHostnames(rs)));
    match hostname
    case None => if hostnames == [] then ["*"] else hostnames
    case Some(h) => if h != "" && h != "*" then create(h) else ["*"]
  }

  function PotentialHostnames(l: Listener): seq<string> {
    Hostnames(l.resolved, l.hostname, h => [h])
  }

  function Serves<M>(gen: Generator, hostname: string): RP.Effective<M> -> bool {
    (e: RP.Effective<M>) => gen.hosts(hostname, e.hostnames)
  }

  function HttpRulesOf(gen: Generator, l: Listener, hostname: string): seq<HttpRule> {
    Filter(RP.HttpMatchingRules(l.resolved, l.unresolved), Serves(gen, hostname))
  }

  function GrpcRulesOf(gen: Generator, l: Listener, hostname: string): seq<GrpcRule> {
    Filter(RP.GrpcMatchingRules(l.resolved, l.unresolved), Serves(gen, hostname))
  }

  function VirtualHostFor(gen: Generator, l: Listener, hostname: string): VirtualHost {
    VirtualHost(l.name + "-" + hostname, Hostnames(l.resolved, Some(hostname), gen.effective),
                HttpRulesOf(gen, l, hostname), GrpcRulesOf(gen, l, hostname), l.resolved + l.unresolved)
  }

  /** Every port's listener is named after the gateway. */
  datatype EnvoyListener = EnvoyListener(name: string, port: int, virtualHosts: map<string, VirtualHost>,
                                         tcp: set<(string, Option<string>)>, tls: Option<LS.TlsType>,
                                         enableExtProc: bool)

  datatype Generated = Generated(resources: map<int, EnvoyListener>, infos: seq<Info>)

  predicate AnyPool(es: seq<HttpRule>) {
    exists e :: e in es && Pools(e.body.backends) != []
  }

  /** The virtual hosts of the hostnames visited so far, the pools their HTTP rules use, and whether any
      of them uses one. */
  datatype Hosts = Hosts(virtualHosts: map<string, VirtualHost>, infos: seq<Info>, extProc: bool)

  function AddHost(gen: Generator, l: Listener, before: Hosts, hostname: string): Hosts {
    var v := VirtualHostFor(gen, l, hostname);
    Hosts(if v.name in before.virtualHosts then before.virtualHosts else before.virtualHosts[v.name := v],
          before.infos + AllInfos(v.http), before.extProc || AnyPool(v.http))
  }

  function AddHosts(gen: Generator, l: Listener, before: Hosts, hostnames: seq<string>): Hosts {
    if hostnames == [] then before
    else AddHost(gen, l, AddHosts(gen, l, before, hostnames[..|hostnames| - 1]), hostnames[|hostnames| - 1])
  }

  function HostsOf(gen: Generator, l: Listener, infos: seq<Info>): Hosts {
    AddHosts(gen, l, Hosts(map[], infos, false), PotentialHostnames(l))
  }

  /** One listener of the fold. Listeners on one port share an entry, to which later ones only add
      virtual hosts; of two virtual hosts with the same name the later one stays. */
  function AddListener(gen: Generator, g: Generated, l: Listener): Generated {
    if l.protocol.Http? || l.protocol.Https? then
      var added := HostsOf(gen, l, g.infos);
      var entry := if l.port in g.resources
                   then var e := g.resources[l.port]; e.(virtualHosts := e.virtualHosts + added.virtualHosts)
                   else EnvoyListener(gen.gateway, l.port, added.virtualHosts, {}, l.tls, added.extProc);
      Generated(g.resources[l.port := entry], added.infos)
    else if l.protocol.Tcp? then
      var entry := if l.port in g.resources then g.resources[l.port]
                   else EnvoyListener(gen.gateway, l.port, map[], {}, None, false);
      g.(resources := g.resources[l.port := entry.(tcp := entry.tcp + {(l.name, l.hostname)})])
    else g
  }

  function Generate(gen: Generator, ls: seq<Listener>): Generated {
    if ls == [] then Generated(map[], [])
    else AddListener(gen, Generate(gen, ls[..|ls| - 1]), ls[|ls| - 1])
  }

  ghost predicate IsVirtualHost(g: Generated, v: VirtualHost) {
    exists port, name :: port in g.resources && name in g.resources[port].virtualHosts
                         && g.resources[port].virtualHosts[name] == v
  }

  /** What the rules of a route do. */
  function Bodies(r: RP.Route): (out: seq<RuleBody>)
    ensures |out| == if r.routeType.Http? then |r.routeType.httpRules| else |r.routeType.grpcRules|
  {
    match r.routeType
    case Http(rules) => seq(|rules|, i requires 0 <= i < |rules| => rules[i].body)
    case Grpc(rules) => seq(|rules|, i requires 0 <= i < |rules| => rules[i].body)
  }

  ghost predicate FromAttached(rs: seq<RP.Route>, http: bool, body: RuleBody) {
    exists r :: r in rs && r.routeType.Http? == http && body in Bodies(r)
  }

  /** Every rule of a virtual host comes from an attached route of its kind, and the pools of its HTTP
      rules have been collected. */
  ghost predicate Grounded(infos: seq<Info>, v: VirtualHost) {
    && (forall e :: e in v.http ==> FromAttached(v.attached, true, e.body))
    && (forall e :: e in v.grpc ==> FromAttached(v.attached, false, e.body))
    && (forall e, i :: e in v.http && i in Infos(e) ==> i in infos)
  }

  /** The rules of a virtual host are effective rules of its attached routes. */
  lemma {:induction false} RulesFromAttached(gen: Generator, l: Listener, hostname: string)
    ensures var v := VirtualHostFor(gen, l, hostname);
            && (forall e :: e in v.http ==> FromAttached(v.attached, true, e.body))
            && (forall e :: e in v.grpc ==> FromAttached(v.attached, false, e.body))
  {
    var v := VirtualHostFor(gen, l, hostname);
    RP.MatchingRulesIn(l.resolved, l.unresolved);
    forall e | e in v.http ensures FromAttached(v.attached, true, e.body) {
      FilterHas(RP.HttpMatchingRules(l.resolved, l.unresolved), Serves(gen, hostname), e);
      HttpRuleAttached(v.attached, e);
    }
    forall e | e in v.grpc ensures FromAttached(v.attached, false, e.body) {
      FilterHas(RP.GrpcMatchingRules(l.resolved, l.unresolved), Serves(gen, hostname), e);
      GrpcRuleAttached(v.attached, e);
    }
  }

  lemma {:induction false} HttpRuleAttached(rs: seq<RP.Route>, e: HttpRule)
    requires e in RP.HttpEffective(rs)
    ensures FromAttached(rs, true, e.body)
  {
    RP.EveryRuleEffective(rs, e);
    var r :| r in rs && r.routeType.Http?
             && RP.ComesFrom(r.routeType.httpRules, RP.DEFAULT_HTTP_MATCH, r.hostnames, e);
    var i :| 0 <= i < |r.routeType.httpRules| && e.body == r.routeType.httpRules[i].body;
    assert Bodies(r)[i] == e.body;
  }

  lemma {:induction false} GrpcRuleAttached(rs: seq<RP.Route>, e: GrpcRule)
    requires e in RP.GrpcEffective(rs)
    ensures FromAttached(rs, false, e.body)
  {
    RP.EveryGrpcRuleEffective(rs, e);
    var r :| r in rs && r.routeType.Grpc?
             && RP.ComesFrom(r.routeType.grpcRules, RP.DEFAULT_GRPC_MATCH, r.hostnames, e);
    var i :| 0 <= i < |r.routeType.grpcRules| && e.body == r.routeType.grpcRules[i].body;
    assert Bodies(r)[i] == e.body;
  }

  /** In a virtual host's list the first HTTP rule that accepts a request is the best of the listener's
      rules that serve the hostname and accept it. */
  lemma {:induction false} VirtualHostReachesBest(gen: Generator, l: Listener, hostname: string,
                                                  accepts: HttpRule -> bool)
    ensures var all := RP.HttpEffective(l.resolved + l.unresolved);
            var serves: HttpRule -> bool := Serves(gen, hostname);
            match FirstMatch(VirtualHostFor(gen, l, hostname).http, accepts)
            case None => forall e :: e in all ==> !(serves(e) && accepts(e))
            case Some(e) => exists i: nat :: IsBest(RP.CompareHttp, all, RP.Both(serves, accepts), i) && all[i] == e
  {
    RP.HttpRequestReachesBest(l.resolved, l.unresolved, Serves(gen, hostname), accepts);
  }

  ghost predicate AllGrounded(infos: seq<Info>, vs: map<string, VirtualHost>) {
    forall n :: n in vs ==> Grounded(infos, vs[n])
  }

  ghost predicate AllPortsGrounded(g: Generated) {
    forall p :: p in g.resources ==> AllGrounded(g.infos, g.resources[p].virtualHosts)
  }

  lemma {:induction false} MoreInfosGrounded(infos: seq<Info>, more: seq<Info>, v: VirtualHost)
    requires Grounded(infos, v) && forall i :: i in infos ==> i in more
    ensures Grounded(more, v)
  {
  }

  lemma {:induction false} AddHostsGrounded(gen: Generator, l: Listener, before: Hosts, hostnames: seq<string>)
    requires AllGrounded(before.infos, before.virtualHosts)
    ensures var after := AddHosts(gen, l, before, hostnames);
            && AllGrounded(after.infos, after.virtualHosts)
            && forall i :: i in before.infos ==> i in after.infos
  {
    if hostnames != [] {
      var init, h := hostnames[..|hostnames| - 1], hostnames[|hostnames| - 1];
      AddHostsGrounded(gen, l, before, init);
      var mid := AddHosts(gen, l, before, init);
      var after := AddHost(gen, l, mid, h);
      var v := VirtualHostFor(gen, l, h);
      RulesFromAttached(gen, l, h);
      assert Grounded(after.infos, v);
      forall n | n in after.virtualHosts ensures Grounded(after.infos, after.virtualHosts[n]) {
        if n in mid.virtualHosts {
          MoreInfosGrounded(mid.infos, after.infos, mid.virtualHosts[n]);
        }
      }
    }
  }

  /** In every generated result, all virtual hosts are grounded, however listeners share ports and
      whichever virtual hosts displace each other. */
  lemma {:induction false} GenerateGrounded(gen: Generator, ls: seq<Listener>)
    ensures AllPortsGrounded(Generate(gen, ls))
  {
    if ls != [] {
      GenerateGrounded(gen, ls[..|ls| - 1]);
      AddListenerGrounded(gen, Generate(gen, ls[..|ls| - 1]), ls[|ls| - 1]);
    }
  }

  lemma {:induction false} VirtualHostGrounded(gen: Generator, ls: seq<Listener>, v: VirtualHost)
    requires IsVirtualHost(Generate(gen, ls), v)
    ensures Grounded(Generate(gen, ls).infos, v)
  {
    GenerateGrounded(gen, ls);
    var g := Generate(gen, ls);
    var port, name :| port in g.resources && name in g.resources[port].virtualHosts
                      && g.resources[port].virtualHosts[name] == v;
    assert AllGrounded(g.infos, g.resources[port].virtualHosts);
  }

  lemma {:induction false} AddListenerGrounded(gen: Generator, g: Generated, l: Listener)
    requires AllPortsGrounded(g)
    ensures AllPortsGrounded(AddListener(gen, g, l))
  {
    var g' := AddListener(gen, g, l);
    if l.protocol.Http? || l.protocol.Https? {
      AddHostsGrounded(gen, l, Hosts(map[], g.infos, false), PotentialHostnames(l));
      forall p | p in g'.resources ensures AllGrounded(g'.infos, g'.resources[p].virtualHosts) {
        forall n | n in g'.resources[p].virtualHosts ensures Grounded(g'.infos, g'.resources[p].virtualHosts[n]) {
          if p in g.resources && n in g.resources[p].virtualHosts {
            MoreInfosGrounded(g.infos, g'.infos, g.resources[p].virtualHosts[n]);
          }
        }
      }
    }
  }

  // ---------------------------------------------------------------------------------------------
  // Clusters
  // ---------------------------------------------------------------------------------------------

  datatype Source =
    | OfService(service: ServiceConfig, isGrpc: bool)
    | OfPool(pool: PoolConfig)
    | OfExtProc(pool: PoolConfig)

  datatype Cluster = Cluster(name: string, source: Source)

  function CompareName(x: Cluster, y: Cluster): Ordering {
    CompareString(x.name, y.name)
  }

  predicate Clustered(b: Backend) {
    b.Resolved? && b.type_.Weight() > 0
  }

  function ServiceClusters(bs: seq<Backend>, isGrpc: bool): (out: seq<Cluster>)
    ensures forall c :: c in out <==>
              exists b :: b in bs && Clustered(b) && !b.type_.InferencePool?
                          && c == Cluster(ClusterName(b.type_), OfService(b.type_.service, isGrpc))
  {
    if bs == [] then []
    else
      assert bs == [bs[0]] + bs[1..];
      (if Clustered(bs[0]) && !bs[0].type_.InferencePool?
       then [Cluster(ClusterName(bs[0].type_), OfService(bs[0].type_.service, isGrpc))] else [])
      + ServiceClusters(bs[1..], isGrpc)
  }

  function PoolClusters(bs: seq<Backend>): (out: seq<Cluster>)
    ensures forall c :: c in out <==>
              exists b :: b in bs && Clustered(b) && b.type_.InferencePool?
                          && c == Cluster(ClusterName(b.type_), OfPool(b.type_.pool))
  {
    if bs == [] then []
    else
      assert bs == [bs[0]] + bs[1..];
      (if Clustered(bs[0]) && bs[0].type_.InferencePool?
       then [Cluster(ClusterName(bs[0].type_), OfPool(bs[0].type_.pool))] else [])
      + PoolClusters(bs[1..])
  }

  function AllBackends(bodies: seq<RuleBody>): (out: seq<Backend>)
    ensures forall b :: b in out <==> exists body :: body in bodies && b in body.backends
  {
    if bodies == [] then []
    else
      assert bodies == [bodies[0]] + bodies[1..];
      bodies[0].backends + AllBackends(bodies[1..])
  }

  function AllFilterBackends(bodies: seq<RuleBody>): (out: seq<Backend>)
    ensures forall b :: b in out <==> exists body :: body in bodies && b in body.filterBackends
  {
    if bodies == [] then []
    else
      assert bodies == [bodies[0]] + bodies[1..];
      bodies[0].filterBackends + AllFilterBackends(bodies[1..])
  }

  /** Services, then pools, then services of filters, which only HTTP routes have. */
  function RouteClusters(r: RP.Route): seq<Cluster> {
    ServiceClusters(AllBackends(Bodies(r)), r.routeType.Grpc?)
    + PoolClusters(AllBackends(Bodies(r)))
    + (if r.routeType.Http? then ServiceClusters(AllFilterBackends(Bodies(r)), false) else [])
  }

  function RoutesClusters(rs: seq<RP.Route>): (out: seq<Cluster>)
    ensures forall c :: c in out <==> exists r :: r in rs && c in RouteClusters(r)
  {
    if rs == [] then []
    else
      assert rs == [rs[0]] + rs[1..];
      RouteClusters(rs[0]) + RoutesClusters(rs[1..])
  }

  function HostClusters(vs: seq<VirtualHost>): (out: seq<Cluster>)
    ensures forall c :: c in out <==> exists v :: v in vs && c in RoutesClusters(v.attached)
  {
    if vs == [] then []
    else
      assert vs == [vs[0]] + vs[1..];
      RoutesClusters(vs[0].attached) + HostClusters(vs[1..])
  }

  function ExtProcClusters(infos: seq<Info>): (out: seq<Cluster>)
    ensures forall c :: c in out <==>
              exists i :: i in infos && i.pool.extension.Some? && c == Cluster(i.clusterName, OfExtProc(i.pool))
  {
    if infos == [] then []
    else
      assert infos == [infos[0]] + infos[1..];
      (if infos[0].pool.extension.Some? then [Cluster(infos[0].clusterName, OfExtProc(infos[0].pool))] else [])
      + ExtProcClusters(infos[1..])
  }

  /** The clusters of the virtual hosts, collected in an ordered set, followed by the ext-proc
      clusters; sorted by name, the first of each name kept. `vs` lists the virtual hosts in any order. */
  function GenerateClusters(vs: seq<VirtualHost>, infos: seq<Info>): seq<Cluster> {
    Merged(CompareName, HostClusters(vs), ExtProcClusters(infos))
  }

  ghost predicate HasCluster(cs: seq<Cluster>, name: string) {
    exists c :: c in cs && c.name == name
  }

  lemma {:induction false} NameOrder()
    ensures TotalPreorder(CompareName)
  {
    forall x, y, z
      ensures CompareName(y, x) == Flip(CompareName(x, y))
      ensures Chains(CompareName(x, y), CompareName(y, z), CompareName(x, z))
    {
      StringLaws(x.name, y.name, z.name);
    }
  }

  lemma {:induction false} SortedHas(cs: seq<Cluster>, name: string)
    ensures HasCluster(StableSort(CompareName, cs), name) <==> HasCluster(cs, name)
  {
    NameOrder();
    SortSorted(CompareName, cs);
    assert forall c :: c in cs <==> c in multiset(cs);
    assert forall c :: c in StableSort(CompareName, cs) <==> c in multiset(StableSort(CompareName, cs));
  }

  lemma {:induction false} RepresentedHas(out: seq<Cluster>, cs: seq<Cluster>, name: string)
    requires Represents(CompareName, out, cs)
    ensures HasCluster(out, name) <==> HasCluster(cs, name)
  {
    if c :| c in cs && c.name == name {
      assert Covered(CompareName, out, c);
      var y :| y in out && CompareName(c, y).Equal?;
      StringLaws(c.name, y.name, y.name);
    }
  }

  /** Generated clusters are strictly sorted by name, so no name repeats, and the names are exactly
      those of the attached routes' clusters and of the ext-proc clusters. */
  lemma {:induction false} ClustersOutcome(vs: seq<VirtualHost>, infos: seq<Info>, name: string)
    ensures StrictlySorted(CompareName, GenerateClusters(vs, infos))
    ensures HasCluster(GenerateClusters(vs, infos), name)
            <==> HasCluster(HostClusters(vs), name) || HasCluster(ExtProcClusters(infos), name)
  {
    NameOrder();
    var raw := HostClusters(vs);
    SortSorted(CompareName, raw);
    SortedHas(raw, name);
    var collected := KeepLast(CompareName, StableSort(CompareName, raw));
    KeepLastStrict(CompareName, StableSort(CompareName, raw));
    RepresentedHas(collected, StableSort(CompareName, raw), name);
    var all := collected + ExtProcClusters(infos);
    SortSorted(CompareName, all);
    SortedHas(all, name);
    KeepFirstStrict(CompareName, StableSort(CompareName, all));
    RepresentedHas(GenerateClusters(vs, infos), StableSort(CompareName, all), name);
  }

  // ---------------------------------------------------------------------------------------------
  // Cross-references
  // ---------------------------------------------------------------------------------------------

  /** `vs` lists exactly the generated virtual hosts. */
  ghost predicate Lists(vs: seq<VirtualHost>, g: Generated) {
    forall v :: v in vs <==> IsVirtualHost(g, v)
  }

  /** `b` is a backend of the route from which a cluster is made. */
  ghost predicate Makes(r: RP.Route, b: Backend) {
    && b.Resolved? && b.type_.Weight() > 0
    && exists body :: body in Bodies(r) && MakesOfRule(r.routeType.Http?, body, b)
  }

  predicate MakesOfRule(http: bool, body: RuleBody, b: Backend) {
    b in body.backends || (http && b in body.filterBackends && !b.type_.InferencePool?)
  }

  ghost predicate RouteProvides(r: RP.Route, name: string) {
    exists b :: Makes(r, b) && name == b.type_.Key().name + "." + b.type_.Key().namespace
  }

  ghost predicate InfoProvides(infos: seq<Info>, name: string) {
    exists i :: i in infos && i.pool.extension.Some? && i.clusterName == name
  }

  ghost predicate HostsProvide(vs: seq<VirtualHost>, name: string) {
    exists v, r :: v in vs && r in v.attached && RouteProvides(r, name)
  }

  lemma {:induction false} MakesIff(r: RP.Route, b: Backend)
    ensures Makes(r, b) <==>
            Clustered(b) && (b in AllBackends(Bodies(r))
                             || (r.routeType.Http? && b in AllFilterBackends(Bodies(r)) && !b.type_.InferencePool?))
  {
    forall body | body in Bodies(r)
      ensures MakesOfRule(r.routeType.Http?, body, b) <==>
              b in body.backends || (r.routeType.Http? && b in body.filterBackends && !b.type_.InferencePool?)
    {
    }
  }

  /** The cluster that is made from a backend of the route. */
  function MadeCluster(r: RP.Route, b: Backend): Cluster {
    if b.type_.InferencePool? then Cluster(ClusterName(b.type_), OfPool(b.type_.pool))
    else
      var isGrpc := b in AllBackends(Bodies(r)) && r.routeType.Grpc?;
      Cluster(ClusterName(b.type_), OfService(b.type_.service, isGrpc))
  }

  lemma {:induction false} MadeClusterIn(r: RP.Route, b: Backend)
    requires Makes(r, b)
    ensures MadeCluster(r, b) in RouteClusters(r)
  {
    MakesIff(r, b);
  }

  lemma {:induction false} ClusterMadeBy(r: RP.Route, c: Cluster) returns (b: Backend)
    requires c in RouteClusters(r)
    ensures Makes(r, b) && ClusterName(b.type_) == c.name
  {
    b :| Clustered(b) && ClusterName(b.type_) == c.name
         && (b in AllBackends(Bodies(r))
             || (r.routeType.Http? && b in AllFilterBackends(Bodies(r)) && !b.type_.InferencePool?));
    MakesIff(r, b);
  }

  lemma {:induction false} RouteProvidesIff(r: RP.Route, name: string)
    ensures HasCluster(RouteClusters(r), name) <==> RouteProvides(r, name)
  {
    if b :| Makes(r, b) && ClusterName(b.type_) == name {
      MadeClusterIn(r, b);
    }
    if c :| c in RouteClusters(r) && c.name == name {
      var b := ClusterMadeBy(r, c);
    }
  }

  lemma {:induction false} HostsProvideIff(vs: seq<VirtualHost>, name: string)
    ensures HasCluster(HostClusters(vs), name) <==> HostsProvide(vs, name)
  {
    if v, r :| v in vs && r in v.attached && RouteProvides(r, name) {
      RouteProvidesIff(r, name);
      var c :| c in RouteClusters(r) && c.name == name;
      assert c in RoutesClusters(v.attached);
    }
    if c :| c in HostClusters(vs) && c.name == name {
      var v :| v in vs && c in RoutesClusters(v.attached);
      var r :| r in v.attached && c in RouteClusters(r);
      RouteProvidesIff(r, name);
    }
  }

  lemma {:induction false} InfoProvidesIff(infos: seq<Info>, name: string)
    ensures HasCluster(ExtProcClusters(infos), name) <==> InfoProvides(infos, name)
  {
    if i :| i in infos && i.pool.extension.Some? && i.clusterName == name {
      assert Cluster(i.clusterName, OfExtProc(i.pool)) in ExtProcClusters(infos);
    }
  }

  /** A name has a generated cluster exactly if an attached route has a resolved backend with a
      positive weight of that name, or a collected pool with an extension has it as ext-proc name. */
  lemma {:induction false} ClusterExistsIff(vs: seq<VirtualHost>, infos: seq<Info>, name: string)
    ensures HasCluster(GenerateClusters(vs, infos), name) <==> HostsProvide(vs, name) || InfoProvides(infos, name)
  {
    ClustersOutcome(vs, infos, name);
    HostsProvideIff(vs, name);
    InfoProvidesIff(infos, name);
  }

  lemma {:induction false} BackendHasCluster(vs: seq<VirtualHost>, infos: seq<Info>, v: VirtualHost, r: RP.Route,
                                             b: Backend)
    requires v in vs && r in v.attached && Makes(r, b)
    ensures HasCluster(GenerateClusters(vs, infos), ClusterName(b.type_))
  {
    ClusterExistsIff(vs, infos, ClusterName(b.type_));
    assert RouteProvides(r, ClusterName(b.type_));
  }

  /** A weighted or mirrored cluster named by a generated route exists, unless the route's rule has a
      backend of that name that is not resolved, or mirrors a backend without positive weight. */
  ghost predicate ExcusedName(body: RuleBody, name: string) {
    exists b :: b in body.backends + body.filterBackends && ClusterName(b.type_) == name
                && !(b.Resolved? && b.type_.Weight() > 0)
  }

  lemma {:induction false} HttpRouteClustersExist(gen: Generator, ls: seq<Listener>, vs: seq<VirtualHost>,
                                                  v: VirtualHost, e: HttpRule, r: EnvoyRoute, name: string)
    requires Lists(vs, Generate(gen, ls)) && v in vs && e in v.http && r in ConvertHttp(e)
    requires name in r.clusters + r.mirrors
    ensures HasCluster(GenerateClusters(vs, Generate(gen, ls).infos), name) || ExcusedName(e.body, name)
  {
    assert r.clusters == PlainRoute(e).clusters && r.mirrors == PlainRoute(e).mirrors;
    var b :| MakesOfRule(true, e.body, b) && ClusterName(b.type_) == name;
    RuleClusterExists(gen, ls, vs, v, true, e.body, b);
  }

  lemma {:induction false} GrpcRouteClustersExist(gen: Generator, ls: seq<Listener>, vs: seq<VirtualHost>,
                                                  v: VirtualHost, e: GrpcRule, name: string)
    requires Lists(vs, Generate(gen, ls)) && v in vs && e in v.grpc
    requires name in ConvertGrpc(e).clusters
    ensures HasCluster(GenerateClusters(vs, Generate(gen, ls).infos), name) || ExcusedName(e.body, name)
  {
    var b :| b in e.body.backends && ClusterName(b.type_) == name;
    RuleClusterExists(gen, ls, vs, v, false, e.body, b);
  }

  lemma {:induction false} RuleClusterExists(gen: Generator, ls: seq<Listener>, vs: seq<VirtualHost>, v: VirtualHost,
                                             http: bool, body: RuleBody, b: Backend)
    requires Lists(vs, Generate(gen, ls)) && v in vs && MakesOfRule(http, body, b)
    requires if http then exists e :: e in v.http && e.body == body else exists e :: e in v.grpc && e.body == body
    ensures HasCluster(GenerateClusters(vs, Generate(gen, ls).infos), ClusterName(b.type_))
            || ExcusedName(body, ClusterName(b.type_))
    ensures Clustered(b) ==> HasCluster(GenerateClusters(vs, Generate(gen, ls).infos), ClusterName(b.type_))
  {
    VirtualHostGrounded(gen, ls, v);
    if Clustered(b) {
      var route :| route in v.attached && route.routeType.Http? == http && body in Bodies(route);
      assert Makes(route, b);
      BackendHasCluster(vs, Generate(gen, ls).infos, v, route, b);
    } else {
      assert b in body.backends + body.filterBackends;
    }
  }

  /** Every resolved backend with a positive weight of a rule in a generated virtual host has a
      cluster under the name the routes use for it. */
  lemma {:induction false} UsedBackendHasCluster(gen: Generator, ls: seq<Listener>, vs: seq<VirtualHost>,
                                                 v: VirtualHost, body: RuleBody, b: Backend)
    requires Lists(vs, Generate(gen, ls)) && v in vs && b in body.backends && Clustered(b)
    requires (exists e :: e in v.http && e.body == body) || (exists e :: e in v.grpc && e.body == body)
    ensures HasCluster(GenerateClusters(vs, Generate(gen, ls).infos), ClusterName(b.type_))
  {
    var http := exists e :: e in v.http && e.body == body;
    RuleClusterExists(gen, ls, vs, v, http, body, b);
  }

  // ---------------------------------------------------------------------------------------------
  // Which cluster a name denotes
  // ---------------------------------------------------------------------------------------------

  /** The clusters of a name, in order. */
  function Named(cs: seq<Cluster>, c: Cluster): seq<Cluster> {
    ClassOf(CompareName, cs, c)
  }

  /** Names carry neither port nor kind, so clusters can meet under one name. Of the attached routes'
      clusters the last one of the name is generated; only if there is none, the first ext-proc cluster. */
  lemma {:induction false} SurvivingCluster(vs: seq<VirtualHost>, infos: seq<Info>, c: Cluster)
    requires c in GenerateClusters(vs, infos)
    ensures var own := Named(HostClusters(vs), c);
            if own != [] then c == own[|own| - 1]
            else Named(ExtProcClusters(infos), c) != [] && c == Named(ExtProcClusters(infos), c)[0]
  {
    NameOrder();
    MergedKeeps(CompareName, HostClusters(vs), ExtProcClusters(infos), c);
  }

  /** The cluster made from an attached backend is the one generated under its name exactly if no
      cluster of the same name comes later, in the order of virtual hosts, routes and backends. */
  lemma {:induction false} OwnClusterIff(vs: seq<VirtualHost>, infos: seq<Info>, own: Cluster)
    requires own in HostClusters(vs)
    ensures var named := Named(HostClusters(vs), own);
            named != [] && (own in GenerateClusters(vs, infos) <==> named[|named| - 1] == own)
  {
    NameOrder();
    ClustersOutcome(vs, infos, own.name);
    assert HasCluster(HostClusters(vs), own.name);
    var c :| c in GenerateClusters(vs, infos) && c.name == own.name;
    StringLaws(own.name, c.name, c.name);
    MergedHasIff(CompareName, HostClusters(vs), ExtProcClusters(infos), own, c);
  }

  /** The cluster with the backend's own endpoint. */
  function OwnCluster(http: bool, b: Backend): Cluster {
    Cluster(ClusterName(b.type_),
            if b.type_.InferencePool? then OfPool(b.type_.pool) else OfService(b.type_.service, !http))
  }

  /** So the cluster that a rule's resolved backend is named by has the backend's own endpoint exactly if
      the last attached backend of that name makes the same cluster. */
  lemma {:induction false} BackendOwnClusterIff(vs: seq<VirtualHost>, infos: seq<Info>, v: VirtualHost, r: RP.Route,
                                                body: RuleBody, b: Backend)
    requires v in vs && r in v.attached && body in Bodies(r) && b in body.backends && Clustered(b)
    ensures var own := OwnCluster(r.routeType.Http?, b);
            var named := Named(HostClusters(vs), own);
            named != [] && (own in GenerateClusters(vs, infos) <==> named[|named| - 1] == own)
  {
    var own := OwnCluster(r.routeType.Http?, b);
    assert b in AllBackends(Bodies(r));
    assert own in RouteClusters(r);
    assert own in RoutesClusters(v.attached);
    OwnClusterIff(vs, infos, own);
  }

  lemma {:induction false} OneHostClusters(v: VirtualHost, r: RP.Route)
    requires v.attached == [r]
    ensures HostClusters([v]) == RouteClusters(r)
  {
    assert [v][1..] == [] && [r][1..] == [];
    assert RoutesClusters([r]) == RouteClusters(r) + RoutesClusters([]);
    assert HostClusters([v]) == RoutesClusters([r]) + HostClusters([]);
  }

  lemma {:induction false} OneRuleClusters(r: RP.Route, body: RuleBody)
    requires r.routeType.Http? && Bodies(r) == [body] && body.filterBackends == []
    ensures RouteClusters(r) == ServiceClusters(body.backends, false) + PoolClusters(body.backends)
  {
    assert [body][1..] == [];
    assert AllBackends([body]) == body.backends + [];
    assert AllFilterBackends([body]) == [] + [];
    assert AllBackends(Bodies(r)) == body.backends && AllFilterBackends(Bodies(r)) == [];
    assert ServiceClusters([], false) == [];
  }

  lemma {:induction false} TwoServiceClusters(b: Backend, c: Backend)
    requires Clustered(b) && Clustered(c) && b.type_.Service? && c.type_.Service?
    ensures ServiceClusters([b, c], false) + PoolClusters([b, c]) == [OwnCluster(true, b), OwnCluster(true, c)]
  {
    assert [b, c][1..] == [c] && [c][1..] == [];
    assert ServiceClusters([], false) == [] && PoolClusters([]) == [];
    assert ServiceClusters([c], false) == [OwnCluster(true, c)] && PoolClusters([c]) == [];
    assert ServiceClusters([b, c], false) == [OwnCluster(true, b)] + ServiceClusters([c], false);
    assert PoolClusters([b, c]) == PoolClusters([c]);
  }

  /** Of a service that a rule uses on two ports only the cluster of the second port is generated, under the
      name that both share. */
  lemma {:induction false} SecondPortTakesName(v: VirtualHost, infos: seq<Info>, r: RP.Route, body: RuleBody,
                                               key: ResourceKey)
    requires v.attached == [r] && r.routeType.Http? && Bodies(r) == [body] && body.filterBackends == []
    requires body.backends == [Resolved(Service(ServiceConfig(key, 80, 80, 1))),
                               Resolved(Service(ServiceConfig(key, 8080, 8080, 1)))]
    ensures var first, second := OwnCluster(true, body.backends[0]), OwnCluster(true, body.backends[1]);
            && first !in GenerateClusters([v], infos) && second in GenerateClusters([v], infos)
            && first.name == second.name
  {
    var b, c := body.backends[0], body.backends[1];
    var x, y := OwnCluster(true, b), OwnCluster(true, c);
    OneHostClusters(v, r);
    OneRuleClusters(r, body);
    TwoServiceClusters(b, c);
    TwoNamed(x, y);
    OwnClusterIff([v], infos, x);
    OwnClusterIff([v], infos, y);
  }

  lemma {:induction false} TwoNamed(x: Cluster, y: Cluster)
    requires x.name == y.name
    ensures Named([x, y], x) == [x, y] && Named([x, y], y) == [x, y]
  {
    StringLaws(x.name, y.name, x.name);
    assert [x, y][1..] == [y] && [y][1..] == [];
    ClassTail(CompareName, [x, y], x);
    ClassTail(CompareName, [y], x);
    ClassTail(CompareName, [x, y], y);
    ClassTail(CompareName, [y], y);
  }

  /** Every ext-proc cluster name that the converter puts on a generated route is the name of a
      generated cluster; only HTTP rules are given one. */
  lemma {:induction false} ExtProcClusterExists(gen: Generator, ls: seq<Listener>, vs: seq<VirtualHost>,
                                                v: VirtualHost, e: HttpRule, r: EnvoyRoute)
    requires Lists(vs, Generate(gen, ls)) && v in vs && e in v.http && r in ConvertHttp(e)
    ensures r.extProc.Some? ==> HasCluster(GenerateClusters(vs, Generate(gen, ls).infos), r.extProc.value)
    ensures forall g :: g in v.grpc ==> ConvertGrpc(g).extProc.None?
  {
    if r.extProc.Some? {
      var infos := Generate(gen, ls).infos;
      VirtualHostGrounded(gen, ls, v);
      var info := ExtProcInfo(e, r);
      assert info in infos;
      ClusterExistsIff(vs, infos, r.extProc.value);
    }
  }

  /** The generator's name for a pool of the rule is the one the converter put on the route. */
  lemma {:induction false} ExtProcInfo(e: HttpRule, r: EnvoyRoute) returns (info: Info)
    requires r in ConvertHttp(e) && r.extProc.Some?
    ensures info in Infos(e) && info.pool.extension.Some? && info.clusterName == r.extProc.value
  {
    var pools := Pools(e.body.backends);
    assert pools != [];
    var k :| 0 <= k < |ConvertHttp(e)| && ConvertHttp(e)[k] == r;
    assert r == AddInferenceFilters(PlainRoute(e), pools[k]);
    info := Infos(e)[k];
  }

  // ---------------------------------------------------------------------------------------------
  // The generator as the source has it
  // ---------------------------------------------------------------------------------------------

  class ResourceGenerator {
    const gen: Generator
    var resources: map<int, EnvoyListener>
    var infos: seq<Info>

    constructor (gen: Generator)
      ensures this.gen == gen && resources == map[] && infos == []
    {
      this.gen, resources, infos := gen, map[], [];
    }

    /** One listener of the gateway; the pools of its HTTP rules are appended on the side. */
    method GenerateListener(l: Listener) returns (listener: EnvoyListener)
      modifies this`infos
      ensures var hosts := HostsOf(gen, l, old(infos));
              && infos == hosts.infos
              && listener == EnvoyListener(gen.gateway, l.port, hosts.virtualHosts, {}, l.tls, hosts.extProc)
    {
      var virtualHosts: map<string, VirtualHost> := map[];
      var enableExtProc := false;
      var hostnames := PotentialHostnames(l);
      for i := 0 to |hostnames|
        invariant Hosts(virtualHosts, infos, enableExtProc)
                  == AddHosts(gen, l, Hosts(map[], old(infos), false), hostnames[..i])
      {
        assert hostnames[..i + 1][..i] == hostnames[..i];
        var v := VirtualHostFor(gen, l, hostnames[i]);
        infos := infos + AllInfos(v.http);
        enableExtProc := enableExtProc || AnyPool(v.http);
        if v.name !in virtualHosts {
          virtualHosts := virtualHosts[v.name := v];
        }
      }
      assert hostnames[..|hostnames|] == hostnames;
      listener := EnvoyListener(gen.gateway, l.port, virtualHosts, {}, l.tls, enableExtProc);
    }

    /** The fold over the gateway's listeners. */
    method GenerateListeners(ls: seq<Listener>)
      requires resources == map[] && infos == []
      modifies this
      ensures Generated(resources, infos) == Generate(gen, ls)
    {
      for i := 0 to |ls|
        invariant Generated(resources, infos) == Generate(gen, ls[..i])
      {
        assert ls[..i + 1][..i] == ls[..i];
        var l := ls[i];
        if l.protocol.Http? || l.protocol.Https? {
          var listener := GenerateListener(l);
          if l.port in resources {
            var entry := resources[l.port];
            listener := entry.(virtualHosts := entry.virtualHosts + listener.virtualHosts);
          }
          resources := resources[l.port := listener];
        } else if l.protocol.Tcp? {
          var entry := if l.port in resources then resources[l.port]
                       else EnvoyListener(gen.gateway, l.port, map[], {}, None, false);
          resources := resources[l.port := entry.(tcp := entry.tcp + {(l.name, l.hostname)})];
        }
      }
      assert ls[..|ls|] == ls;
    }
  }

  // ---------------------------------------------------------------------------------------------
  // Listeners that share a port
  // ---------------------------------------------------------------------------------------------

  /** The first listener on a port for which anything is generated. */
  function FirstOn(ls: seq<Listener>, port: int): Option<Listener> {
    if ls == [] then None
    else
      var n := |ls| - 1;
      var before := FirstOn(ls[..n], port);
      if before.Some? then before
      else if ls[n].port == port && !ls[n].protocol.Tls? && !ls[n].protocol.Udp? then Some(ls[n])
      else None
  }

  /** The settings that a port's listener takes from the first listener on the port. */
  ghost predicate SettingsOf(gen: Generator, entry: EnvoyListener, first: Listener) {
    && entry.name == gen.gateway && entry.port == first.port
    && entry.tls == (if first.protocol.Tcp? then None else first.tls)
    && (entry.enableExtProc <==>
        !first.protocol.Tcp? && NeedsExtProc(gen, first))
  }

  /** An HTTP rule that serves one of the listener's hostnames uses a pool. */
  ghost predicate NeedsExtProc(gen: Generator, l: Listener) {
    exists h, e, b :: h in PotentialHostnames(l) && e in HttpRulesOf(gen, l, h) && b in e.body.backends
                      && b.type_.InferencePool?
  }

  lemma {:induction false} AnyPoolIff(es: seq<HttpRule>)
    ensures AnyPool(es) <==> exists e, b :: e in es && b in e.body.backends && b.type_.InferencePool?
  {
    forall e | e in es
      ensures Pools(e.body.backends) != [] <==> exists b :: b in e.body.backends && b.type_.InferencePool?
    {
      if b :| b in e.body.backends && b.type_.InferencePool? {
        assert b.type_.pool in Pools(e.body.backends);
      }
      if Pools(e.body.backends) != [] {
        assert Pools(e.body.backends)[0] in Pools(e.body.backends);
      }
    }
  }

  lemma {:induction false} NeedsExtProcIff(gen: Generator, l: Listener)
    ensures NeedsExtProc(gen, l) <==> exists h :: h in PotentialHostnames(l) && AnyPool(HttpRulesOf(gen, l, h))
  {
    forall h ensures AnyPool(HttpRulesOf(gen, l, h)) <==>
                     exists e, b :: e in HttpRulesOf(gen, l, h) && b in e.body.backends && b.type_.InferencePool?
    {
      AnyPoolIff(HttpRulesOf(gen, l, h));
    }
  }

  /** A port's listener is named after the gateway, and takes its TLS settings and its ext-proc filter
      from the first listener on the port alone, whatever the later ones need. */
  lemma {:induction false} PortOfFirstListener(gen: Generator, ls: seq<Listener>, port: int)
    ensures port in Generate(gen, ls).resources <==> FirstOn(ls, port).Some?
    ensures FirstOn(ls, port).Some? ==>
              && FirstOn(ls, port).value.port == port
              && SettingsOf(gen, Generate(gen, ls).resources[port], FirstOn(ls, port).value)
  {
    if ls != [] {
      var n := |ls| - 1;
      PortOfFirstListener(gen, ls[..n], port);
      PortStep(gen, Generate(gen, ls[..n]), ls[n], port);
    }
  }

  lemma {:induction false} PortStep(gen: Generator, g: Generated, l: Listener, port: int)
    ensures var after := AddListener(gen, g, l).resources;
            var opens := l.port == port && !l.protocol.Tls? && !l.protocol.Udp?;
            && (port in after <==> port in g.resources || opens)
            && (port in g.resources ==>
                  forall first :: SettingsOf(gen, g.resources[port], first) ==> SettingsOf(gen, after[port], first))
            && (port !in g.resources && opens ==> SettingsOf(gen, after[port], l))
  {
    ExtProcOfHosts(gen, l, Hosts(map[], g.infos, false), PotentialHostnames(l));
    NeedsExtProcIff(gen, l);
  }

  lemma {:induction false} ExtProcOfHosts(gen: Generator, l: Listener, before: Hosts, hostnames: seq<string>)
    ensures AddHosts(gen, l, before, hostnames).extProc <==>
            before.extProc || exists h :: h in hostnames && AnyPool(HttpRulesOf(gen, l, h))
  {
    if hostnames != [] {
      var n := |hostnames| - 1;
      assert hostnames == hostnames[..n] + [hostnames[n]];
      ExtProcOfHosts(gen, l, before, hostnames[..n]);
    }
  }

  /** The port's listener terminates TLS as the listener asks, and has the filter if its rules need it. */
  ghost predicate ServedOn(gen: Generator, entry: EnvoyListener, l: Listener) {
    entry.tls == l.tls && (NeedsExtProc(gen, l) ==> entry.enableExtProc)
  }

  lemma {:induction false} FirstOnExists(ls: seq<Listener>, l: Listener)
    requires l in ls && (l.protocol.Http? || l.protocol.Https?)
    ensures FirstOn(ls, l.port).Some?
  {
    var n := |ls| - 1;
    assert ls == ls[..n] + [ls[n]];
    if l in ls[..n] {
      FirstOnExists(ls[..n], l);
    }
  }

  /** The exact condition for an HTTP listener to be served as it asks on its port: the first listener there
      asks for the same TLS, and needs the ext-proc filter if it does. */
  lemma {:induction false} ServedIff(gen: Generator, ls: seq<Listener>, l: Listener)
    requires l in ls && (l.protocol.Http? || l.protocol.Https?)
    ensures l.port in Generate(gen, ls).resources && FirstOn(ls, l.port).Some?
    ensures var first := FirstOn(ls, l.port).value;
            ServedOn(gen, Generate(gen, ls).resources[l.port], l) <==>
            if first.protocol.Tcp? then l.tls.None? && !NeedsExtProc(gen, l)
            else first.tls == l.tls && (NeedsExtProc(gen, l) ==> NeedsExtProc(gen, first))
  {
    FirstOnExists(ls, l);
    PortOfFirstListener(gen, ls, l.port);
  }

  /** The second of two HTTPS listeners on a port is served with the first one's certificate. */
  lemma {:induction false} SecondCertificateUnused(gen: Generator, first: Listener, second: Listener)
    requires first.protocol.Https? && second.protocol.Https? && first.port == second.port
    requires first.tls != second.tls
    ensures second.port in Generate(gen, [first, second]).resources
    ensures Generate(gen, [first, second]).resources[second.port].tls == first.tls != second.tls
  {
    var ls := [first, second];
    assert ls[..|ls| - 1] == [first] && [first][..0] == [];
    assert FirstOn([], first.port) == None;
    assert FirstOn([first], first.port) == Some(first);
    assert FirstOn(ls, second.port) == FirstOn(ls[..|ls| - 1], second.port);
    PortOfFirstListener(gen, ls, second.port);
  }
}
