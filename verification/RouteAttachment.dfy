/**
 Which listeners of a gateway a route attaches to, and how a gateway's linked routes are split into
 resolved, unresolved and orphaned ones.
 */
module RouteAttachment {
  import opened Prelude
  import LS = ListenerStatus

  type Resolution = LS.Resolution
  type Routes = LS.Routes

  datatype From = All | Selector | Same

  datatype Operator = In | NotIn | Exists | DoesNotExist

  datatype Expression = Expression(key: string, op: Operator, values: set<string>)

  /** A namespace selector. The filter reads its match labels only. */
  datatype LabelSelector = LabelSelector(matchLabels: Option<map<string, string>>, matchExpressions: seq<Expression>)

  /** The namespaces a listener accepts routes from. */
  datatype Namespaces = Namespaces(from: Option<From>, selector: Option<LabelSelector>)

  datatype AllowedRoutes = AllowedRoutes(kinds: Option<seq<string>>, namespaces: Option<Namespaces>)

  datatype Listener = Listener(name: string, port: int, protocol: LS.Protocol, hostname: Option<string>,
                               allowed: Option<AllowedRoutes>)

  datatype Parent = Parent(namespace: Option<string>, name: string, section: Option<string>, port: Option<int>)

  datatype Route = Route(key: ResourceKey, parents: Option<seq<Parent>>, hostnames: seq<string>, status: Resolution)

  /** A gateway with its listeners, the labels of every namespace, and the hostname filter. */
  datatype Gateway = Gateway(namespace: string, name: string, listeners: seq<Listener>,
                             namespaceLabels: map<string, map<string, string>>,
                             hostnames: (string, seq<string>) -> bool)

  // ---------------------------------------------------------------------------------------------
  // Filters
  // ---------------------------------------------------------------------------------------------

  /** Whatever the kind of the route, the filter looks for HTTP routes. */
  predicate KindsAllow(a: AllowedRoutes) {
    a.kinds.None? || a.kinds.value == [] || "HTTPRoute" in a.kinds.value
  }

  /** Some label of the selector is a label of the namespace. */
  predicate SomeLabelMatches(selector: map<string, string>, labels: map<string, string>) {
    exists k :: k in selector && k in labels && labels[k] == selector[k]
  }

  predicate SelectorAllows(gw: Gateway, ns: Namespaces, routeNamespace: string) {
    && ns.selector.Some? && ns.selector.value.matchLabels.Some? && routeNamespace in gw.namespaceLabels
    && SomeLabelMatches(ns.selector.value.matchLabels.value, gw.namespaceLabels[routeNamespace])
  }

  predicate NamespaceAllows(gw: Gateway, l: Listener, routeNamespace: string) {
    match l.allowed
    case None => true
    case Some(a) =>
      if a.namespaces.None? || a.namespaces.value.from.None? then KindsAllow(a)
      else
        match a.namespaces.value.from.value
        case All => KindsAllow(a)
        case Selector => SelectorAllows(gw, a.namespaces.value, routeNamespace)
        case Same => KindsAllow(a) && routeNamespace == gw.namespace
  }

  predicate HostnameAllows(gw: Gateway, l: Listener, r: Route) {
    l.hostname.None? || l.hostname.value == "" || gw.hostnames(l.hostname.value, r.hostnames)
  }

  predicate Selects(p: Parent, l: Listener) {
    && (p.port.None? || l.port == p.port.value)
    && (p.section.None? || l.name == p.section.value)
  }

  predicate Names(gw: Gateway, p: Parent, r: Route) {
    && p.name == gw.name
    && (if p.namespace.Some? then p.namespace.value else r.key.namespace) == gw.namespace
  }

  function Keep(ls: seq<Listener>, p: Listener -> bool): (out: seq<Listener>)
    ensures forall l :: l in out <==> l in ls && p(l)
  {
    if ls == [] then []
    else (if p(ls[0]) then [ls[0]] else []) + Keep(ls[1..], p)
  }

  // ---------------------------------------------------------------------------------------------
  // One route
  // ---------------------------------------------------------------------------------------------

  /** The listeners attached through the parents visited so far, and the failure reported last. */
  datatype Matched = Matched(listeners: seq<Listener>, status: Option<Resolution>)

  function ByNamespace(gw: Gateway, r: Route): seq<Listener> {
    Keep(gw.listeners, (l: Listener) => NamespaceAllows(gw, l, r.key.namespace))
  }

  function ByHostname(gw: Gateway, r: Route): seq<Listener> {
    Keep(ByNamespace(gw, r), (l: Listener) => HostnameAllows(gw, l, r))
  }

  function ByParent(gw: Gateway, p: Parent, r: Route): seq<Listener> {
    Keep(ByHostname(gw, r), (l: Listener) => Selects(p, l))
  }

  /** What a parent that names the gateway reports when it fails to attach the route. A parent with
      only a port reports nothing when no listener has the port. */
  function ParentFailure(gw: Gateway, p: Parent, r: Route): Option<Resolution> {
    if ByNamespace(gw, r) == [] then Some(LS.RouteNotResolved(LS.NotAllowedByListeners))
    else if ByHostname(gw, r) == [] then Some(LS.RouteNotResolved(LS.NoMatchingListenerHostname))
    else if ByParent(gw, p, r) == [] && p.section.Some? then Some(LS.RouteNotResolved(LS.NoMatchingParent))
    else None
  }

  function MatchParents(gw: Gateway, ps: seq<Parent>, r: Route): Matched {
    if ps == [] then Matched([], None)
    else
      var before := MatchParents(gw, ps[..|ps| - 1], r);
      var p := ps[|ps| - 1];
      if !Names(gw, p, r) then before
      else
        var failure := ParentFailure(gw, p, r);
        Matched(before.listeners + ByParent(gw, p, r), if failure.Some? then failure else before.status)
  }

  function Match(gw: Gateway, r: Route): Matched {
    if r.parents.None? then Matched([], None) else MatchParents(gw, r.parents.value, r)
  }

  /** The parent reference names the gateway, by default in the route's namespace. */
  ghost predicate Addresses(gw: Gateway, p: Parent, r: Route) {
    && p.name == gw.name
    && (p.namespace == Some(gw.namespace) || (p.namespace.None? && r.key.namespace == gw.namespace))
  }

  ghost predicate ServesHostnames(gw: Gateway, l: Listener, r: Route) {
    l.hostname.None? || l.hostname == Some("") || gw.hostnames(l.hostname.value, r.hostnames)
  }

  /** The parent reference names no other port and no other listener than this one's. */
  ghost predicate Chooses(p: Parent, l: Listener) {
    (p.port.None? || p.port == Some(l.port)) && (p.section.None? || p.section == Some(l.name))
  }

  lemma {:induction false} ParentsMatchIff(gw: Gateway, ps: seq<Parent>, r: Route, l: Listener)
    ensures l in MatchParents(gw, ps, r).listeners <==>
            && l in gw.listeners && NamespaceAllows(gw, l, r.key.namespace) && ServesHostnames(gw, l, r)
            && exists p :: p in ps && Addresses(gw, p, r) && Chooses(p, l)
  {
    if ps != [] {
      var n := |ps| - 1;
      assert ps == ps[..n] + [ps[n]];
      ParentsMatchIff(gw, ps[..n], r, l);
      assert l in ByParent(gw, ps[n], r) <==>
             && l in gw.listeners && NamespaceAllows(gw, l, r.key.namespace) && ServesHostnames(gw, l, r)
             && Chooses(ps[n], l);
    }
  }

  /** A listener is matched exactly when some parent reference of the route names the gateway and
      selects the listener, and the listener admits the route's namespace and hostnames. */
  lemma {:induction false} MatchedIff(gw: Gateway, r: Route, l: Listener)
    ensures l in Match(gw, r).listeners <==>
            && l in gw.listeners && NamespaceAllows(gw, l, r.key.namespace) && ServesHostnames(gw, l, r)
            && r.parents.Some? && exists p :: p in r.parents.value && Addresses(gw, p, r) && Chooses(p, l)
  {
    if r.parents.Some? {
      ParentsMatchIff(gw, r.parents.value, r, l);
    }
  }

  /** What a parent reference reports, from the listeners alone: that none admits the route's namespace; or
      that none which does serves its hostnames; or, if it names a listener, that none which does both is
      the chosen one. One that names another gateway reports nothing. */
  ghost function Reported(gw: Gateway, p: Parent, r: Route): Option<LS.Reason> {
    if !Addresses(gw, p, r) then None
    else if NoneAdmits(gw, r) then Some(LS.NotAllowedByListeners)
    else if NoneServes(gw, r) then Some(LS.NoMatchingListenerHostname)
    else if p.section.Some? && NoneChosen(gw, p, r) then Some(LS.NoMatchingParent)
    else None
  }

  ghost predicate NoneAdmits(gw: Gateway, r: Route) {
    forall l :: l in gw.listeners ==> !NamespaceAllows(gw, l, r.key.namespace)
  }

  ghost predicate NoneServes(gw: Gateway, r: Route) {
    forall l :: l in gw.listeners && NamespaceAllows(gw, l, r.key.namespace) ==> !ServesHostnames(gw, l, r)
  }

  ghost predicate NoneChosen(gw: Gateway, p: Parent, r: Route) {
    forall l :: l in gw.listeners && NamespaceAllows(gw, l, r.key.namespace) && ServesHostnames(gw, l, r) ==>
      !Chooses(p, l)
  }

  lemma {:induction false} KeepsNone(ls: seq<Listener>, p: Listener -> bool)
    ensures Keep(ls, p) == [] <==> forall l :: l in ls ==> !p(l)
  {
    if Keep(ls, p) != [] {
      assert Keep(ls, p)[0] in Keep(ls, p);
    }
  }

  lemma {:induction false} NamespaceFilterEmptyIff(gw: Gateway, r: Route)
    ensures ByNamespace(gw, r) == [] <==> NoneAdmits(gw, r)
  {
    KeepsNone(gw.listeners, (l: Listener) => NamespaceAllows(gw, l, r.key.namespace));
  }

  lemma {:induction false} HostnameFilterEmptyIff(gw: Gateway, r: Route)
    ensures ByHostname(gw, r) == [] <==> NoneServes(gw, r)
  {
    KeepsNone(ByNamespace(gw, r), (l: Listener) => HostnameAllows(gw, l, r));
    forall l ensures HostnameAllows(gw, l, r) <==> ServesHostnames(gw, l, r) {
    }
  }

  lemma {:induction false} ParentFilterEmptyIff(gw: Gateway, p: Parent, r: Route)
    ensures ByParent(gw, p, r) == [] <==> NoneChosen(gw, p, r)
  {
    KeepsNone(ByHostname(gw, r), (l: Listener) => Selects(p, l));
    forall l ensures HostnameAllows(gw, l, r) <==> ServesHostnames(gw, l, r) {
    }
    forall l ensures Selects(p, l) <==> Chooses(p, l) {
    }
  }

  lemma {:induction false} FailureIs(gw: Gateway, p: Parent, r: Route)
    requires Addresses(gw, p, r)
    ensures ParentFailure(gw, p, r) == Unresolved(Reported(gw, p, r))
  {
    NamespaceFilterEmptyIff(gw, r);
    HostnameFilterEmptyIff(gw, r);
    ParentFilterEmptyIff(gw, p, r);
  }

  function Unresolved(reason: Option<LS.Reason>): Option<Resolution> {
    if reason.None? then None else Some(LS.RouteNotResolved(reason.value))
  }

  /** The parent at `i` reports the failure, and no later one reports any. */
  ghost predicate ReportsLast(gw: Gateway, ps: seq<Parent>, r: Route, i: nat) {
    i < |ps| && Reported(gw, ps[i], r).Some? && forall j :: i < j < |ps| ==> Reported(gw, ps[j], r).None?
  }

  /** The failure of a list of parents is the one that the last failing parent reports, even when another
      parent attached the route; there is none exactly when no parent reports one. */
  lemma {:induction false} StatusIsLastFailure(gw: Gateway, ps: seq<Parent>, r: Route)
    ensures var status := MatchParents(gw, ps, r).status;
            && (status.None? <==> forall i :: 0 <= i < |ps| ==> Reported(gw, ps[i], r).None?)
            && (forall i: nat :: ReportsLast(gw, ps, r, i) ==>
                  status == Unresolved(Reported(gw, ps[i], r)))
  {
    if ps != [] {
      var n := |ps| - 1;
      var init := ps[..n];
      StatusIsLastFailure(gw, init, r);
      LastParent(gw, ps, r);
      forall i: nat | ReportsLast(gw, ps, r, i)
        ensures MatchParents(gw, ps, r).status == Unresolved(Reported(gw, ps[i], r))
      {
        assert forall j :: 0 <= j < n ==> init[j] == ps[j];
        assert i < n ==> Reported(gw, ps[n], r).None? && ReportsLast(gw, init, r, i);
      }
    }
  }

  lemma {:induction false} LastParent(gw: Gateway, ps: seq<Parent>, r: Route)
    requires ps != []
    ensures var n := |ps| - 1;
            MatchParents(gw, ps, r).status ==
            if Reported(gw, ps[n], r).Some? then Unresolved(Reported(gw, ps[n], r))
            else MatchParents(gw, ps[..n], r).status
  {
    var p := ps[|ps| - 1];
    assert Names(gw, p, r) <==> Addresses(gw, p, r);
    if Addresses(gw, p, r) {
      FailureIs(gw, p, r);
    }
  }

  // ---------------------------------------------------------------------------------------------
  // The namespace filter and what it is for
  // ---------------------------------------------------------------------------------------------

  /** The route kinds that the Gateway API documents for a listener's protocol. */
  function ProtocolKinds(protocol: LS.Protocol): set<string> {
    match protocol
    case Tls => {"TLSRoute", "TCPRoute"}
    case Tcp => {"TCPRoute"}
    case Udp => {"UDPRoute"}
    case _ => {"HTTPRoute", "GRPCRoute"}
  }

  predicate GivesKinds(l: Listener) {
    l.allowed.Some? && l.allowed.value.kinds.Some? && l.allowed.value.kinds.value != []
  }

  /** The listener lists the kind, or no kinds at all and it is one of its protocol's. */
  predicate TakesKind(l: Listener, kind: string) {
    if GivesKinds(l) then kind in l.allowed.value.kinds.value else kind in ProtocolKinds(l.protocol)
  }

  predicate GivesScope(l: Listener) {
    l.allowed.Some? && l.allowed.value.namespaces.Some? && l.allowed.value.namespaces.value.from.Some?
  }

  /** The namespaces that a listener takes routes from; the Gateway API documents `Same` as the default. */
  function Scope(l: Listener): From {
    if GivesScope(l) then l.allowed.value.namespaces.value.from.value else Same
  }

  /** The match labels, none if absent. */
  function Wanted(selector: LabelSelector): map<string, string> {
    if selector.matchLabels.Some? then selector.matchLabels.value else map[]
  }

  predicate HasAll(labels: map<string, string>, wanted: map<string, string>) {
    forall k :: k in wanted ==> k in labels && labels[k] == wanted[k]
  }

  predicate HasNone(labels: map<string, string>, wanted: map<string, string>) {
    forall k :: k in wanted ==> !(k in labels && labels[k] == wanted[k])
  }

  predicate Meets(labels: map<string, string>, e: Expression) {
    match e.op
    case In => e.key in labels && labels[e.key] in e.values
    case NotIn => !(e.key in labels && labels[e.key] in e.values)
    case Exists => e.key in labels
    case DoesNotExist => e.key !in labels
  }

  predicate MeetsAll(labels: map<string, string>, es: seq<Expression>) {
    forall e :: e in es ==> Meets(labels, e)
  }

  /** A selector selects the namespaces that have all its labels and meet all its expressions. */
  predicate Selected(labels: map<string, string>, selector: LabelSelector) {
    HasAll(labels, Wanted(selector)) && MeetsAll(labels, selector.matchExpressions)
  }

  /** A listener admits routes of its kinds from the namespaces that it names. */
  predicate Admits(gw: Gateway, l: Listener, kind: string, routeNamespace: string) {
    && TakesKind(l, kind)
    && match Scope(l)
       case All => true
       case Same => routeNamespace == gw.namespace
       case Selector =>
         var selector := l.allowed.value.namespaces.value.selector;
         selector.Some? && routeNamespace in gw.namespaceLabels
         && Selected(gw.namespaceLabels[routeNamespace], selector.value)
  }

  /** Without a selector the filter is right, for a namespace that the listener takes routes from, exactly
      if it takes the route's kind just if it lists no kinds or HTTP routes among them; and for any other
      namespace exactly if it says that it takes its own only, or lists kinds but no HTTP routes. */
  lemma {:induction false} FilterRightIff(gw: Gateway, l: Listener, kind: string, routeNamespace: string)
    requires !Scope(l).Selector?
    ensures NamespaceAllows(gw, l, routeNamespace) == Admits(gw, l, kind, routeNamespace) <==>
            if Scope(l).All? || routeNamespace == gw.namespace
            then TakesKind(l, kind) <==> (GivesKinds(l) ==> TakesKind(l, "HTTPRoute"))
            else GivesScope(l) || (GivesKinds(l) && !TakesKind(l, "HTTPRoute"))
  {
  }

  /** With a selector it is right exactly if there is none, or the namespace is not known, or: the selector
      has labels and the namespace has none of them, or it has all, meets all expressions, and the route's
      kind is taken; or the selector has no labels, and the kind is not taken or an expression not met. */
  lemma {:induction false} SelectorRightIff(gw: Gateway, l: Listener, kind: string, routeNamespace: string)
    requires Scope(l).Selector?
    ensures var selector := l.allowed.value.namespaces.value.selector;
            NamespaceAllows(gw, l, routeNamespace) == Admits(gw, l, kind, routeNamespace) <==>
            || selector.None? || routeNamespace !in gw.namespaceLabels
            || var labels, wanted := gw.namespaceLabels[routeNamespace], Wanted(selector.value);
               var met := TakesKind(l, kind) && MeetsAll(labels, selector.value.matchExpressions);
               if wanted == map[] then !met else HasNone(labels, wanted) || (met && HasAll(labels, wanted))
  {
    var selector := l.allowed.value.namespaces.value.selector;
    if selector.Some? && routeNamespace in gw.namespaceLabels {
      LabelsRead(selector.value, gw.namespaceLabels[routeNamespace]);
    }
  }

  lemma {:induction false} LabelsRead(selector: LabelSelector, labels: map<string, string>)
    ensures SomeLabelMatches(Wanted(selector), labels) <==> !HasNone(labels, Wanted(selector))
    ensures Wanted(selector) != map[] && HasAll(labels, Wanted(selector)) ==> !HasNone(labels, Wanted(selector))
  {
    var wanted := Wanted(selector);
    if wanted != map[] {
      var k :| k in wanted.Keys;
      assert HasAll(labels, wanted) ==> k in labels && labels[k] == wanted[k];
    }
  }

  /** A namespace with one of two demanded labels is admitted, and to a listener for TCP routes. */
  lemma {:induction false} OneLabelAdmitted(gw: Gateway, l: Listener, routeNamespace: string)
    requires routeNamespace in gw.namespaceLabels && gw.namespaceLabels[routeNamespace] == map["env" := "prod"]
    requires l.allowed == Some(AllowedRoutes(Some(["TCPRoute"]), Some(Namespaces(Some(Selector),
                                 Some(LabelSelector(Some(map["env" := "prod", "team" := "a"]), []))))))
    ensures NamespaceAllows(gw, l, routeNamespace)
    ensures forall kind :: !Admits(gw, l, kind, routeNamespace)
  {
    var labels := gw.namespaceLabels[routeNamespace];
    assert "env" in labels && labels["env"] == "prod" && "team" !in labels;
  }

  /** A namespace that does not meet an expression is admitted for its label, and one that meets all is
      refused where the selector has no labels. */
  lemma {:induction false} ExpressionsUnread(gw: Gateway, l: Listener, matchLabels: Option<map<string, string>>,
                                             routeNamespace: string)
    requires routeNamespace in gw.namespaceLabels && gw.namespaceLabels[routeNamespace] == map["env" := "prod"]
    requires l.protocol.Http? && l.allowed.Some? && l.allowed.value.kinds.None?
    requires l.allowed.value.namespaces == Some(Namespaces(Some(Selector), Some(LabelSelector(matchLabels,
               [if matchLabels.Some? then Expression("team", Exists, {}) else Expression("env", In, {"prod"})]))))
    requires matchLabels.None? || matchLabels.value == map["env" := "prod"]
    ensures NamespaceAllows(gw, l, routeNamespace) <==> matchLabels.Some?
    ensures Admits(gw, l, "HTTPRoute", routeNamespace) <==> matchLabels.None?
  {
    var labels, selector := gw.namespaceLabels[routeNamespace], l.allowed.value.namespaces.value.selector.value;
    assert "env" in labels && labels["env"] == "prod" && "team" !in labels;
    assert selector.matchExpressions[0] in selector.matchExpressions;
    LabelsRead(selector, labels);
  }

  /** A listener without `allowedRoutes`, whose default is its own namespace, takes routes from any. */
  lemma {:induction false} DefaultScopeUnread(gw: Gateway, l: Listener, kind: string, routeNamespace: string)
    requires l.allowed.None? && routeNamespace != gw.namespace
    ensures NamespaceAllows(gw, l, routeNamespace) && !Admits(gw, l, kind, routeNamespace)
  {
  }

  lemma {:induction false} GrpcPublished(protocol: LS.Protocol, kinds: seq<string>)
    ensures var published := LS.PublishedKinds(LS.Create(protocol, None, Some(kinds)).conditions);
            "GRPCRoute" in kinds <==> published.Some? && "GRPCRoute" in published.value
  {
    var c := LS.AllowedRoutes(protocol, Some(kinds));
    assert LS.APPROVED_ROUTES[0] == "GRPCRoute" && "GRPCRoute" in LS.APPROVED_ROUTES;
    LS.AllowedRoutesOutcome(protocol, Some(kinds));
    assert "GRPCRoute" in LS.Approved(kinds) <==> "GRPCRoute" in kinds;
    var cs := LS.Create(protocol, None, Some(kinds)).conditions;
    assert cs == map[0 := c];
    assert LS.KindsUpTo(cs, 0) == None;
    assert LS.KindsUpTo(cs, 1) == if LS.TellsKinds(c) then Some(LS.SupportedKinds(c)) else None;
    assert LS.KindsUpTo(cs, 2) == LS.KindsUpTo(cs, 1);
    assert LS.KindsUpTo(cs, 3) == LS.KindsUpTo(cs, 2);
  }

  /** A listener that lists kinds, HTTP routes not among them, and selects no namespaces admits no route
      at all; but it publishes gRPC routes as supported if it lists them. */
  lemma {:induction false} GrpcOnlyAdmitsNothing(gw: Gateway, l: Listener, protocol: LS.Protocol)
    requires !Scope(l).Selector? && l.allowed.Some? && l.allowed.value.kinds.Some?
    requires l.allowed.value.kinds.value != [] && "HTTPRoute" !in l.allowed.value.kinds.value
    ensures forall ns :: !NamespaceAllows(gw, l, ns)
    ensures forall r: Route :: l !in Match(gw, r).listeners
    ensures var published := LS.PublishedKinds(LS.Create(protocol, None, l.allowed.value.kinds).conditions);
            "GRPCRoute" in l.allowed.value.kinds.value <==> published.Some? && "GRPCRoute" in published.value
  {
    forall r: Route ensures l !in Match(gw, r).listeners {
      MatchedIff(gw, r, l);
    }
    GrpcPublished(protocol, l.allowed.value.kinds.value);
  }

  // ---------------------------------------------------------------------------------------------
  // All linked routes
  // ---------------------------------------------------------------------------------------------

  /** The status a route carries on: the matcher's failure if any, else its backends' resolution. */
  function FinalStatus(gw: Gateway, r: Route): Resolution {
    var status := Match(gw, r).status;
    if status.Some? then status.value else r.status
  }

  /** A route ends with the failure reported last, or else with what its backends resolved to. */
  lemma {:induction false} FinalStatusIs(gw: Gateway, r: Route)
    ensures r.parents.Some? ==>
              forall i: nat :: ReportsLast(gw, r.parents.value, r, i) ==>
                FinalStatus(gw, r) == LS.RouteNotResolved(Reported(gw, r.parents.value[i], r).value)
    ensures r.parents.None? || (forall p :: p in r.parents.value ==> Reported(gw, p, r).None?) ==>
              FinalStatus(gw, r) == r.status
  {
    if r.parents.Some? {
      StatusIsLastFailure(gw, r.parents.value, r);
    }
  }

  type AttachedRoutes = map<string, Routes>

  /** Adds a route to a listener's set unless its key is present. */
  function InsertRoute(attached: AttachedRoutes, listener: string, key: ResourceKey,
                       status: Resolution): AttachedRoutes {
    if listener in attached then
      if key in attached[listener] then attached
      else attached[listener := attached[listener][key := status]]
    else attached[listener := map[key := status]]
  }

  function InsertAll(attached: AttachedRoutes, ls: seq<Listener>, key: ResourceKey,
                     status: Resolution): AttachedRoutes {
    if ls == [] then attached
    else InsertRoute(InsertAll(attached, ls[..|ls| - 1], key, status), ls[|ls| - 1].name, key, status)
  }

  function CalculateAttached(gw: Gateway, rs: seq<Route>): AttachedRoutes {
    if rs == [] then map[]
    else
      var r := rs[|rs| - 1];
      InsertAll(CalculateAttached(gw, rs[..|rs| - 1]), Match(gw, r).listeners, r.key, FinalStatus(gw, r))
  }

  /** Routes matched by no listener. */
  function Orphans(gw: Gateway, rs: seq<Route>): Routes {
    if rs == [] then map[]
    else
      var before, r := Orphans(gw, rs[..|rs| - 1]), rs[|rs| - 1];
      if Match(gw, r).listeners == [] && r.key !in before then before[r.key := FinalStatus(gw, r)] else before
  }

  /** What a listener is updated with; a listener that nothing matched is not updated. */
  function Attachment(attached: AttachedRoutes, listener: string): LS.Attachment {
    if listener in attached then
      var routes := attached[listener];
      LS.Attach(map k | k in routes && routes[k].RouteResolved? :: routes[k],
                map k | k in routes && !routes[k].RouteResolved? :: routes[k])
    else LS.NoRoutes
  }

  function ResolvedOn(gw: Gateway, rs: seq<Route>, listener: string): set<ResourceKey> {
    var a := Attachment(CalculateAttached(gw, rs), listener);
    if a.Attach? then a.resolved.Keys else {}
  }

  function UnresolvedOn(gw: Gateway, rs: seq<Route>, listener: string): set<ResourceKey> {
    var a := Attachment(CalculateAttached(gw, rs), listener);
    if a.Attach? then a.unresolved.Keys else {}
  }

  ghost predicate DistinctKeys(rs: seq<Route>) {
    forall i, j :: 0 <= i < j < |rs| ==> rs[i].key != rs[j].key
  }

  predicate MatchedOn(gw: Gateway, r: Route, listener: string) {
    exists l :: l in Match(gw, r).listeners && l.name == listener
  }

  lemma {:induction false} InsertAllAt(attached: AttachedRoutes, ls: seq<Listener>, key: ResourceKey,
                                       status: Resolution, listener: string, k: ResourceKey)
    requires forall n :: n in attached ==> key !in attached[n]
    ensures var after := InsertAll(attached, ls, key, status);
            (listener in after && k in after[listener]) <==>
              || (listener in attached && k in attached[listener])
              || (k == key && exists l :: l in ls && l.name == listener)
    ensures var after := InsertAll(attached, ls, key, status);
            listener in after && k in after[listener] ==>
              after[listener][k] == if k == key then status else if listener in attached && k in attached[listener]
                                    then attached[listener][k] else status
  {
    if ls != [] {
      var n := |ls| - 1;
      assert ls == ls[..n] + [ls[n]];
      InsertAllAt(attached, ls[..n], key, status, listener, k);
    }
  }

  /** With distinct keys: a listener holds exactly the routes it matched, each with its final status. */
  lemma {:induction false} AttachedAt(gw: Gateway, rs: seq<Route>, listener: string, k: ResourceKey)
    requires DistinctKeys(rs)
    ensures var attached := CalculateAttached(gw, rs);
            (listener in attached && k in attached[listener]) <==>
              exists r :: r in rs && r.key == k && MatchedOn(gw, r, listener)
    ensures var attached := CalculateAttached(gw, rs);
            forall r :: r in rs && r.key == k && listener in attached && k in attached[listener] ==>
              attached[listener][k] == FinalStatus(gw, r)
  {
    if rs != [] {
      var n := |rs| - 1;
      var init, last := rs[..n], rs[n];
      assert rs == init + [last];
      assert DistinctKeys(init);
      var before := CalculateAttached(gw, init);
      forall m | m in before ensures last.key !in before[m] {
        AttachedAt(gw, init, m, last.key);
        assert forall r :: r in init ==> r.key != last.key;
      }
      AttachedAt(gw, init, listener, k);
      InsertAllAt(before, Match(gw, last).listeners, last.key, FinalStatus(gw, last), listener, k);
      assert last in rs;
    }
  }

  lemma {:induction false} OrphanIff(gw: Gateway, rs: seq<Route>, k: ResourceKey)
    ensures k in Orphans(gw, rs) <==> exists r :: r in rs && r.key == k && Match(gw, r).listeners == []
  {
    if rs != [] {
      var n := |rs| - 1;
      assert rs == rs[..n] + [rs[n]];
      OrphanIff(gw, rs[..n], k);
    }
  }

  /** For linked routes with distinct keys, a key is resolved (or unresolved) on a listener exactly
      when its route matched the listener and ended resolved (or not). */
  lemma {:induction false} SplitAt(gw: Gateway, rs: seq<Route>, r: Route, listener: string)
    requires DistinctKeys(rs) && r in rs
    ensures r.key in ResolvedOn(gw, rs, listener) <==> MatchedOn(gw, r, listener) && FinalStatus(gw, r).RouteResolved?
    ensures r.key in UnresolvedOn(gw, rs, listener) <==>
            MatchedOn(gw, r, listener) && !FinalStatus(gw, r).RouteResolved?
  {
    AttachedAt(gw, rs, listener, r.key);
    forall q | q in rs && q.key == r.key ensures q == r {
    }
  }

  lemma {:induction false} OnlyLinked(gw: Gateway, rs: seq<Route>, k: ResourceKey, listener: string)
    requires DistinctKeys(rs)
    requires k in ResolvedOn(gw, rs, listener) + UnresolvedOn(gw, rs, listener) + Orphans(gw, rs).Keys
    ensures exists r :: r in rs && r.key == k
  {
    AttachedAt(gw, rs, listener, k);
    OrphanIff(gw, rs, k);
  }

  ghost predicate ResolvedSomewhere(gw: Gateway, rs: seq<Route>, k: ResourceKey) {
    exists l :: l in gw.listeners && k in ResolvedOn(gw, rs, l.name)
  }

  ghost predicate UnresolvedSomewhere(gw: Gateway, rs: seq<Route>, k: ResourceKey) {
    exists l :: l in gw.listeners && k in UnresolvedOn(gw, rs, l.name)
  }

  /** `validate` splits the linked routes exactly three ways: each is resolved on some listener of
      the gateway, or unresolved on some listener, or orphaned, and never two of these at once. */
  lemma {:induction false} ThreeWaySplit(gw: Gateway, rs: seq<Route>, r: Route)
    requires DistinctKeys(rs) && r in rs
    ensures ResolvedSomewhere(gw, rs, r.key) || UnresolvedSomewhere(gw, rs, r.key) || r.key in Orphans(gw, rs)
    ensures !(ResolvedSomewhere(gw, rs, r.key) && UnresolvedSomewhere(gw, rs, r.key))
    ensures r.key in Orphans(gw, rs) ==> !ResolvedSomewhere(gw, rs, r.key) && !UnresolvedSomewhere(gw, rs, r.key)
  {
    OrphanIff(gw, rs, r.key);
    forall q | q in rs && q.key == r.key ensures q == r {
    }
    forall l | l in gw.listeners
      ensures r.key in ResolvedOn(gw, rs, l.name) <==> MatchedOn(gw, r, l.name) && FinalStatus(gw, r).RouteResolved?
      ensures r.key in UnresolvedOn(gw, rs, l.name) <==> MatchedOn(gw, r, l.name) && !FinalStatus(gw, r).RouteResolved?
    {
      SplitAt(gw, rs, r, l.name);
    }
    var ls := Match(gw, r).listeners;
    if ls != [] {
      MatchedIff(gw, r, ls[0]);
      assert ls[0] in ls && MatchedOn(gw, r, ls[0].name);
    }
  }

  // ---------------------------------------------------------------------------------------------
  // The loops
  // ---------------------------------------------------------------------------------------------

  /** The namespace filter's mutable flag, set by the kinds and overwritten by the namespaces. */
  method NamespaceFlag(gw: Gateway, l: Listener, routeNamespace: string) returns (isAllowed: bool)
    ensures isAllowed == NamespaceAllows(gw, l, routeNamespace)
  {
    isAllowed := true;
    if l.allowed.Some? {
      var a := l.allowed.value;
      if a.kinds.Some? && a.kinds.value != [] {
        isAllowed := "HTTPRoute" in a.kinds.value;
      }
      if a.namespaces.Some? && a.namespaces.value.from.Some? {
        match a.namespaces.value.from.value {
          case All =>
          case Selector =>
            isAllowed := false;
            var selector := a.namespaces.value.selector;
            if selector.Some? && selector.value.matchLabels.Some? && routeNamespace in gw.namespaceLabels {
              isAllowed := LabelLoop(selector.value.matchLabels.value, gw.namespaceLabels[routeNamespace]);
            }
          case Same =>
            if routeNamespace != gw.namespace {
              isAllowed := false;
            }
        }
      }
    }
  }

  method LabelLoop(selector: map<string, string>, labels: map<string, string>) returns (isAllowed: bool)
    ensures isAllowed == SomeLabelMatches(selector, labels)
  {
    isAllowed := false;
    var todo := selector.Keys;
    while todo != {}
      invariant todo <= selector.Keys
      invariant isAllowed <==> exists k :: k in selector && k !in todo && k in labels && labels[k] == selector[k]
    {
      var k :| k in todo;
      if k in labels && labels[k] == selector[k] {
        isAllowed := true;
      }
      todo := todo - {k};
    }
  }

  method FilterMatchingRoute(gw: Gateway, r: Route) returns (listeners: seq<Listener>, status: Option<Resolution>)
    ensures Matched(listeners, status) == Match(gw, r)
  {
    listeners, status := [], None;
    if r.parents.None? {
      return;
    }
    var ps := r.parents.value;
    for i := 0 to |ps|
      invariant Matched(listeners, status) == MatchParents(gw, ps[..i], r)
    {
      assert ps[..i + 1][..i] == ps[..i];
      var p := ps[i];
      if Names(gw, p, r) {
        var byNamespace := ByNamespace(gw, r);
        if byNamespace == [] {
          status := Some(LS.RouteNotResolved(LS.NotAllowedByListeners));
          assert ByParent(gw, p, r) == [];
        } else {
          var byHostname := ByHostname(gw, r);
          if byHostname == [] {
            status := Some(LS.RouteNotResolved(LS.NoMatchingListenerHostname));
            assert ByParent(gw, p, r) == [];
          } else {
            var matched := ByParent(gw, p, r);
            if p.section.Some? && matched == [] {
              status := Some(LS.RouteNotResolved(LS.NoMatchingParent));
            }
            listeners := listeners + matched;
          }
        }
      }
    }
    assert ps[..|ps|] == ps;
  }

  /** Matches every linked route and collects the routes of each listener and the orphans. */
  method SplitRoutes(gw: Gateway, rs: seq<Route>) returns (attached: AttachedRoutes, orphans: Routes)
    ensures attached == CalculateAttached(gw, rs) && orphans == Orphans(gw, rs)
  {
    attached, orphans := map[], map[];
    for i := 0 to |rs|
      invariant attached == CalculateAttached(gw, rs[..i]) && orphans == Orphans(gw, rs[..i])
    {
      var r := rs[i];
      assert rs[..i + 1][..i] == rs[..i];
      var listeners, failure := FilterMatchingRoute(gw, r);
      var status := if failure.Some? then failure.value else r.status;
      if listeners == [] {
        if r.key !in orphans {
          orphans := orphans[r.key := status];
        }
      } else {
        ghost var before := attached;
        for k := 0 to |listeners|
          invariant attached == InsertAll(before, listeners[..k], r.key, status)
        {
          assert listeners[..k + 1][..k] == listeners[..k];
          attached := InsertRoute(attached, listeners[k].name, r.key, status);
        }
        assert listeners[..|listeners|] == listeners;
      }
    }
    assert rs[..|rs|] == rs;
  }
}
