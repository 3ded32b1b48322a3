/**
 The resolver of reference grants. References found for a gateway are registered; each round lists the
 grants of every registered reference's namespace, keeps the references that some grant allows, and
 notifies the gateways for which that changed.
 */
module ReferenceGrants {
  import opened Prelude
  import opened Backends
  import LS = ListenerStatus

  const DEFAULT_GROUP := "gateway.networking.k8s.io"

  datatype From = From(group: string, namespace: string, kind: string)

  datatype To = To(group: string, name: Option<string>, kind: string)

  datatype Ref = Ref(from: From, to: To, gateway: ResourceKey, namespace: string)

  /** A grant as the API server lists it; its target groups are not yet normalised. */
  datatype Grant = Grant(namespace: Option<string>, froms: seq<From>, tos: seq<To>)

  /** What listing the grants of a namespace returns; None is a failed listing. */
  type Listing = string -> Option<seq<Grant>>

  function NormalGroup(group: string): string {
    if group == "" then DEFAULT_GROUP else group
  }

  function FromOfKey(key: ResourceKey): From {
    From(key.group, key.namespace, key.kind)
  }

  function ToOfKey(key: ResourceKey): To {
    To(NormalGroup(key.group), if key.name == "" then None else Some(key.name), key.kind)
  }

  function ToOfGrant(to: To): To {
    to.(group := NormalGroup(to.group))
  }

  function RefOf(from: ResourceKey, to: ResourceKey, gateway: ResourceKey): Ref {
    Ref(FromOfKey(from), ToOfKey(to), gateway, to.namespace)
  }

  function NamespaceOf(g: Grant): string {
    if g.namespace.Some? then g.namespace.value else ""
  }

  // ---------------------------------------------------------------------------------------------
  // What a grant means
  // ---------------------------------------------------------------------------------------------

  /** A target of a grant covers a reference target of its group and kind, by name or by having none. */
  predicate Covers(granted: To, to: To) {
    && NormalGroup(granted.group) == to.group
    && granted.kind == to.kind
    && (granted.name == None || granted.name == to.name)
  }

  predicate Permits(g: Grant, r: Ref) {
    r.from in g.froms && exists t :: t in g.tos && Covers(t, r.to)
  }

  /** The reference's target namespace has a listed grant for its source and target. */
  predicate Granted(listing: Listing, r: Ref) {
    && listing(r.namespace).Some?
    && exists g :: g in listing(r.namespace).value && Permits(g, r)
  }

  /** Listing a namespace returns grants of that namespace. */
  ghost predicate ListsOwnNamespace(listing: Listing) {
    forall n, g :: listing(n).Some? && g in listing(n).value ==> g.namespace == Some(n)
  }

  // ---------------------------------------------------------------------------------------------
  // A round as the resolver computes it
  // ---------------------------------------------------------------------------------------------

  predicate HasTarget(tos: seq<To>, to: To) {
    exists t :: t in tos && ToOfGrant(t) == to
  }

  /** The entries that a grant adds to the configured references. */
  predicate OfGrant(g: Grant, x: Ref) {
    x.namespace == NamespaceOf(g) && x.from in g.froms && HasTarget(g.tos, x.to)
  }

  predicate OfGrants(gs: seq<Grant>, x: Ref) {
    exists g :: g in gs && OfGrant(g, x)
  }

  /** Every reference lists its namespace and enters the grants under its own gateway. */
  predicate OfReference(listing: Listing, r: Ref, x: Ref) {
    r.gateway == x.gateway && listing(r.namespace).Some? && OfGrants(listing(r.namespace).value, x)
  }

  predicate Configured(refs: set<Ref>, listing: Listing, x: Ref) {
    exists r :: r in refs && OfReference(listing, r, x)
  }

  function Unnamed(r: Ref): Ref {
    r.(to := r.to.(name := None))
  }

  function Allowed(refs: set<Ref>, listing: Listing): set<Ref> {
    set r | r in refs && (Configured(refs, listing, r) || Configured(refs, listing, Unnamed(r)))
  }

  function For(refs: set<Ref>, gateway: ResourceKey): set<Ref> {
    set r | r in refs && r.gateway == gateway
  }

  function Gateways(refs: set<Ref>): set<ResourceKey> {
    set r | r in refs :: r.gateway
  }

  function Changed(before: set<Ref>, after: set<Ref>): set<Ref> {
    (after - before) + (before - after)
  }

  lemma {:induction false} OfGrantPermits(g: Grant, r: Ref)
    ensures NamespaceOf(g) == r.namespace && Permits(g, r) <==> OfGrant(g, r) || OfGrant(g, Unnamed(r))
  {
    if NamespaceOf(g) == r.namespace && Permits(g, r) {
      var t :| t in g.tos && Covers(t, r.to);
      assert ToOfGrant(t) == if t.name == None then Unnamed(r).to else r.to;
    }
    if OfGrant(g, r) {
      var t :| t in g.tos && ToOfGrant(t) == r.to;
      assert Covers(t, r.to);
    }
    if OfGrant(g, Unnamed(r)) {
      var t :| t in g.tos && ToOfGrant(t) == Unnamed(r).to;
      assert Covers(t, r.to);
    }
  }

  lemma {:induction false} GrantedConfigured(refs: set<Ref>, listing: Listing, r: Ref)
    requires ListsOwnNamespace(listing) && r in refs && Granted(listing, r)
    ensures Configured(refs, listing, r) || Configured(refs, listing, Unnamed(r))
  {
    var g :| g in listing(r.namespace).value && Permits(g, r);
    OfGrantPermits(g, r);
    assert OfReference(listing, r, r) || OfReference(listing, r, Unnamed(r));
  }

  lemma {:induction false} ConfiguredGranted(refs: set<Ref>, listing: Listing, r: Ref, x: Ref)
    requires ListsOwnNamespace(listing) && (x == r || x == Unnamed(r)) && Configured(refs, listing, x)
    ensures Granted(listing, r)
  {
    var r' :| r' in refs && OfReference(listing, r', x);
    var g :| g in listing(r'.namespace).value && OfGrant(g, x);
    assert r'.namespace == r.namespace;
    OfGrantPermits(g, r);
  }

  /** A round allows exactly the registered references that a listed grant of their target namespace
      permits, although grants are collected by gateway and compared as whole entries. */
  lemma {:induction false} AllowedIff(refs: set<Ref>, listing: Listing, r: Ref)
    requires ListsOwnNamespace(listing)
    ensures r in Allowed(refs, listing) <==> r in refs && Granted(listing, r)
  {
    if r in refs && Granted(listing, r) {
      GrantedConfigured(refs, listing, r);
    }
    if r in Allowed(refs, listing) {
      ConfiguredGranted(refs, listing, r, if Configured(refs, listing, r) then r else Unnamed(r));
    }
  }

  /** The notified gateways are exactly those whose allowed references differ from the last round. */
  lemma {:induction false} ChangedIff(before: set<Ref>, after: set<Ref>, gateway: ResourceKey)
    ensures gateway in Gateways(Changed(before, after)) <==> For(before, gateway) != For(after, gateway)
  {
    if gateway in Gateways(Changed(before, after)) {
      var r :| r in Changed(before, after) && r.gateway == gateway;
      assert r in For(before, gateway) <==> r !in For(after, gateway);
    }
    if For(before, gateway) != For(after, gateway) {
      var r :| r in For(before, gateway) <==> r !in For(after, gateway);
      assert r in Changed(before, after) && r.gateway == gateway;
    }
  }

  // ---------------------------------------------------------------------------------------------
  // Whole runs
  // ---------------------------------------------------------------------------------------------

  datatype Event =
    | Add(found: set<Ref>)
    | Delete(found: set<Ref>)
    | Resolve(listing: Listing)

  /** `seen` is what each gateway knew at its last notification. */
  datatype State = State(references: set<Ref>, resolved: set<Ref>, ghost seen: map<ResourceKey, set<Ref>>)

  ghost function Step(s: State, e: Event): State {
    match e
    case Add(found) => s.(references := s.references + found)
    case Delete(found) => s.(references := s.references - found)
    case Resolve(listing) =>
      var allowed := Allowed(s.references, listing);
      var notified := Gateways(Changed(s.resolved, allowed));
      State(s.references, allowed, s.seen + map g | g in notified :: For(allowed, g))
  }

  ghost function Run(es: seq<Event>): State {
    if es == [] then State({}, {}, map[]) else Step(Run(es[..|es| - 1]), es[|es| - 1])
  }

  ghost function Seen(s: State, gateway: ResourceKey): set<Ref> {
    if gateway in s.seen then s.seen[gateway] else {}
  }

  /** No change is missed: in every run, what a gateway knew when it was last notified is what is
      allowed for it now. */
  lemma {:induction false} RunNoMissedChange(es: seq<Event>, gateway: ResourceKey)
    ensures Seen(Run(es), gateway) == For(Run(es).resolved, gateway)
  {
    if es != [] {
      var init, e := es[..|es| - 1], es[|es| - 1];
      RunNoMissedChange(init, gateway);
      if e.Resolve? {
        var s := Run(init);
        ChangedIff(s.resolved, Allowed(s.references, e.listing), gateway);
      }
    }
  }

  ghost predicate AddedAt(es: seq<Event>, i: nat, r: Ref) {
    i < |es| && es[i].Add? && r in es[i].found
  }

  ghost predicate DeletedAt(es: seq<Event>, i: nat, r: Ref) {
    i < |es| && es[i].Delete? && r in es[i].found
  }

  /** A reference is registered exactly if some call added it and no later call deleted it, however
      often it was added. */
  lemma {:induction false} RunRegisteredIff(es: seq<Event>, r: Ref)
    ensures r in Run(es).references <==>
            exists i: nat :: AddedAt(es, i, r) && forall j: nat :: i < j ==> !DeletedAt(es, j, r)
  {
    if es != [] {
      var n := |es| - 1;
      var init, e := es[..n], es[n];
      RunRegisteredIff(init, r);
      if e.Add? && r in e.found {
        assert AddedAt(es, n, r);
      } else if e.Delete? && r in e.found {
        assert DeletedAt(es, n, r);
      } else {
        assert forall i: nat :: AddedAt(init, i, r) <==> AddedAt(es, i, r);
        assert forall i: nat :: DeletedAt(init, i, r) <==> DeletedAt(es, i, r);
      }
    }
  }

  /** After a run whose last round listed with `listing`, a query is answered by the references
      registered at that round, whatever was added or deleted since. */
  lemma {:induction false} RunAllowedIff(es: seq<Event>, listing: Listing, later: seq<Event>, from: ResourceKey,
                                         to: ResourceKey, gateway: ResourceKey)
    requires ListsOwnNamespace(listing) && forall e :: e in later ==> !e.Resolve?
    ensures RefOf(from, to, gateway) in Run(es + [Resolve(listing)] + later).resolved
            <==> RefOf(from, to, gateway) in Run(es).references && Granted(listing, RefOf(from, to, gateway))
  {
    LaterKeepsResolved(es + [Resolve(listing)], later);
    RoundResolves(es, listing);
    AllowedIff(Run(es).references, listing, RefOf(from, to, gateway));
  }

  lemma {:induction false} RoundResolves(es: seq<Event>, listing: Listing)
    ensures Run(es + [Resolve(listing)]).resolved == Allowed(Run(es).references, listing)
  {
    assert (es + [Resolve(listing)])[..|es|] == es;
  }

  lemma {:induction false} LaterKeepsResolved(es: seq<Event>, later: seq<Event>)
    requires forall e :: e in later ==> !e.Resolve?
    ensures Run(es + later).resolved == Run(es).resolved
    decreases |later|
  {
    if later == [] {
      assert es + later == es;
    } else {
      var n := |later| - 1;
      LaterKeepsResolved(es, later[..n]);
      assert (es + later)[..|es + later| - 1] == es + later[..n];
      assert later[n] in later;
    }
  }

  // ---------------------------------------------------------------------------------------------
  // The references of a gateway
  // ---------------------------------------------------------------------------------------------

  datatype LinkedRoute = LinkedRoute(key: ResourceKey, backends: seq<Backend>, filterBackends: seq<Backend>)

  datatype TlsListener = TlsListener(protocol: LS.Protocol, tls: Option<LS.TlsType>)

  /** Backends whose grant has not been decided; pools are never searched for. */
  predicate Searched(b: Backend) {
    b.Maybe? && !b.type_.InferencePool?
  }

  function Certificates(l: TlsListener): seq<LS.Certificate> {
    if (l.protocol.Https? || l.protocol.Tls?) && l.tls.Some? && l.tls.value.Terminate? then l.tls.value.certificates
    else []
  }

  ghost predicate FoundInRoutes(routes: seq<LinkedRoute>, gateway: ResourceKey, x: Ref) {
    exists r, b :: r in routes && b in r.backends && b.Maybe? && !b.type_.InferencePool?
                   && x == RefOf(r.key, b.type_.Key(), gateway)
  }

  ghost predicate OfCertificates(cs: seq<LS.Certificate>, gateway: ResourceKey, x: Ref) {
    exists c :: c in cs && x == RefOf(gateway, c.key, gateway)
  }

  ghost predicate FoundInListeners(ls: seq<TlsListener>, gateway: ResourceKey, x: Ref) {
    exists l :: l in ls && OfCertificates(Certificates(l), gateway, x)
  }

  /** A gateway's references: those of the undecided backends of its linked routes' rules, and those of the
      certificates of its terminating HTTPS and TLS listeners. */
  ghost predicate IsFound(routes: seq<LinkedRoute>, ls: seq<TlsListener>, gateway: ResourceKey, x: Ref) {
    FoundInRoutes(routes, gateway, x) || FoundInListeners(ls, gateway, x)
  }

  ghost predicate OfRoute(r: LinkedRoute, n: nat, gateway: ResourceKey, x: Ref)
    requires n <= |r.backends|
  {
    exists b :: b in r.backends[..n] && Searched(b) && x == RefOf(r.key, b.type_.Key(), gateway)
  }

  method SearchRoute(r: LinkedRoute, gateway: ResourceKey, before: set<Ref>) returns (found: set<Ref>)
    ensures forall x :: x in found <==> x in before || OfRoute(r, |r.backends|, gateway, x)
  {
    found := before;
    for i := 0 to |r.backends|
      invariant forall x :: x in found <==> x in before || OfRoute(r, i, gateway, x)
    {
      var b := r.backends[i];
      assert r.backends[..i + 1] == r.backends[..i] + [b];
      if Searched(b) {
        found := found + {RefOf(r.key, b.type_.Key(), gateway)};
      }
    }
  }

  method SearchListener(l: TlsListener, gateway: ResourceKey, before: set<Ref>) returns (found: set<Ref>)
    ensures forall x :: x in found <==> x in before || OfCertificates(Certificates(l), gateway, x)
  {
    found := before;
    if l.protocol.Https? || l.protocol.Tls? {
      if l.tls.Some? && l.tls.value.Terminate? {
        var cs := l.tls.value.certificates;
        for i := 0 to |cs|
          invariant forall x :: x in found <==> x in before || OfCertificates(cs[..i], gateway, x)
        {
          assert cs[..i + 1] == cs[..i] + [cs[i]];
          found := found + {RefOf(gateway, cs[i].key, gateway)};
        }
        assert cs[..|cs|] == cs;
      }
    }
  }

  method SearchReferences(routes: seq<LinkedRoute>, ls: seq<TlsListener>, gateway: ResourceKey)
    returns (found: set<Ref>)
    ensures forall x :: x in found <==> IsFound(routes, ls, gateway, x)
  {
    found := {};
    for i := 0 to |routes|
      invariant forall x :: x in found <==> FoundInRoutes(routes[..i], gateway, x)
    {
      assert routes[..i + 1] == routes[..i] + [routes[i]];
      found := SearchRoute(routes[i], gateway, found);
    }
    assert routes[..|routes|] == routes;
    for i := 0 to |ls|
      invariant forall x :: x in found <==> FoundInRoutes(routes, gateway, x) || FoundInListeners(ls[..i], gateway, x)
    {
      assert ls[..i + 1] == ls[..i] + [ls[i]];
      found := SearchListener(ls[i], gateway, found);
    }
    assert ls[..|ls|] == ls;
  }

  /** A query after the gateway's references were added and a round was run is answered by whether a grant
      permits it and the reference was found now or registered before. */
  lemma {:induction false} AddedThenAllowedIff(es: seq<Event>, found: set<Ref>, listing: Listing, from: ResourceKey,
                                               to: ResourceKey, gateway: ResourceKey)
    requires ListsOwnNamespace(listing)
    ensures var x := RefOf(from, to, gateway);
            x in Run(es + [Add(found)] + [Resolve(listing)]).resolved
            <==> Granted(listing, x) && (x in found || x in Run(es).references)
  {
    var added := es + [Add(found)];
    assert added[..|added| - 1] == es && Run(added).references == Run(es).references + found;
    RunAllowedIff(added, listing, [], from, to, gateway);
    assert added + [Resolve(listing)] + [] == added + [Resolve(listing)];
  }

  /** What it takes for a grant, in its own fields, to allow an object to refer to another. A target without
      a group is one of the Gateway API's. */
  predicate GrantAllows(g: Grant, from: ResourceKey, to: ResourceKey) {
    && (exists f :: f in g.froms && f.group == from.group && f.kind == from.kind && f.namespace == from.namespace)
    && (exists t :: t in g.tos && t.kind == to.kind && SameGroup(t.group, to.group)
                    && (t.name.None? || (t.name == Some(to.name) && to.name != "")))
  }

  predicate SameGroup(a: string, b: string) {
    a == b || (a == "" && b == "gateway.networking.k8s.io") || (a == "gateway.networking.k8s.io" && b == "")
  }

  ghost predicate GrantListed(listing: Listing, from: ResourceKey, to: ResourceKey) {
    listing(to.namespace).Some? && exists g :: g in listing(to.namespace).value && GrantAllows(g, from, to)
  }

  /** An entry is granted exactly if the namespace of the object referred to has a listed grant that names
      the source's group, kind and namespace, and the target's group and kind, and its name or none. */
  lemma {:induction false} GrantedMeans(listing: Listing, from: ResourceKey, to: ResourceKey, gateway: ResourceKey)
    ensures Granted(listing, RefOf(from, to, gateway)) <==> GrantListed(listing, from, to)
  {
    var x := RefOf(from, to, gateway);
    forall g ensures Permits(g, x) <==> GrantAllows(g, from, to) {
      if f :| f in g.froms && f.group == from.group && f.kind == from.kind && f.namespace == from.namespace {
        assert f == x.from;
      }
      forall t ensures Covers(t, x.to) <==>
                       t.kind == to.kind && SameGroup(t.group, to.group)
                       && (t.name.None? || (t.name == Some(to.name) && to.name != ""))
      {
      }
    }
  }

  /** Search and query build the same entry: once a gateway's references are registered, the next round
      makes the query for each open service backend of a linked route's rule answer whether a grant is
      listed for it. */
  lemma {:induction false} SearchedBackendAllowedIff(es: seq<Event>, found: set<Ref>, listing: Listing,
                                                     routes: seq<LinkedRoute>, ls: seq<TlsListener>,
                                                     gateway: ResourceKey, r: LinkedRoute, b: Backend)
    requires ListsOwnNamespace(listing) && forall x :: x in found <==> IsFound(routes, ls, gateway, x)
    requires r in routes && b in r.backends && b.Maybe? && !b.type_.InferencePool?
    ensures RefOf(r.key, b.type_.Key(), gateway) in Run(es + [Add(found)] + [Resolve(listing)]).resolved
            <==> GrantListed(listing, r.key, b.type_.Key())
  {
    AddedThenAllowedIff(es, found, listing, r.key, b.type_.Key(), gateway);
    GrantedMeans(listing, r.key, b.type_.Key(), gateway);
    assert FoundInRoutes(routes, gateway, RefOf(r.key, b.type_.Key(), gateway));
  }

  /** The same for each certificate of a terminating listener. */
  lemma {:induction false} CertificateAllowedIff(es: seq<Event>, found: set<Ref>, listing: Listing,
                                                 routes: seq<LinkedRoute>, ls: seq<TlsListener>,
                                                 gateway: ResourceKey, l: TlsListener, c: LS.Certificate)
    requires ListsOwnNamespace(listing) && forall x :: x in found <==> IsFound(routes, ls, gateway, x)
    requires l in ls && (l.protocol.Https? || l.protocol.Tls?)
    requires l.tls.Some? && l.tls.value.Terminate? && c in l.tls.value.certificates
    ensures RefOf(gateway, c.key, gateway) in Run(es + [Add(found)] + [Resolve(listing)]).resolved
            <==> GrantListed(listing, gateway, c.key)
  {
    AddedThenAllowedIff(es, found, listing, gateway, c.key, gateway);
    GrantedMeans(listing, gateway, c.key, gateway);
    assert FoundInListeners(ls, gateway, RefOf(gateway, c.key, gateway));
  }

  /** The resolution of a route also asks for the backends of its filters, which the search leaves out. For
      them a grant counts only if the rule backends of some linked route, or an earlier search, happen to
      have registered the same reference. */
  lemma {:induction false} FilterBackendAllowedIff(es: seq<Event>, found: set<Ref>, listing: Listing,
                                                   routes: seq<LinkedRoute>, ls: seq<TlsListener>,
                                                   gateway: ResourceKey, r: LinkedRoute, b: Backend)
    requires ListsOwnNamespace(listing) && forall x :: x in found <==> IsFound(routes, ls, gateway, x)
    requires r in routes && b in r.filterBackends && r.key.kind != gateway.kind
    ensures var x := RefOf(r.key, b.type_.Key(), gateway);
            x in Run(es + [Add(found)] + [Resolve(listing)]).resolved
            <==> Granted(listing, x) && (FoundInRoutes(routes, gateway, x) || x in Run(es).references)
  {
    AddedThenAllowedIff(es, found, listing, r.key, b.type_.Key(), gateway);
    assert !FoundInListeners(ls, gateway, RefOf(r.key, b.type_.Key(), gateway));
  }

  // ---------------------------------------------------------------------------------------------
  // The resolver as the source has it
  // ---------------------------------------------------------------------------------------------

  method InsertGrant(before: set<Ref>, g: Grant, gateway: ResourceKey) returns (configured: set<Ref>)
    ensures forall x :: x in configured <==> x in before || (x.gateway == gateway && OfGrant(g, x))
  {
    configured := before;
    for i := 0 to |g.froms|
      invariant forall x :: x in configured <==>
                  x in before || (x.gateway == gateway && OfGrant(g.(froms := g.froms[..i]), x))
    {
      assert g.froms[..i + 1] == g.froms[..i] + [g.froms[i]];
      var others := configured;
      for j := 0 to |g.tos|
        invariant forall x :: x in configured <==>
                    x in others || (x.gateway == gateway && OfGrant(Grant(g.namespace, [g.froms[i]], g.tos[..j]), x))
      {
        assert g.tos[..j + 1] == g.tos[..j] + [g.tos[j]];
        configured := configured + {Ref(g.froms[i], ToOfGrant(g.tos[j]), gateway, NamespaceOf(g))};
      }
      assert g.tos[..|g.tos|] == g.tos;
    }
    assert g.froms[..|g.froms|] == g.froms;
  }

  method InsertGrants(before: set<Ref>, gs: seq<Grant>, gateway: ResourceKey) returns (configured: set<Ref>)
    ensures forall x :: x in configured <==> x in before || (x.gateway == gateway && OfGrants(gs, x))
  {
    configured := before;
    for i := 0 to |gs|
      invariant forall x :: x in configured <==> x in before || (x.gateway == gateway && OfGrants(gs[..i], x))
    {
      assert gs[..i + 1] == gs[..i] + [gs[i]];
      configured := InsertGrant(configured, gs[i], gateway);
    }
    assert gs[..|gs|] == gs;
  }

  method ConfiguredGrants(refs: set<Ref>, listing: Listing) returns (configured: set<Ref>)
    ensures forall x :: x in configured <==> Configured(refs, listing, x)
  {
    configured := {};
    var rest := refs;
    while rest != {}
      invariant rest <= refs
      invariant forall x :: x in configured <==> Configured(refs - rest, listing, x)
      decreases |rest|
    {
      var r :| r in rest;
      rest := rest - {r};
      assert refs - rest == (refs - (rest + {r})) + {r};
      var grants := listing(r.namespace);
      if grants.Some? {
        configured := InsertGrants(configured, grants.value, r.gateway);
      }
    }
    assert refs - rest == refs;
  }

  method KeepAllowed(refs: set<Ref>, configured: set<Ref>) returns (allowed: set<Ref>)
    ensures allowed == set r | r in refs && (r in configured || Unnamed(r) in configured)
  {
    allowed := {};
    var rest := refs;
    while rest != {}
      invariant rest <= refs
      invariant allowed == set r | r in refs - rest && (r in configured || Unnamed(r) in configured)
      decreases |rest|
    {
      var r :| r in rest;
      rest := rest - {r};
      if r in configured || Unnamed(r) in configured {
        allowed := allowed + {r};
      }
    }
  }

  method ToNotify(before: set<Ref>, after: set<Ref>) returns (notified: Option<set<ResourceKey>>)
    ensures notified.None? <==> before == after
    ensures forall g :: (notified.Some? && g in notified.value) <==> For(before, g) != For(after, g)
  {
    var changed := Changed(before, after);
    notified := if changed != {} then Some(Gateways(changed)) else None;
    assert changed == {} <==> after - before == {} && before - after == {};
    assert after - before == {} && before - after == {} ==> before == after;
    forall g ensures g in Gateways(changed) <==> For(before, g) != For(after, g) {
      ChangedIff(before, after, g);
    }
  }

  class ReferenceGrantsResolver {
    var references: set<Ref>
    var resolved: set<Ref>

    constructor ()
      ensures references == {} && resolved == {}
    {
      references, resolved := {}, {};
    }

    method AddReferences(found: set<Ref>)
      modifies this`references
      ensures references == Step(State(old(references), resolved, map[]), Add(found)).references
    {
      references := references + found;
    }

    method DeleteReferences(found: set<Ref>)
      modifies this`references
      ensures references == Step(State(old(references), resolved, map[]), Delete(found)).references
    {
      references := references - found;
    }

    /** One round. `notified` is the request sent to the gateways, if any. */
    method ResolveInternal(listing: Listing) returns (notified: Option<set<ResourceKey>>)
      modifies this`resolved
      ensures resolved == Allowed(references, listing)
      ensures notified.None? <==> old(resolved) == resolved
      ensures forall g :: (notified.Some? && g in notified.value) <==> For(old(resolved), g) != For(resolved, g)
    {
      var configured := ConfiguredGrants(references, listing);
      var allowed := KeepAllowed(references, configured);
      assert allowed == Allowed(references, listing);
      notified := ToNotify(resolved, allowed);
      resolved := allowed;
    }

    /** The query asks for an entry of the gateway from the source's group, kind and namespace to the
        target. */
    predicate IsAllowed(from: ResourceKey, to: ResourceKey, gateway: ResourceKey): (allowed: bool)
      reads this
      ensures allowed <==>
              exists x :: x in resolved && x.gateway == gateway && x.namespace == to.namespace
                          && x.from == From(from.group, from.namespace, from.kind)
                          && x.to.kind == to.kind && x.to.name == (if to.name == "" then None else Some(to.name))
                          && x.to.group == if to.group == "" then "gateway.networking.k8s.io" else to.group
    {
      RefOf(from, to, gateway) in resolved
    }
  }
}
