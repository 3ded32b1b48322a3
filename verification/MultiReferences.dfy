/**
 The reference-counted resolver shared by services and inference pools: per gateway and route the
 references it uses, a count per reference, and the values that polling has resolved. A value is
 dropped when its reference's count reaches zero.
 */
module MultiReferences {
  import opened Prelude
  import PV = PolledValues

  type Key = ResourceKey
  /** route -> references */
  type RouteMap = map<Key, set<Key>>
  /** gateway -> route -> references */
  type Mapping = map<Key, RouteMap>

  type Value = PV.Value

  datatype State = State(mapping: Mapping, counts: map<Key, int>, resolved: map<Key, Value>)

  datatype Event =
    | AddGateway(gateway: Key, routes: RouteMap)
    | DeleteGateway(gateway: Key)
    | DeleteRoute(route: Key)
    | Poll(reference: Key, result: Option<Value>)

  // ---------------------------------------------------------------------------------------------
  // Occurrences
  // ---------------------------------------------------------------------------------------------

  function RoutesUsing(rm: RouteMap, ref: Key): set<Key> {
    set r | r in rm && ref in rm[r]
  }

  /** The routes of one gateway that use a reference, counted. */
  function Uses(rm: RouteMap, ref: Key): nat {
    |RoutesUsing(rm, ref)|
  }

  /** The (gateway, route) pairs that use a reference. */
  function Sites(m: Mapping, ref: Key): set<(Key, Key)> {
    set g, r | g in m && r in m[g] && ref in m[g][r] :: (g, r)
  }

  /** The gateways under which a route uses a reference. */
  function Holders(m: Mapping, route: Key, ref: Key): set<Key> {
    set g | g in m && route in m[g] && ref in m[g][route]
  }

  function RoutesOf(m: Mapping, gateway: Key): RouteMap {
    if gateway in m then m[gateway] else map[]
  }

  function CountAt(counts: map<Key, int>, ref: Key): int {
    if ref in counts then counts[ref] else 0
  }

  function Count(s: State, ref: Key): int {
    CountAt(s.counts, ref)
  }

  // ---------------------------------------------------------------------------------------------
  // Steps
  // ---------------------------------------------------------------------------------------------

  function References(rm: RouteMap): set<Key> {
    set r, k | r in rm && k in rm[r] :: k
  }

  function Decremented(counts: map<Key, int>, rm: RouteMap): map<Key, int> {
    map k | k in counts :: counts[k] - Uses(rm, k)
  }

  function Incremented(counts: map<Key, int>, rm: RouteMap): map<Key, int> {
    map k | k in counts.Keys + References(rm) :: CountAt(counts, k) + Uses(rm, k)
  }

  /** The references that a route's removal releases: each once, however many gateways lose it. */
  function Released(m: Mapping, route: Key): set<Key> {
    set g, k | g in m && route in m[g] && k in m[g][route] :: k
  }

  function DecrementedOnce(counts: map<Key, int>, refs: set<Key>): map<Key, int> {
    map k | k in counts :: counts[k] - (if k in refs then 1 else 0)
  }

  function WithoutRoute(m: Mapping, route: Key): Mapping {
    map g | g in m :: m[g] - {route}
  }

  function Exhausted(counts: map<Key, int>): set<Key> {
    set k | k in counts && counts[k] < 1
  }

  /** Forgets the references whose count fell below one, with their values. */
  function Purged(m: Mapping, counts: map<Key, int>, resolved: map<Key, Value>): State {
    State(m, counts - Exhausted(counts), resolved - Exhausted(counts))
  }

  /** A polled object replaces the stored one only if it differs beyond its metadata. */
  function Resolve(resolved: map<Key, Value>, ref: Key, result: Option<Value>): map<Key, Value> {
    match result
    case None => resolved - {ref}
    case Some(v) =>
      if ref in resolved && resolved[ref].body == v.body then resolved else resolved[ref := v]
  }

  function Step(s: State, e: Event): State {
    match e
    case AddGateway(g, rm) =>
      if rm == map[] then s
      else Purged(s.mapping[g := rm], Incremented(Decremented(s.counts, RoutesOf(s.mapping, g)), rm), s.resolved)
    case DeleteGateway(g) =>
      if g !in s.mapping then s
      else Purged(s.mapping - {g}, Decremented(s.counts, s.mapping[g]), s.resolved)
    case DeleteRoute(rt) =>
      Purged(WithoutRoute(s.mapping, rt), DecrementedOnce(s.counts, Released(s.mapping, rt)), s.resolved)
    case Poll(k, result) =>
      s.(resolved := Resolve(s.resolved, k, result))
  }

  function Run(events: seq<Event>): State {
    if events == [] then State(map[], map[], map[])
    else Step(Run(events[..|events| - 1]), events[|events| - 1])
  }

  // ---------------------------------------------------------------------------------------------
  // Counting sites
  // ---------------------------------------------------------------------------------------------

  lemma {:induction false} PairsCount(g: Key, rs: set<Key>)
    ensures |set r | r in rs :: (g, r)| == |rs|
  {
    if rs != {} {
      var x :| x in rs;
      PairsCount(g, rs - {x});
      assert (set r | r in rs :: (g, r)) == (set r | r in rs - {x} :: (g, r)) + {(g, x)};
    }
  }

  lemma {:induction false} ReversedPairsCount(gs: set<Key>, rt: Key)
    ensures |set g | g in gs :: (g, rt)| == |gs|
  {
    if gs != {} {
      var x :| x in gs;
      ReversedPairsCount(gs - {x}, rt);
      assert (set g | g in gs :: (g, rt)) == (set g | g in gs - {x} :: (g, rt)) + {(x, rt)};
    }
  }

  lemma {:induction false} SiteAt(m: Mapping, ref: Key, site: (Key, Key))
    ensures site in Sites(m, ref) <==> site.0 in m && site.1 in m[site.0] && ref in m[site.0][site.1]
  {
  }

  /** A gateway contributes its routes' uses. */
  lemma {:induction false} SitesSplit(m: Mapping, g: Key, ref: Key)
    ensures |Sites(m, ref)| == |Sites(m - {g}, ref)| + Uses(RoutesOf(m, g), ref)
  {
    var own := set r | r in RoutesUsing(RoutesOf(m, g), ref) :: (g, r);
    PairsCount(g, RoutesUsing(RoutesOf(m, g), ref));
    var rest := Sites(m - {g}, ref);
    forall site: (Key, Key) ensures site in Sites(m, ref) <==> site in rest + own {
      SiteAt(m, ref, site);
      SiteAt(m - {g}, ref, site);
      assert site in own <==> site.0 == g && site.1 in RoutesUsing(RoutesOf(m, g), ref);
    }
    assert Sites(m, ref) == rest + own;
    assert rest !! own;
  }

  /** A route contributes its holders. */
  lemma {:induction false} SitesWithoutRoute(m: Mapping, rt: Key, ref: Key)
    ensures |Sites(m, ref)| == |Sites(WithoutRoute(m, rt), ref)| + |Holders(m, rt, ref)|
  {
    var own := set g | g in Holders(m, rt, ref) :: (g, rt);
    ReversedPairsCount(Holders(m, rt, ref), rt);
    var rest := Sites(WithoutRoute(m, rt), ref);
    forall site: (Key, Key) ensures site in Sites(m, ref) <==> site in rest + own {
      SiteAt(m, ref, site);
      SiteAt(WithoutRoute(m, rt), ref, site);
      assert site in own <==> site.1 == rt && site.0 in Holders(m, rt, ref);
    }
    assert Sites(m, ref) == rest + own;
    forall site: (Key, Key) ensures !(site in rest && site in own) {
      SiteAt(WithoutRoute(m, rt), ref, site);
    }
  }

  lemma {:induction false} SitesReplaced(m: Mapping, g: Key, rm: RouteMap, ref: Key)
    ensures |Sites(m[g := rm], ref)| == |Sites(m, ref)| - Uses(RoutesOf(m, g), ref) + Uses(rm, ref)
  {
    SitesSplit(m, g, ref);
    SitesSplit(m[g := rm], g, ref);
    assert m[g := rm] - {g} == m - {g};
  }

  lemma {:induction false} UnusedIffNoUses(rm: RouteMap, ref: Key)
    ensures ref in References(rm) <==> Uses(rm, ref) > 0
  {
    if r :| r in rm && ref in rm[r] {
      assert r in RoutesUsing(rm, ref);
    }
    if Uses(rm, ref) > 0 {
      var r :| r in RoutesUsing(rm, ref);
    }
  }

  lemma {:induction false} ReleasedIffHeld(m: Mapping, rt: Key, ref: Key)
    ensures ref in Released(m, rt) <==> |Holders(m, rt, ref)| > 0
  {
    if g :| g in m && rt in m[g] && ref in m[g][rt] {
      assert g in Holders(m, rt, ref);
    }
    if |Holders(m, rt, ref)| > 0 {
      var g :| g in Holders(m, rt, ref);
    }
  }

  // ---------------------------------------------------------------------------------------------
  // The counting law
  // ---------------------------------------------------------------------------------------------

  /** What deleting a route under several gateways leaves on a reference's count for good. */
  function Excess(m: Mapping, rt: Key, ref: Key): nat {
    var holders := |Holders(m, rt, ref)|;
    if holders == 0 then 0 else holders - 1
  }

  /** The excess left by all route deletions of a run. */
  function Leak(events: seq<Event>, ref: Key): nat {
    if events == [] then 0
    else
      var n := |events| - 1;
      Leak(events[..n], ref)
      + (if events[n].DeleteRoute? then Excess(Run(events[..n]).mapping, events[n].route, ref) else 0)
  }

  /** Listed references have positive counts, and no count is below the number of sites. */
  ghost predicate Covered(s: State) {
    && (forall k :: k in s.counts ==> s.counts[k] >= 1)
    && (forall k :: Count(s, k) >= |Sites(s.mapping, k)|)
  }

  /** How one step changes the count of a reference relative to its sites. */
  lemma {:induction false} StepBalance(s: State, e: Event, ref: Key)
    requires Covered(s)
    ensures Count(Step(s, e), ref) - |Sites(Step(s, e).mapping, ref)|
            == Count(s, ref) - |Sites(s.mapping, ref)|
               + (if e.DeleteRoute? then Excess(s.mapping, e.route, ref) else 0)
  {
    assert Count(s, ref) >= |Sites(s.mapping, ref)|;
    match e
    case AddGateway(g, rm) =>
      SitesReplaced(s.mapping, g, rm, ref);
      SitesSplit(s.mapping, g, ref);
      UnusedIffNoUses(rm, ref);
    case DeleteGateway(g) =>
      SitesSplit(s.mapping, g, ref);
    case DeleteRoute(rt) =>
      SitesWithoutRoute(s.mapping, rt, ref);
      ReleasedIffHeld(s.mapping, rt, ref);
    case Poll(_, _) =>
  }

  lemma {:induction false} StepCovered(s: State, e: Event)
    requires Covered(s)
    ensures Covered(Step(s, e))
  {
    forall k ensures Count(Step(s, e), k) >= |Sites(Step(s, e).mapping, k)| {
      StepBalance(s, e, k);
      assert Count(s, k) >= |Sites(s.mapping, k)|;
    }
  }

  lemma {:induction false} RunCovered(events: seq<Event>)
    ensures Covered(Run(events))
  {
    if events == [] {
      forall k ensures Sites(Run(events).mapping, k) == {} {
      }
    } else {
      RunCovered(events[..|events| - 1]);
      StepCovered(Run(events[..|events| - 1]), events[|events| - 1]);
    }
  }

  /** The counting law: in every run a reference's count is the number of its sites plus the exact
      excess of all route deletions so far. */
  lemma {:induction false} CountLaw(events: seq<Event>, ref: Key)
    ensures Count(Run(events), ref) == |Sites(Run(events).mapping, ref)| + Leak(events, ref)
  {
    if events == [] {
      assert Sites(Run(events).mapping, ref) == {};
    } else {
      var n := |events| - 1;
      CountLaw(events[..n], ref);
      RunCovered(events[..n]);
      StepBalance(Run(events[..n]), events[n], ref);
    }
  }

  /** Each route deletion of the run removed the reference from at most one gateway. */
  ghost predicate ThinDeletions(events: seq<Event>, ref: Key) {
    forall k :: 0 <= k < |events| && events[k].DeleteRoute? ==>
      |Holders(Run(events[..k]).mapping, events[k].route, ref)| <= 1
  }

  lemma {:induction false} NoLeakIff(events: seq<Event>, ref: Key)
    ensures Leak(events, ref) == 0 <==> ThinDeletions(events, ref)
  {
    if events != [] {
      var n := |events| - 1;
      var prefix := events[..n];
      NoLeakIff(prefix, ref);
      assert forall k :: 0 <= k < n ==> prefix[..k] == events[..k] && prefix[k] == events[k];
      if ThinDeletions(events, ref) {
        assert ThinDeletions(prefix, ref);
      }
    }
  }

  /** At the end of a run a count is exact if and only if every route deletion in it found the
      reference under at most one gateway: an excess is never repaired. */
  lemma {:induction false} CountExactIff(events: seq<Event>, ref: Key)
    ensures Count(Run(events), ref) == |Sites(Run(events).mapping, ref)| <==> ThinDeletions(events, ref)
  {
    CountLaw(events, ref);
    NoLeakIff(events, ref);
  }

  /** Once no gateway is left, the references still polled are exactly the leaked ones. */
  lemma {:induction false} LeftoversAreLeaks(events: seq<Event>, ref: Key)
    requires Run(events).mapping == map[]
    ensures ref in Run(events).counts <==> !ThinDeletions(events, ref)
  {
    CountLaw(events, ref);
    RunCovered(events);
    NoLeakIff(events, ref);
    assert Sites(Run(events).mapping, ref) == {};
  }

  /** A bookkeeping step drops a resolved value exactly when it takes a counted reference to zero;
      so a value still used somewhere is never dropped, and is never changed. */
  lemma {:induction false} ValueDroppedIff(s: State, e: Event, ref: Key)
    requires Covered(s) && !e.Poll? && ref in s.resolved
    ensures ref !in Step(s, e).resolved <==> ref in s.counts && Count(Step(s, e), ref) == 0
    ensures Sites(Step(s, e).mapping, ref) != {} ==>
              ref in Step(s, e).resolved && Step(s, e).resolved[ref] == s.resolved[ref]
  {
    StepCovered(s, e);
    assert Count(Step(s, e), ref) >= |Sites(Step(s, e).mapping, ref)|;
    assert Count(s, ref) >= |Sites(s.mapping, ref)|;
    match e
    case AddGateway(g, rm) =>
      UnusedIffNoUses(rm, ref);
    case _ =>
  }

  // ---------------------------------------------------------------------------------------------
  // The stored values
  // ---------------------------------------------------------------------------------------------

  /** What an event means for the value stored for a reference: a poll of it answers; another call that
      takes it from the counts drops it. */
  function MarkOf(s: State, e: Event, ref: Key): PV.Mark {
    if e.Poll? then (if e.reference == ref then PV.Answered(e.result) else PV.Untouched)
    else if ref in s.counts && ref !in Step(s, e).counts then PV.Dropped
    else PV.Untouched
  }

  function MarksOf(events: seq<Event>, ref: Key): (ms: seq<PV.Mark>)
    ensures |ms| == |events|
    ensures forall k :: 0 <= k < |ms| && PV.Gives(ms[k]) ==>
              events[k].Poll? && events[k].reference == ref && events[k].result == ms[k].result
  {
    if events == [] then []
    else
      var n := |events| - 1;
      MarksOf(events[..n], ref) + [MarkOf(Run(events[..n]), events[n], ref)]
  }

  lemma {:induction false} StepHeld(s: State, e: Event, ref: Key)
    requires Covered(s)
    ensures PV.Lookup(Step(s, e).resolved, ref) == PV.After(PV.Lookup(s.resolved, ref), MarkOf(s, e, ref))
  {
    match e
    case AddGateway(g, rm) =>
      UnusedIffNoUses(rm, ref);
    case _ =>
  }

  lemma {:induction false} HeldInRun(events: seq<Event>, ref: Key)
    ensures PV.Lookup(Run(events).resolved, ref) == PV.HeldAfter(MarksOf(events, ref))
  {
    if events != [] {
      var n := |events| - 1;
      var ms := MarksOf(events, ref);
      HeldInRun(events[..n], ref);
      assert ms[..|ms| - 1] == MarksOf(events[..n], ref);
      RunCovered(events[..n]);
      StepHeld(Run(events[..n]), events[n], ref);
    }
  }

  /** After every run a reference has a value exactly if its last poll answered with one and no call dropped
      it since. The body is the one of that poll; as a whole the value is that of the first poll since
      which the body is the same, so its metadata may be older. */
  lemma {:induction false} StoredIs(events: seq<Event>, ref: Key)
    ensures var ms, value := MarksOf(events, ref), PV.Lookup(Run(events).resolved, ref);
            && (value.Some? <==> exists i: nat :: PV.LastGiven(ms, i))
            && (forall i: nat :: PV.LastGiven(ms, i) ==> value.value.body == events[i].result.value.body)
            && (value.Some? <==> exists i: nat :: PV.FirstSame(ms, i))
            && (forall i: nat :: PV.FirstSame(ms, i) ==> value == events[i].result)
  {
    HeldInRun(events, ref);
    PV.HeldIs(MarksOf(events, ref));
  }

  /** The gateways told about a changed reference are those with a site of it. */
  function Notified(m: Mapping, ref: Key): (gateways: set<Key>)
    ensures forall g :: g in gateways <==> exists site :: site in Sites(m, ref) && site.0 == g
  {
    var gateways := set g | g in m && exists r :: r in m[g] && ref in m[g][r];
    forall g ensures g in gateways <==> exists site :: site in Sites(m, ref) && site.0 == g {
      if g in gateways {
        var r :| r in m[g] && ref in m[g][r];
        assert (g, r) in Sites(m, ref);
      }
    }
    gateways
  }

  /** The routes told about a changed reference: all routes of the notified gateways. */
  function NotifiedRoutes(m: Mapping, ref: Key): set<Key> {
    set g, r | g in m && g in Notified(m, ref) && r in m[g] :: r
  }

  /** No route that uses the reference is forgotten; and none is told in vain exactly if every route of
      every notified gateway uses it, there or at another gateway. */
  lemma {:induction false} NotifiedRoutesExactIff(m: Mapping, ref: Key)
    ensures var using := set site | site in Sites(m, ref) :: site.1;
            && using <= NotifiedRoutes(m, ref)
            && (using == NotifiedRoutes(m, ref) <==>
                forall g, r :: g in m && g in Notified(m, ref) && r in m[g] ==> r in using)
  {
    var using := set site | site in Sites(m, ref) :: site.1;
    forall r | r in using ensures r in NotifiedRoutes(m, ref) {
      var site :| site in Sites(m, ref) && site.1 == r;
      SiteAt(m, ref, site);
      assert site.0 in Notified(m, ref);
    }
    forall g, r | g in m && g in Notified(m, ref) && r in m[g] ensures r in NotifiedRoutes(m, ref) {
    }
  }

  // ---------------------------------------------------------------------------------------------
  // What a gateway last announced
  // ---------------------------------------------------------------------------------------------

  /** The routes a gateway announced last, without those deleted since. */
  function LastAnnounced(events: seq<Event>, gateway: Key): RouteMap {
    if events == [] then map[]
    else
      var n := |events| - 1;
      var before := LastAnnounced(events[..n], gateway);
      match events[n]
      case AddGateway(g, rm) => if g == gateway then rm else before
      case DeleteGateway(g) => if g == gateway then map[] else before
      case DeleteRoute(rt) => before - {rt}
      case Poll(_, _) => before
  }

  /** The event announces some routes for the gateway, or deletes it. */
  predicate Replaces(e: Event, gateway: Key) {
    e == DeleteGateway(gateway) || (e.AddGateway? && e.gateway == gateway && e.routes != map[])
  }

  /** The gateway announced no routes at all, and nothing replaced its routes since. */
  ghost predicate EmptyAnnounced(events: seq<Event>, gateway: Key) {
    exists i :: 0 <= i < |events| && EmptyAnnouncedAt(events, i, gateway)
  }

  ghost predicate EmptyAnnouncedAt(events: seq<Event>, i: nat, gateway: Key)
    requires i < |events|
  {
    && events[i] == AddGateway(gateway, map[])
    && forall j :: i < j < |events| ==> !Replaces(events[j], gateway)
  }

  lemma {:induction false} EmptyAnnouncedSnoc(events: seq<Event>, gateway: Key)
    requires events != []
    ensures var e := events[|events| - 1];
            EmptyAnnounced(events, gateway) <==>
            e == AddGateway(gateway, map[])
            || (EmptyAnnounced(events[..|events| - 1], gateway) && !Replaces(e, gateway))
  {
    var n := |events| - 1;
    var init := events[..n];
    forall i | 0 <= i < n
      ensures EmptyAnnouncedAt(events, i, gateway) <==>
              EmptyAnnouncedAt(init, i, gateway) && !Replaces(events[n], gateway)
    {
      assert forall j :: 0 <= j < n ==> init[j] == events[j];
    }
    if events[n] == AddGateway(gateway, map[]) {
      assert EmptyAnnouncedAt(events, n, gateway);
    }
  }

  lemma {:induction false} MappingOrEmpty(events: seq<Event>, gateway: Key)
    ensures EmptyAnnounced(events, gateway) ==> LastAnnounced(events, gateway) == map[]
    ensures !EmptyAnnounced(events, gateway) ==>
              RoutesOf(Run(events).mapping, gateway) == LastAnnounced(events, gateway)
  {
    if events != [] {
      MappingOrEmpty(events[..|events| - 1], gateway);
      EmptyAnnouncedSnoc(events, gateway);
    }
  }

  /** The gateway announced the route at `i`; since then it neither announced other routes nor went away,
      and the route was not deleted. */
  ghost predicate KeptSince(events: seq<Event>, i: nat, gateway: Key, route: Key) {
    && i < |events| && events[i].AddGateway? && events[i].gateway == gateway && route in events[i].routes
    && forall j :: i < j < |events| ==> !Replaces(events[j], gateway) && events[j] != DeleteRoute(route)
  }

  ghost predicate Kept(events: seq<Event>, gateway: Key, route: Key) {
    exists i: nat :: KeptSince(events, i, gateway, route)
  }

  lemma {:induction false} KeptSinceSnoc(events: seq<Event>, i: nat, gateway: Key, route: Key)
    requires events != []
    ensures var n := |events| - 1;
            KeptSince(events, i, gateway, route) <==>
            if i == n then events[n].AddGateway? && events[n].gateway == gateway && route in events[n].routes
            else KeptSince(events[..n], i, gateway, route) && !Replaces(events[n], gateway)
                 && events[n] != DeleteRoute(route)
  {
    var init := events[..|events| - 1];
    assert forall j :: 0 <= j < |init| ==> init[j] == events[j];
  }

  lemma {:induction false} KeptSnoc(events: seq<Event>, gateway: Key, route: Key)
    requires events != []
    ensures var e := events[|events| - 1];
            Kept(events, gateway, route) <==>
            || (e.AddGateway? && e.gateway == gateway && route in e.routes)
            || (Kept(events[..|events| - 1], gateway, route) && !Replaces(e, gateway) && e != DeleteRoute(route))
  {
    var n := |events| - 1;
    if i: nat :| KeptSince(events, i, gateway, route) {
      KeptSinceSnoc(events, i, gateway, route);
    }
    if i: nat :| KeptSince(events[..n], i, gateway, route) {
      KeptSinceSnoc(events, i, gateway, route);
    }
    KeptSinceSnoc(events, n, gateway, route);
  }

  /** After every run a gateway has a route exactly if the history keeps it; and it has it with the
      references that were announced with it. */
  lemma {:induction false} RouteKeptIff(events: seq<Event>, gateway: Key, route: Key)
    ensures var routes := RoutesOf(Run(events).mapping, gateway);
            && (route in routes <==> Kept(events, gateway, route))
            && (forall i: nat :: KeptSince(events, i, gateway, route) ==>
                  route in routes && routes[route] == events[i].routes[route])
  {
    if events != [] {
      var n := |events| - 1;
      var init := events[..n];
      RouteKeptIff(init, gateway, route);
      forall i: nat
        ensures KeptSince(events, i, gateway, route) <==>
                if i == n then events[n].AddGateway? && events[n].gateway == gateway && route in events[n].routes
                else KeptSince(init, i, gateway, route) && !Replaces(events[n], gateway)
                     && events[n] != DeleteRoute(route)
      {
        KeptSinceSnoc(events, i, gateway, route);
      }
      KeptSnoc(events, gateway, route);
    }
  }

  /** After every run a gateway's routes are those it announced last, unless it announced an empty list,
      which is ignored, and the history keeps some route of it. Those references stay counted and polled
      until the gateway announces other routes or goes away. */
  lemma {:induction false} MappingIsAnnouncedIff(events: seq<Event>, gateway: Key)
    ensures RoutesOf(Run(events).mapping, gateway) == LastAnnounced(events, gateway) <==>
            !(EmptyAnnounced(events, gateway) && exists route :: Kept(events, gateway, route))
  {
    MappingOrEmpty(events, gateway);
    forall route ensures route in RoutesOf(Run(events).mapping, gateway) <==> Kept(events, gateway, route) {
      RouteKeptIff(events, gateway, route);
    }
    if EmptyAnnounced(events, gateway) && RoutesOf(Run(events).mapping, gateway) != map[] {
      var route :| route in RoutesOf(Run(events).mapping, gateway).Keys;
      assert Kept(events, gateway, route);
    }
  }

  /** A gateway that takes back its only route by announcing none keeps it, and its reference is counted. */
  lemma {:induction false} WithdrawnRouteKept(gateway: Key, route: Key, ref: Key)
    ensures var events := [AddGateway(gateway, map[route := {ref}]), AddGateway(gateway, map[])];
            && LastAnnounced(events, gateway) == map[]
            && RoutesOf(Run(events).mapping, gateway) == map[route := {ref}] && Count(Run(events), ref) >= 1
  {
    var first, events := AddGateway(gateway, map[route := {ref}]),
                         [AddGateway(gateway, map[route := {ref}]), AddGateway(gateway, map[])];
    assert events[..1] == [first] && [first][..0] == [];
    assert route in first.routes && first.routes != map[];
    assert Run([first]) == Step(Run([]), first) && Run(events) == Run([first]);
    RunCovered(events);
    var m := Run(events).mapping;
    assert gateway in m && m[gateway] == first.routes;
    SiteAt(m, ref, (gateway, route));
    assert (gateway, route) in Sites(m, ref);
    assert Count(Run(events), ref) >= |Sites(Run(events).mapping, ref)|;
  }

  // ---------------------------------------------------------------------------------------------
  // The loops
  // ---------------------------------------------------------------------------------------------

  /** Uses among the routes already visited. */
  function UsesIn(rm: RouteMap, done: set<Key>, ref: Key): nat {
    |set r | r in rm && r in done && ref in rm[r]|
  }

  lemma {:induction false} UsesInMore(rm: RouteMap, done: set<Key>, r: Key, ref: Key)
    requires r in rm && r !in done
    ensures UsesIn(rm, done + {r}, ref) == UsesIn(rm, done, ref) + (if ref in rm[r] then 1 else 0)
  {
    var was := set q | q in rm && q in done && ref in rm[q];
    var now := set q | q in rm && q in done + {r} && ref in rm[q];
    if ref in rm[r] {
      assert now == was + {r};
    } else {
      assert now == was;
    }
  }

  lemma {:induction false} UsesInAll(rm: RouteMap, ref: Key)
    ensures UsesIn(rm, rm.Keys, ref) == Uses(rm, ref)
    ensures UsesIn(rm, {}, ref) == 0
    ensures forall done :: UsesIn(rm, done, ref) <= Uses(rm, ref)
  {
    assert (set r | r in rm && r in rm.Keys && ref in rm[r]) == RoutesUsing(rm, ref);
    forall done ensures UsesIn(rm, done, ref) <= Uses(rm, ref) {
      var some := set r | r in rm && r in done && ref in rm[r];
      assert RoutesUsing(rm, ref) == some + (RoutesUsing(rm, ref) - some);
    }
  }

  lemma {:induction false} IncrementedByUses(was: map<Key, int>, now: map<Key, int>, rm: RouteMap)
    requires forall k :: k in now <==> k in was || UsesIn(rm, rm.Keys, k) > 0
    requires forall k :: CountAt(now, k) == CountAt(was, k) + UsesIn(rm, rm.Keys, k)
    ensures now == Incremented(was, rm)
  {
    forall k
      ensures UsesIn(rm, rm.Keys, k) == Uses(rm, k)
      ensures k in References(rm) <==> Uses(rm, k) > 0
    {
      UsesInAll(rm, k);
      UnusedIffNoUses(rm, k);
    }
    forall k | k in now ensures now[k] == CountAt(was, k) + Uses(rm, k) {
      assert CountAt(now, k) == now[k];
    }
  }

  class Resolver {
    var mapping: Mapping
    var counts: map<Key, nat>
    var resolved: map<Key, Value>

    ghost function Abs(): State
      reads this
    {
      State(mapping, counts, resolved)
    }

    ghost predicate Valid()
      reads this
    {
      Covered(Abs())
    }

    constructor ()
      ensures Valid() && Abs() == Run([])
    {
      mapping, counts, resolved := map[], map[], map[];
      new;
      RunCovered([]);
    }

    /** Every listed reference of the set loses one; the precondition rules out underflow. */
    method DecrementEach(refs: set<Key>)
      requires forall k :: k in refs && k in counts ==> counts[k] >= 1
      modifies this`counts
      ensures counts == DecrementedOnce(old(counts), refs)
    {
      var todo := refs;
      while todo != {}
        invariant todo <= refs
        invariant counts == DecrementedOnce(old(counts), refs - todo)
      {
        var k :| k in todo;
        if k in counts {
          counts := counts[k := counts[k] - 1];
        }
        todo := todo - {k};
      }
      assert refs - todo == refs;
    }

    method DecrementAll(rm: RouteMap)
      requires forall k :: k in counts ==> counts[k] >= Uses(rm, k)
      modifies this`counts
      ensures counts == Decremented(old(counts), rm)
    {
      forall k ensures UsesIn(rm, rm.Keys, k) == Uses(rm, k) && UsesIn(rm, {}, k) == 0 {
        UsesInAll(rm, k);
      }
      var todo := rm.Keys;
      ghost var done: set<Key> := {};
      while todo != {}
        invariant todo <= rm.Keys && done == rm.Keys - todo
        invariant counts.Keys == old(counts).Keys
        invariant forall k :: k in counts ==> counts[k] == old(counts)[k] - UsesIn(rm, done, k)
      {
        var r :| r in todo;
        forall k
          ensures UsesIn(rm, done + {r}, k) == UsesIn(rm, done, k) + (if k in rm[r] then 1 else 0)
          ensures UsesIn(rm, done + {r}, k) <= Uses(rm, k)
        {
          UsesInMore(rm, done, r, k);
          UsesInAll(rm, k);
        }
        DecrementEach(rm[r]);
        todo, done := todo - {r}, done + {r};
      }
      assert done == rm.Keys;
    }

    method IncrementEach(refs: set<Key>)
      modifies this`counts
      ensures counts.Keys == old(counts).Keys + refs
      ensures forall k :: CountAt(counts, k) == CountAt(old(counts), k) + (if k in refs then 1 else 0)
    {
      var todo := refs;
      while todo != {}
        invariant todo <= refs
        invariant counts.Keys == old(counts).Keys + (refs - todo)
        invariant forall k :: CountAt(counts, k) == CountAt(old(counts), k) + (if k in refs - todo then 1 else 0)
      {
        var k :| k in todo;
        counts := counts[k := if k in counts then counts[k] + 1 else 1];
        todo := todo - {k};
      }
    }

    method IncrementAll(rm: RouteMap)
      modifies this`counts
      ensures counts == Incremented(old(counts), rm)
    {
      var todo := rm.Keys;
      ghost var done: set<Key> := {};
      forall k ensures UsesIn(rm, {}, k) == 0 {
        UsesInAll(rm, k);
      }
      while todo != {}
        invariant todo <= rm.Keys && done == rm.Keys - todo
        invariant forall k :: k in counts <==> k in old(counts) || UsesIn(rm, done, k) > 0
        invariant forall k :: CountAt(counts, k) == CountAt(old(counts), k) + UsesIn(rm, done, k)
      {
        var r :| r in todo;
        forall k ensures UsesIn(rm, done + {r}, k) == UsesIn(rm, done, k) + (if k in rm[r] then 1 else 0) {
          UsesInMore(rm, done, r, k);
        }
        IncrementEach(rm[r]);
        todo, done := todo - {r}, done + {r};
      }
      assert done == rm.Keys;
      IncrementedByUses(old(counts), counts, rm);
    }

    /** Removes every reference whose count is below one. */
    method PurgeExhausted()
      modifies this
      ensures Abs() == Purged(old(mapping), old(counts), old(resolved))
    {
      var todo := set k | k in counts && counts[k] < 1;
      ghost var all := todo;
      while todo != {}
        invariant todo <= all
        invariant mapping == old(mapping)
        invariant counts == old(counts) - (all - todo) && resolved == old(resolved) - (all - todo)
      {
        var k :| k in todo;
        counts, resolved, todo := counts - {k}, resolved - {k}, todo - {k};
      }
      assert all == Exhausted(old(counts));
      assert all - todo == all;
    }

    method AddReferencesForGateway(gateway: Key, routes: RouteMap)
      requires Valid()
      modifies this
      ensures Valid() && Abs() == Step(old(Abs()), AddGateway(gateway, routes))
    {
      if routes == map[] {
        return;
      }
      StepCovered(Abs(), AddGateway(gateway, routes));
      var replaced: RouteMap := map[];
      if gateway in mapping {
        replaced := mapping[gateway];
      }
      CountsCover(gateway);
      mapping := mapping[gateway := routes];
      DecrementAll(replaced);
      IncrementAll(routes);
      PurgeExhausted();
    }

    method DeleteReferencesForGateway(gateway: Key)
      requires Valid()
      modifies this
      ensures Valid() && Abs() == Step(old(Abs()), DeleteGateway(gateway))
    {
      StepCovered(Abs(), DeleteGateway(gateway));
      if gateway in mapping {
        CountsCover(gateway);
        var removed := mapping[gateway];
        mapping := mapping - {gateway};
        DecrementAll(removed);
        PurgeExhausted();
      }
    }

    /** Returns the gateways that lost the route. */
    method DeleteRouteReferences(route: Key) returns (affected: set<Key>)
      requires Valid()
      modifies this
      ensures Valid() && Abs() == Step(old(Abs()), DeleteRoute(route))
      ensures affected == set g | g in old(mapping) && route in old(mapping)[g]
    {
      StepCovered(Abs(), DeleteRoute(route));
      affected := {};
      var released: set<Key> := {};
      var todo := mapping.Keys;
      ghost var done: set<Key> := {};
      while todo != {}
        invariant todo <= mapping.Keys == old(mapping).Keys && done == old(mapping).Keys - todo
        invariant counts == old(counts) && resolved == old(resolved)
        invariant forall g :: g in mapping ==>
                    mapping[g] == if g in done then old(mapping)[g] - {route} else old(mapping)[g]
        invariant affected == set g | g in done && route in old(mapping)[g]
        invariant released == set g, k | g in done && route in old(mapping)[g] && k in old(mapping)[g][route] :: k
      {
        var g :| g in todo;
        if route in mapping[g] {
          affected := affected + {g};
          released := released + mapping[g][route];
          mapping := mapping[g := mapping[g] - {route}];
        } else {
          assert mapping[g] - {route} == mapping[g];
        }
        todo, done := todo - {g}, done + {g};
      }
      assert done == old(mapping).Keys;
      assert released == Released(old(mapping), route);
      assert mapping == WithoutRoute(old(mapping), route);
      DecrementEach(released);
      PurgeExhausted();
    }

    method ApplyPoll(reference: Key, result: Option<Value>) returns (update: bool)
      requires Valid()
      modifies this`resolved
      ensures Valid() && Abs() == Step(old(Abs()), Poll(reference, result))
      ensures update <==> (if result.Some?
                           then reference !in old(resolved) || old(resolved)[reference].body != result.value.body
                           else reference in old(resolved))
    {
      match result {
        case Some(v) =>
          update := true;
          if reference in resolved && resolved[reference].body == v.body {
            update := false;
          } else {
            resolved := resolved[reference := v];
          }
        case None =>
          update := reference in resolved;
          resolved := resolved - {reference};
      }
    }

    /** A gateway's own uses never exceed the counts. */
    lemma CountsCover(gateway: Key)
      requires Valid()
      ensures forall k :: k in counts ==> counts[k] >= Uses(RoutesOf(mapping, gateway), k)
    {
      forall k | k in counts ensures counts[k] >= Uses(RoutesOf(mapping, gateway), k) {
        SitesSplit(mapping, gateway, k);
        assert Count(Abs(), k) >= |Sites(mapping, k)|;
      }
    }
  }
}
