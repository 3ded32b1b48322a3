/**
 The index from gateways to the routes attached to them with inference pools. The pools of a route are
 kept in a hash set whose elements are equal when their routes are: inserting a second element for a
 route leaves the first in place.
 */
module PoolIndex {
  import opened Prelude

  datatype Entry = Entry(route: ResourceKey, pools: seq<ResourceKey>)

  type Index = map<ResourceKey, set<Entry>>

  predicate HasRoute(entries: set<Entry>, route: ResourceKey) {
    exists x :: x in entries && x.route == route
  }

  /** The hash set's insert. */
  function Insert(entries: set<Entry>, e: Entry): set<Entry> {
    if HasRoute(entries, e.route) then entries else entries + {e}
  }

  function Remove(entries: set<Entry>, route: ResourceKey): set<Entry> {
    set x | x in entries && x.route != route
  }

  function EntriesOf(index: Index, gateway: ResourceKey): set<Entry> {
    if gateway in index then index[gateway] else {}
  }

  /** The invariant of the hash set. */
  ghost predicate OnePerRoute(entries: set<Entry>) {
    forall x, y :: x in entries && y in entries && x.route == y.route ==> x == y
  }

  ghost predicate Valid(index: Index) {
    forall g :: g in index ==> OnePerRoute(index[g])
  }

  datatype Event =
    | Attach(gateway: ResourceKey, route: ResourceKey, pools: seq<ResourceKey>)
    | Detach(gateway: ResourceKey, route: ResourceKey)

  function Step(index: Index, e: Event): Index {
    match e
    case Attach(g, r, pools) => index[g := Insert(EntriesOf(index, g), Entry(r, pools))]
    case Detach(g, r) => if g in index then index[g := Remove(index[g], r)] else index
  }

  function Run(es: seq<Event>): Index {
    if es == [] then map[] else Step(Run(es[..|es| - 1]), es[|es| - 1])
  }

  lemma {:induction false} RunValid(es: seq<Event>)
    ensures Valid(Run(es))
  {
    if es != [] {
      RunValid(es[..|es| - 1]);
    }
  }

  // ---------------------------------------------------------------------------------------------
  // What the history says
  // ---------------------------------------------------------------------------------------------

  ghost predicate AttachedAt(es: seq<Event>, i: nat, g: ResourceKey, r: ResourceKey) {
    i < |es| && es[i].Attach? && es[i].gateway == g && es[i].route == r
  }

  ghost predicate DetachedAt(es: seq<Event>, k: nat, g: ResourceKey, r: ResourceKey) {
    k < |es| && es[k] == Detach(g, r)
  }

  ghost predicate DetachedIn(es: seq<Event>, lo: nat, hi: nat, g: ResourceKey, r: ResourceKey) {
    exists k: nat :: lo < k < hi && DetachedAt(es, k, g, r)
  }

  /** Call `i` attached the route, nothing detached it since, and every earlier attach had been
      detached again by then. */
  ghost predicate FirstSinceDetach(es: seq<Event>, i: nat, g: ResourceKey, r: ResourceKey) {
    && AttachedAt(es, i, g, r)
    && !DetachedIn(es, i, |es|, g, r)
    && forall j: nat :: j < i && AttachedAt(es, j, g, r) ==> DetachedIn(es, j, i, g, r)
  }

  ghost predicate Open(es: seq<Event>, g: ResourceKey, r: ResourceKey) {
    exists i: nat :: FirstSinceDetach(es, i, g, r)
  }

  ghost predicate Recorded(es: seq<Event>, g: ResourceKey, r: ResourceKey, pools: seq<ResourceKey>) {
    exists i: nat :: FirstSinceDetach(es, i, g, r) && es[i].pools == pools
  }

  /** An attach that nothing detached leaves a first one. */
  lemma {:induction false} OpenAttachRecorded(es: seq<Event>, j: nat, g: ResourceKey, r: ResourceKey)
    requires AttachedAt(es, j, g, r) && !DetachedIn(es, j, |es|, g, r)
    ensures Open(es, g, r)
    decreases j
  {
    if !FirstSinceDetach(es, j, g, r) {
      var j': nat :| j' < j && AttachedAt(es, j', g, r) && !DetachedIn(es, j', j, g, r);
      assert !DetachedIn(es, j', |es|, g, r);
      OpenAttachRecorded(es, j', g, r);
    }
  }

  lemma {:induction false} FirstSinceDetachExtends(es: seq<Event>, e: Event, i: nat, g: ResourceKey, r: ResourceKey)
    requires i < |es|
    ensures FirstSinceDetach(es + [e], i, g, r) <==> FirstSinceDetach(es, i, g, r) && e != Detach(g, r)
  {
    var more := es + [e];
    assert forall j: nat :: j < |es| ==> (AttachedAt(more, j, g, r) <==> AttachedAt(es, j, g, r));
    assert forall k: nat :: k < |es| ==> (DetachedAt(more, k, g, r) <==> DetachedAt(es, k, g, r));
    assert forall j: nat :: j < i ==> (DetachedIn(more, j, i, g, r) <==> DetachedIn(es, j, i, g, r));
    if e == Detach(g, r) {
      assert DetachedAt(more, |es|, g, r) && DetachedIn(more, i, |more|, g, r);
    } else {
      assert DetachedIn(more, i, |more|, g, r) <==> DetachedIn(es, i, |es|, g, r);
    }
  }

  /** After every run the index holds, for a gateway and a route, exactly the pools of the first attach
      since the last detach. */
  lemma {:induction false} RunRecorded(es: seq<Event>, g: ResourceKey, r: ResourceKey, pools: seq<ResourceKey>)
    ensures Entry(r, pools) in EntriesOf(Run(es), g) <==> Recorded(es, g, r, pools)
  {
    if es != [] {
      var n := |es| - 1;
      var init, e := es[..n], es[n];
      assert es == init + [e];
      RunRecorded(init, g, r, pools);
      forall i: nat | i < n
        ensures FirstSinceDetach(es, i, g, r) <==> FirstSinceDetach(init, i, g, r) && e != Detach(g, r)
      {
        FirstSinceDetachExtends(init, e, i, g, r);
      }
      if AttachedAt(es, n, g, r) {
        NewAttach(es, g, r);
        if HasRoute(EntriesOf(Run(init), g), r) {
          var x :| x in EntriesOf(Run(init), g) && x.route == r;
          RunRecorded(init, g, r, x.pools);
        } else {
          forall i: nat | FirstSinceDetach(init, i, g, r) ensures false {
            RunRecorded(init, g, r, init[i].pools);
          }
        }
      } else {
        assert forall i: nat :: FirstSinceDetach(es, i, g, r) ==> i < n;
      }
    }
  }

  /** The index has the route at the gateway exactly if some attach has not been detached since; it has
      it nowhere once it has been detached everywhere. */
  lemma {:induction false} RunHasRouteIff(es: seq<Event>, g: ResourceKey, r: ResourceKey)
    ensures HasRoute(EntriesOf(Run(es), g), r) <==>
            exists j: nat :: AttachedAt(es, j, g, r) && !DetachedIn(es, j, |es|, g, r)
  {
    if x :| x in EntriesOf(Run(es), g) && x.route == r {
      RunRecorded(es, g, r, x.pools);
    }
    if j: nat :| AttachedAt(es, j, g, r) && !DetachedIn(es, j, |es|, g, r) {
      OpenAttachRecorded(es, j, g, r);
      var i: nat :| FirstSinceDetach(es, i, g, r);
      RunRecorded(es, g, r, es[i].pools);
      assert Entry(r, es[i].pools) in EntriesOf(Run(es), g);
    }
  }

  /** Attaching again with other pools has no effect: a route whose pools change keeps the old ones
      until it is detached. */
  lemma {:induction false} ReattachKeepsPools(es: seq<Event>, g: ResourceKey, r: ResourceKey, pools: seq<ResourceKey>,
                                              changed: seq<ResourceKey>)
    requires Recorded(es, g, r, pools)
    ensures Run(es + [Attach(g, r, changed)]) == Run(es)
    ensures Recorded(es + [Attach(g, r, changed)], g, r, pools)
  {
    RunRecorded(es, g, r, pools);
    var more := es + [Attach(g, r, changed)];
    assert more[..|more| - 1] == es;
    assert Entry(r, pools) in Run(es)[g] && Run(es)[g := Run(es)[g]] == Run(es);
    RunRecorded(more, g, r, pools);
  }

  /** A last call that attaches is the first since the last detach exactly if the run before it left
      none. */
  lemma {:induction false} NewAttach(es: seq<Event>, g: ResourceKey, r: ResourceKey)
    requires es != [] && AttachedAt(es, |es| - 1, g, r)
    ensures FirstSinceDetach(es, |es| - 1, g, r) <==> !Open(es[..|es| - 1], g, r)
  {
    var n := |es| - 1;
    var init := es[..n];
    assert forall j: nat :: j < n ==> (AttachedAt(es, j, g, r) <==> AttachedAt(init, j, g, r));
    assert forall k: nat :: k < n ==> (DetachedAt(es, k, g, r) <==> DetachedAt(init, k, g, r));
    assert forall j: nat :: j < n ==> (DetachedIn(es, j, n, g, r) <==> DetachedIn(init, j, n, g, r));
    if !FirstSinceDetach(es, n, g, r) {
      var j: nat :| j < n && AttachedAt(es, j, g, r) && !DetachedIn(es, j, n, g, r);
      OpenAttachRecorded(init, j, g, r);
    }
  }

  // ---------------------------------------------------------------------------------------------
  // Queries
  // ---------------------------------------------------------------------------------------------

  /** The pools of any element's list. */
  predicate Lists(entries: set<Entry>, pool: ResourceKey) {
    exists x :: x in entries && pool in x.pools
  }

  function ByPool(index: Index, pool: ResourceKey): set<ResourceKey> {
    set g | g in index && Lists(index[g], pool)
  }

  predicate ListsForRoute(entries: set<Entry>, route: ResourceKey, pool: ResourceKey) {
    exists x :: x in entries && x.route == route && pool in x.pools
  }

  /** The pools recorded for the route at some gateway. */
  ghost predicate PoolOfRoute(index: Index, route: ResourceKey, pool: ResourceKey) {
    exists g :: g in index && ListsForRoute(index[g], route, pool)
  }

  /** Call by call: a pool's gateways after a run are those at which the history records it for some route. */
  lemma {:induction false} RunByPool(es: seq<Event>, g: ResourceKey, pool: ResourceKey)
    ensures g in ByPool(Run(es), pool) <==> exists r, pools :: Recorded(es, g, r, pools) && pool in pools
  {
    if g in ByPool(Run(es), pool) {
      var x :| x in Run(es)[g] && pool in x.pools;
      RunRecorded(es, g, x.route, x.pools);
    }
    if r, pools :| Recorded(es, g, r, pools) && pool in pools {
      RunRecorded(es, g, r, pools);
    }
  }

  /** A route that changes from one pool to another is found by the old one, and not by the new one. */
  lemma {:induction false} ChangedPoolNotFound(g: ResourceKey, r: ResourceKey, before: ResourceKey, now: ResourceKey)
    requires before != now
    ensures var index := Run([Attach(g, r, [before]), Attach(g, r, [now])]);
            g in ByPool(index, before) && g !in ByPool(index, now)
  {
    var first := [Attach(g, r, [before])];
    assert first[..0] == [] && Run(first) == Step(Run([]), first[0]);
    assert Run(first)[g] == {Entry(r, [before])};
    RunRecorded(first, g, r, [before]);
    ReattachKeepsPools(first, g, r, [before], [now]);
    assert first + [Attach(g, r, [now])] == [Attach(g, r, [before]), Attach(g, r, [now])];
  }

  method ListsPool(entries: set<Entry>, pool: ResourceKey) returns (found: bool)
    ensures found <==> Lists(entries, pool)
  {
    found := false;
    var rest := entries;
    while rest != {}
      invariant rest <= entries && (found <==> Lists(entries - rest, pool))
      decreases |rest|
    {
      var x :| x in rest;
      rest := rest - {x};
      assert entries - rest == (entries - (rest + {x})) + {x};
      if pool in x.pools {
        found := true;
      }
    }
    assert entries - rest == entries;
  }

  class State {
    var index: Index

    constructor ()
      ensures index == Run([])
    {
      index := map[];
    }

    method AttachInferencePool(gateway: ResourceKey, route: ResourceKey, pools: seq<ResourceKey>)
      modifies this
      ensures index == Step(old(index), Attach(gateway, route, pools))
    {
      if gateway in index {
        index := index[gateway := Insert(index[gateway], Entry(route, pools))];
      } else {
        assert Insert({}, Entry(route, pools)) == {Entry(route, pools)};
        index := index[gateway := {Entry(route, pools)}];
      }
    }

    method DetachInferencePool(gateway: ResourceKey, route: ResourceKey) returns (pools: seq<ResourceKey>)
      requires Valid(index)
      modifies this
      ensures index == Step(old(index), Detach(gateway, route))
      ensures HasRoute(EntriesOf(old(index), gateway), route) ==> Entry(route, pools) in old(index)[gateway]
      ensures !HasRoute(EntriesOf(old(index), gateway), route) ==> pools == []
      ensures Valid(index)
    {
      pools := [];
      if gateway in index {
        if HasRoute(index[gateway], route) {
          var x :| x in index[gateway] && x.route == route;
          assert Remove(index[gateway], route) == index[gateway] - {x};
          index := index[gateway := index[gateway] - {x}];
          pools := x.pools;
        } else {
          assert Remove(index[gateway], route) == index[gateway];
          assert index[gateway := index[gateway]] == index;
        }
      }
    }

    method FindGatewaysByInferencePool(pool: ResourceKey) returns (gateways: set<ResourceKey>)
      ensures gateways == ByPool(index, pool)
    {
      gateways := {};
      var keys := index.Keys;
      while keys != {}
        invariant keys <= index.Keys && gateways == ByPool(index, pool) - keys
        decreases |keys|
      {
        var g :| g in keys;
        keys := keys - {g};
        var found := ListsPool(index[g], pool);
        if found {
          gateways := gateways + {g};
        }
      }
    }

    /** The pools recorded for the route, over all gateways. */
    method PoolsOfRoute(route: ResourceKey) returns (pools: set<ResourceKey>)
      requires Valid(index)
      ensures forall p :: p in pools <==> PoolOfRoute(index, route, p)
    {
      pools := {};
      var keys := index.Keys;
      while keys != {}
        invariant keys <= index.Keys
        invariant forall p :: p in pools <==>
                    exists g :: g in index.Keys - keys && ListsForRoute(index[g], route, p)
        decreases |keys|
      {
        var g :| g in keys;
        keys := keys - {g};
        if HasRoute(index[g], route) {
          var x :| x in index[g] && x.route == route;
          pools := pools + set p | p in x.pools;
        }
      }
    }

    /** The union of the by-pool query over the pools recorded for the route. */
    method FindGatewaysByRouteAndInferencePool(route: ResourceKey) returns (gateways: set<ResourceKey>)
      requires Valid(index)
      ensures forall g :: g in gateways <==> exists p :: PoolOfRoute(index, route, p) && g in ByPool(index, p)
      ensures (forall g :: g in index ==> !HasRoute(index[g], route)) ==> gateways == {}
    {
      var pools := PoolsOfRoute(route);
      gateways := {};
      var keys := index.Keys;
      while keys != {}
        invariant keys <= index.Keys && gateways <= index.Keys
        invariant forall g :: g in gateways <==> g in index.Keys - keys && exists p :: p in pools && Lists(index[g], p)
        decreases |keys|
      {
        var g :| g in keys;
        keys := keys - {g};
        var shares := SharesPool(index[g], pools);
        if shares {
          gateways := gateways + {g};
        }
      }
    }
  }

  method SharesPool(entries: set<Entry>, pools: set<ResourceKey>) returns (shares: bool)
    ensures shares <==> exists p :: p in pools && Lists(entries, p)
  {
    shares := false;
    var rest := entries;
    while rest != {}
      invariant rest <= entries && (shares <==> exists p :: p in pools && Lists(entries - rest, p))
      decreases |rest|
    {
      var x :| x in rest;
      rest := rest - {x};
      assert entries - rest == (entries - (rest + {x})) + {x};
      var ps := pools;
      var hit := false;
      while ps != {}
        invariant ps <= pools && (hit <==> exists p :: p in pools - ps && p in x.pools)
        decreases |ps|
      {
        var p :| p in ps;
        ps := ps - {p};
        if p in x.pools {
          hit := true;
        }
      }
      shares := shares || hit;
    }
    assert entries - rest == entries;
  }
}
