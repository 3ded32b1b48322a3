/**
 The state machine of a delta xDS server: clients connect, ask for a resource type, receive the
 changes of their gateway, and disconnect, while the controller publishes new lists. Each handled
 message is one step. Every connection has a first-in first-out queue of responses and, at its far
 end, a proxy that holds what it has applied so far.
 */
module DeltaServer {
  import opened Prelude
  import opened DeltaXds
  import opened ClientList

  type Lists = PerSlot<seq<Resource>>

  const NO_LISTS: Lists := PerSlot([], [])

  /** A client's record together with its connection: `queue` holds the responses in flight, `view`
      what the proxy has applied, and `started` the types whose initial response was sent. */
  datatype Link = Link(gateway: Option<string>, cache: Lists,
                       queue: seq<Response>, view: PerSlot<View>, started: set<Slot>)

  const FRESH: Link := Link(None, NO_LISTS, [], PerSlot(map[], map[]), {})

  datatype State = State(clients: seq<Client<Link>>, managed: map<string, Lists>)

  /** A discovery request. `gateway` is the result of looking the node up, `None` when the node is
      missing or unknown; `slot` is `None` for an unknown type URL. */
  datatype Request = Request(hasError: bool, hasNonce: bool, gateway: Option<string>, slot: Option<Slot>)

  datatype Event =
    | Connect(id: nat)
    | Ask(id: nat, request: Request)
    | Publish(gateway: string, slot: Slot, resources: seq<Resource>)
    | Deliver(id: nat)
    | Disconnect(id: nat)

  // ---------------------------------------------------------------------------------------------
  // Steps
  // ---------------------------------------------------------------------------------------------

  function ManagedAt(managed: map<string, Lists>, gateway: string): Lists {
    if gateway in managed then managed[gateway] else NO_LISTS
  }

  predicate Answered(r: Request) {
    !r.hasError && !r.hasNonce && r.gateway.Some?
  }

  /** The first answered request binds the client to its gateway and fills its cache. */
  function Bind(managed: map<string, Lists>, l: Link, gateway: string): Link {
    if l.gateway.Some? then l
    else l.(gateway := Some(gateway), cache := if gateway in managed then managed[gateway] else l.cache)
  }

  /** Every answered request is answered with the whole cached list of its type. */
  function Answer(l: Link, slot: Option<Slot>): Link {
    match slot
    case Some(t) => l.(queue := l.queue + [Response(slot, l.cache.At(t), [])], started := l.started + {t})
    case None => l.(queue := l.queue + [Response(None, [], [])])
  }

  function Push(b: Backend, l: Link, slot: Slot, resources: seq<Resource>): Link {
    l.(cache := l.cache.With(slot, resources),
       queue := l.queue + Delta(b, slot, l.cache.At(slot), resources))
  }

  function PushIfBound(b: Backend, l: Link, gateway: string, slot: Slot, resources: seq<Resource>): Link {
    if l.gateway == Some(gateway) then Push(b, l, slot, resources) else l
  }

  /** The proxy takes the oldest response off the queue and applies it. */
  function Receive(l: Link): Link {
    if l.queue == [] then l
    else l.(queue := l.queue[1..],
            view := PerSlot(Replay(l.view.primary, [l.queue[0]], Primary),
                            Replay(l.view.secondary, [l.queue[0]], Secondary)))
  }

  function Step(b: Backend, s: State, e: Event): State {
    match e
    case Connect(id) =>
      s.(clients := Put(s.clients, id, FRESH))
    case Ask(id, r) =>
      var i := IndexOf(s.clients, id);
      if Answered(r) && i < |s.clients| then
        var link := Answer(Bind(s.managed, s.clients[i].link, r.gateway.value), r.slot);
        s.(clients := s.clients[i := Client(id, link)])
      else s
    case Publish(gateway, slot, resources) =>
      var pushed := seq(|s.clients|, i requires 0 <= i < |s.clients| =>
                      Client(s.clients[i].id, PushIfBound(b, s.clients[i].link, gateway, slot, resources)));
      State(pushed, s.managed[gateway := ManagedAt(s.managed, gateway).With(slot, resources)])
    case Deliver(id) =>
      var i := IndexOf(s.clients, id);
      if i < |s.clients| then s.(clients := s.clients[i := Client(id, Receive(s.clients[i].link))]) else s
    case Disconnect(id) =>
      s.(clients := Without(s.clients, id))
  }

  /** The state after a whole run from an empty server. */
  function Run(b: Backend, events: seq<Event>): State {
    if events == [] then State([], map[])
    else Step(b, Run(b, events[..|events| - 1]), events[|events| - 1])
  }

  // ---------------------------------------------------------------------------------------------
  // Invariants
  // ---------------------------------------------------------------------------------------------

  /** The view the proxy will have once everything in flight has been applied. */
  function Drained(l: Link, slot: Slot): View {
    Replay(l.view.At(slot), l.queue, slot)
  }

  /** An unbound client has been sent nothing; a bound one caches exactly its gateway's lists. */
  ghost predicate Cached(managed: map<string, Lists>, l: Link) {
    match l.gateway
    case None => l == FRESH
    case Some(g) => l.cache == ManagedAt(managed, g)
  }

  /** The drained view is part of the cached list, and all of it once the type was asked for. */
  ghost predicate InStep(l: Link, slot: Slot) {
    && Submap(Drained(l, slot), ViewOf(l.cache.At(slot)))
    && (slot in l.started ==> Drained(l, slot) == ViewOf(l.cache.At(slot)))
  }

  /** The same for names alone. */
  ghost predicate NamesInStep(l: Link, slot: Slot) {
    && Drained(l, slot).Keys <= NamesOf(l.cache.At(slot))
    && (slot in l.started ==> Drained(l, slot).Keys == NamesOf(l.cache.At(slot)))
  }

  ghost predicate AllCached(s: State) {
    && DistinctIds(s.clients)
    && forall c :: c in s.clients ==> Cached(s.managed, c.link)
  }

  ghost predicate AllInStep(s: State, slot: Slot) {
    forall c :: c in s.clients ==> InStep(c.link, slot)
  }

  ghost predicate AllNamesInStep(s: State, slot: Slot) {
    forall c :: c in s.clients ==> NamesInStep(c.link, slot)
  }

  /** Every list published for the type is coherent. */
  ghost predicate CoherentRun(events: seq<Event>, slot: Slot) {
    forall e :: e in events && e.Publish? && e.slot == slot ==> Coherent(e.resources)
  }

  /** The list most recently published for a gateway and type, empty if there was none. */
  function LastPublished(events: seq<Event>, gateway: string, slot: Slot): seq<Resource> {
    if events == [] then []
    else
      var n := |events| - 1;
      var e := events[n];
      if e.Publish? && e.gateway == gateway && e.slot == slot then e.resources
      else LastPublished(events[..n], gateway, slot)
  }

  /** Event `k`, if it publishes the type, changes its gateway's list stably. */
  ghost predicate StableAtEvent(b: Backend, events: seq<Event>, k: nat, slot: Slot)
    requires k < |events|
  {
    var e := events[k];
    e.Publish? && e.slot == slot ==> Stable(b, slot, LastPublished(events[..k], e.gateway, slot), e.resources)
  }

  ghost predicate StableRun(b: Backend, events: seq<Event>, slot: Slot) {
    forall k :: 0 <= k < |events| ==> StableAtEvent(b, events, k, slot)
  }

  // ---------------------------------------------------------------------------------------------
  // One connection
  // ---------------------------------------------------------------------------------------------

  lemma {:induction false} OtherSlotUntouched(view: View, queue: seq<Response>, slot: Slot)
    requires forall r :: r in queue ==> r.slot != Some(slot)
    ensures Replay(view, queue, slot) == view
  {
    if queue != [] {
      assert queue[|queue| - 1] in queue;
      OtherSlotUntouched(view, queue[..|queue| - 1], slot);
    }
  }

  lemma {:induction false} ReplayOne(view: View, r: Response, slot: Slot)
    ensures Replay(view, [r], slot) == if r.slot == Some(slot) then Apply(view, r) else view
  {
    assert [r][..0] == [];
  }

  /** Applying a list to a part of its own view completes the view. */
  lemma {:induction false} CompleteView(view: View, rs: seq<Resource>)
    ensures Submap(view, ViewOf(rs)) ==> AddAll(RemoveAll(view, []), rs) == ViewOf(rs)
    ensures view.Keys <= NamesOf(rs) ==> AddAll(RemoveAll(view, []), rs).Keys == NamesOf(rs)
  {
    assert RemoveAll(view, []) == view;
    forall n
      ensures n in AddAll(view, rs) <==> n in view || n in NamesOf(rs)
      ensures n in ViewOf(rs) <==> n in NamesOf(rs)
      ensures n in NamesOf(rs) ==> AddAll(view, rs)[n] == ViewOf(rs)[n]
    {
      AddAllAt(view, rs, n);
      ViewOfAt(rs, n);
    }
  }

  lemma {:induction false} FreshInStep(slot: Slot)
    ensures InStep(FRESH, slot) && NamesInStep(FRESH, slot)
  {
    assert Drained(FRESH, slot) == map[];
  }

  /** Binding fills the cache of a client that has been sent nothing. */
  lemma {:induction false} BindKeeps(managed: map<string, Lists>, l: Link, g: string, slot: Slot)
    requires Cached(managed, l)
    ensures InStep(l, slot) ==> InStep(Bind(managed, l, g), slot)
    ensures NamesInStep(l, slot) ==> NamesInStep(Bind(managed, l, g), slot)
  {
    if l.gateway.None? {
      assert Drained(Bind(managed, l, g), slot) == map[];
    }
  }

  lemma {:induction false} AnswerKeeps(l: Link, asked: Option<Slot>, slot: Slot)
    ensures InStep(l, slot) ==> InStep(Answer(l, asked), slot)
    ensures NamesInStep(l, slot) ==> NamesInStep(Answer(l, asked), slot)
  {
    var r := Answer(l, asked).queue[|l.queue|];
    ReplayConcat(l.view.At(slot), l.queue, [r], slot);
    ReplayOne(Drained(l, slot), r, slot);
    if asked == Some(slot) {
      CompleteView(Drained(l, slot), l.cache.At(slot));
    }
  }

  lemma {:induction false} PushKeeps(b: Backend, l: Link, slot: Slot, resources: seq<Resource>, t: Slot)
    ensures InStep(l, t) && (t == slot ==> Stable(b, t, l.cache.At(t), resources))
            ==> InStep(Push(b, l, slot, resources), t)
    ensures InStep(l, t) && t == slot && t in l.started && InStep(Push(b, l, slot, resources), t)
            ==> Stable(b, t, l.cache.At(t), resources)
    ensures NamesInStep(l, t) && ComparesNames(b, t) ==> NamesInStep(Push(b, l, slot, resources), t)
  {
    var old' := l.cache.At(slot);
    ReplayConcat(l.view.At(t), l.queue, Delta(b, slot, old', resources), t);
    if t != slot {
      OtherSlotUntouched(Drained(l, t), Delta(b, slot, old', resources), t);
    } else {
      if InStep(l, t) {
        DeltaExactIff(b, slot, old', resources);
        if Stable(b, slot, old', resources) {
          StablePart(b, slot, old', resources, Drained(l, t));
        }
      }
      if NamesInStep(l, t) && ComparesNames(b, t) {
        DeltaNames(b, slot, old', resources, Drained(l, t));
      }
    }
  }

  /** Delivering a response changes where it is applied, not what the proxy ends up with. */
  lemma {:induction false} ReceiveKeeps(l: Link, slot: Slot)
    ensures Drained(Receive(l), slot) == Drained(l, slot)
  {
    if l.queue != [] {
      assert l.queue == [l.queue[0]] + l.queue[1..];
      ReplayConcat(l.view.At(slot), [l.queue[0]], l.queue[1..], slot);
    }
  }

  // ---------------------------------------------------------------------------------------------
  // One step
  // ---------------------------------------------------------------------------------------------

  ghost predicate StableStep(b: Backend, s: State, e: Event, slot: Slot) {
    e.Publish? && e.slot == slot ==> Stable(b, slot, ManagedAt(s.managed, e.gateway).At(slot), e.resources)
  }

  /** How one step changes the record of a client that survives it. */
  ghost predicate Changed(b: Backend, s: State, e: Event, l: Link, l': Link) {
    match e
    case Connect(_) => l' == l
    case Ask(_, r) =>
      l' == l || (Answered(r) && l' == Answer(Bind(s.managed, l, r.gateway.value), r.slot))
    case Publish(gateway, slot, resources) => l' == PushIfBound(b, l, gateway, slot, resources)
    case Deliver(_) => l' == l || l' == Receive(l)
    case Disconnect(_) => l' == l
  }

  /** Every client after a step is new, or has the changed record of a client before it. */
  lemma {:induction false} StepClient(b: Backend, s: State, e: Event, c': Client<Link>)
    returns (isNew: bool, c: Client<Link>)
    requires c' in Step(b, s, e).clients
    ensures isNew ==> e.Connect? && c'.link == FRESH
    ensures !isNew ==> c in s.clients && Changed(b, s, e, c.link, c'.link)
  {
    var s' := Step(b, s, e);
    isNew, c := e.Connect? && c' == Client(e.id, FRESH), c';
    if !isNew && (e.Publish? || c' !in s.clients) {
      var i :| 0 <= i < |s'.clients| && s'.clients[i] == c';
      c := s.clients[i];
    }
  }

  /** Only a publication changes the managed lists, and with them the bound clients' caches. */
  lemma {:induction false} ChangedCached(b: Backend, s: State, e: Event, l: Link, l': Link)
    requires Cached(s.managed, l) && Changed(b, s, e, l, l')
    ensures Cached(Step(b, s, e).managed, l')
  {
  }

  lemma {:induction false} ChangedKeeps(b: Backend, s: State, e: Event, l: Link, l': Link, slot: Slot)
    requires Cached(s.managed, l) && Changed(b, s, e, l, l')
    ensures InStep(l, slot) && StableStep(b, s, e, slot) ==> InStep(l', slot)
    ensures NamesInStep(l, slot) && ComparesNames(b, slot) ==> NamesInStep(l', slot)
  {
    match e
    case Connect(_) =>
    case Disconnect(_) =>
    case Ask(_, r) =>
      if Answered(r) {
        BindKeeps(s.managed, l, r.gateway.value, slot);
        AnswerKeeps(Bind(s.managed, l, r.gateway.value), r.slot, slot);
      }
    case Publish(_, t, resources) =>
      PushKeeps(b, l, t, resources, slot);
    case Deliver(_) =>
      ReceiveKeeps(l, slot);
  }

  lemma {:induction false} StepIds(b: Backend, s: State, e: Event)
    requires DistinctIds(s.clients)
    ensures DistinctIds(Step(b, s, e).clients)
  {
    var clients' := Step(b, s, e).clients;
    match e
    case Connect(id) =>
      PutDistinct(s.clients, id, FRESH);
    case Disconnect(id) =>
      WithoutDistinct(s.clients, id);
    case _ =>
      SameIds(s.clients, clients');
  }

  lemma {:induction false} StepCached(b: Backend, s: State, e: Event)
    requires AllCached(s)
    ensures AllCached(Step(b, s, e))
  {
    StepIds(b, s, e);
    forall c' | c' in Step(b, s, e).clients ensures Cached(Step(b, s, e).managed, c'.link) {
      var isNew, c := StepClient(b, s, e, c');
      if !isNew {
        ChangedCached(b, s, e, c.link, c'.link);
      }
    }
  }

  lemma {:induction false} StepInStep(b: Backend, s: State, e: Event, slot: Slot)
    requires AllCached(s) && AllInStep(s, slot) && StableStep(b, s, e, slot)
    ensures AllInStep(Step(b, s, e), slot)
  {
    FreshInStep(slot);
    forall c' | c' in Step(b, s, e).clients ensures InStep(c'.link, slot) {
      var isNew, c := StepClient(b, s, e, c');
      if !isNew {
        ChangedKeeps(b, s, e, c.link, c'.link, slot);
      }
    }
  }

  lemma {:induction false} StepNamesInStep(b: Backend, s: State, e: Event, slot: Slot)
    requires AllCached(s) && ComparesNames(b, slot)
    requires AllNamesInStep(s, slot)
    ensures AllNamesInStep(Step(b, s, e), slot)
  {
    FreshInStep(slot);
    forall c' | c' in Step(b, s, e).clients ensures NamesInStep(c'.link, slot) {
      var isNew, c := StepClient(b, s, e, c');
      if !isNew {
        ChangedKeeps(b, s, e, c.link, c'.link, slot);
      }
    }
  }

  // ---------------------------------------------------------------------------------------------
  // Whole runs
  // ---------------------------------------------------------------------------------------------

  /** In every run the client ids stay distinct and every cache is its gateway's managed lists. */
  lemma {:induction false} RunCached(b: Backend, events: seq<Event>)
    ensures AllCached(Run(b, events))
  {
    if events != [] {
      var n := |events| - 1;
      RunCached(b, events[..n]);
      StepCached(b, Run(b, events[..n]), events[n]);
    }
  }

  /** In every run, for both backends and both types, if each publication of the type changes its list
      stably then each client's drained view is part of its gateway's managed list, and equals it from
      the type's initial response on. `StaysInStepIff` shows that nothing weaker will do. */
  lemma {:induction false} RunInStep(b: Backend, events: seq<Event>, slot: Slot)
    requires StableRun(b, events, slot)
    ensures AllInStep(Run(b, events), slot)
  {
    if events != [] {
      var n := |events| - 1;
      RunCached(b, events[..n]);
      StableRunSnoc(b, events, slot);
      RunInStep(b, events[..n], slot);
      StepInStep(b, Run(b, events[..n]), events[n], slot);
    }
  }

  lemma {:induction false} StableRunSnoc(b: Backend, events: seq<Event>, slot: Slot)
    requires events != []
    ensures StableRun(b, events, slot) <==>
            && StableRun(b, events[..|events| - 1], slot)
            && StableStep(b, Run(b, events[..|events| - 1]), events[|events| - 1], slot)
  {
    var n := |events| - 1;
    forall k | 0 <= k < n ensures StableAtEvent(b, events, k, slot) <==> StableAtEvent(b, events[..n], k, slot) {
      assert events[..n][..k] == events[..k] && events[..n][k] == events[k];
    }
    StableLast(b, events, slot);
  }

  lemma {:induction false} StableLast(b: Backend, events: seq<Event>, slot: Slot)
    requires events != []
    ensures StableAtEvent(b, events, |events| - 1, slot)
            <==> StableStep(b, Run(b, events[..|events| - 1]), events[|events| - 1], slot)
  {
    var n := |events| - 1;
    if events[n].Publish? {
      ManagedIsLastPublished(b, events[..n], events[n].gateway, slot);
    }
  }

  /** In particular, coherent lists keep every proxy in step. */
  lemma {:induction false} CoherentRunStable(b: Backend, events: seq<Event>, slot: Slot)
    requires CoherentRun(events, slot)
    ensures StableRun(b, events, slot)
  {
    forall k | 0 <= k < |events| ensures StableAtEvent(b, events, k, slot) {
      var e := events[k];
      if e.Publish? && e.slot == slot {
        assert forall x :: x in events[..k] ==> x in events;
        LastPublishedCoherent(events[..k], e.gateway, slot);
        CoherentStable(b, slot, LastPublished(events[..k], e.gateway, slot), e.resources);
      }
    }
  }

  lemma {:induction false} LastPublishedCoherent(events: seq<Event>, gateway: string, slot: Slot)
    requires CoherentRun(events, slot)
    ensures Coherent(LastPublished(events, gateway, slot))
  {
    if events != [] {
      var n := |events| - 1;
      assert events[n] in events && forall e :: e in events[..n] ==> e in events;
      LastPublishedCoherent(events[..n], gateway, slot);
    }
  }

  /** In every run whatsoever, the names a proxy ends up with are its gateway's published names,
      except for orion clusters. */
  lemma {:induction false} RunNamesInStep(b: Backend, events: seq<Event>, slot: Slot)
    requires ComparesNames(b, slot)
    ensures AllNamesInStep(Run(b, events), slot)
  {
    if events != [] {
      var n := |events| - 1;
      RunCached(b, events[..n]);
      RunNamesInStep(b, events[..n], slot);
      StepNamesInStep(b, Run(b, events[..n]), events[n], slot);
    }
  }

  lemma {:induction false} StepManagedAt(b: Backend, s: State, e: Event, gateway: string, slot: Slot)
    ensures ManagedAt(Step(b, s, e).managed, gateway).At(slot)
            == if e.Publish? && e.gateway == gateway && e.slot == slot then e.resources
               else ManagedAt(s.managed, gateway).At(slot)
  {
  }

  lemma {:induction false} ManagedIsLastPublished(b: Backend, events: seq<Event>, gateway: string, slot: Slot)
    ensures ManagedAt(Run(b, events).managed, gateway).At(slot) == LastPublished(events, gateway, slot)
  {
    if events != [] {
      var n := |events| - 1;
      ManagedIsLastPublished(b, events[..n], gateway, slot);
      StepManagedAt(b, Run(b, events[..n]), events[n], gateway, slot);
    }
  }

  /** A bound proxy with nothing in flight that asked for a type holds exactly the last list
      published for its gateway. */
  lemma {:induction false} QuiescentProxyHoldsPublished(b: Backend, events: seq<Event>, slot: Slot,
                                                        c: Client<Link>, gateway: string)
    requires StableRun(b, events, slot)
    requires c in Run(b, events).clients && c.link.gateway == Some(gateway)
    requires c.link.queue == [] && slot in c.link.started
    ensures c.link.view.At(slot) == ViewOf(LastPublished(events, gateway, slot))
  {
    RunCached(b, events);
    RunInStep(b, events, slot);
    ManagedIsLastPublished(b, events, gateway, slot);
    assert Cached(Run(b, events).managed, c.link) && InStep(c.link, slot);
  }

  // ---------------------------------------------------------------------------------------------
  // One client through a run
  // ---------------------------------------------------------------------------------------------

  ghost predicate Recorded(s: State, id: nat) {
    IndexOf(s.clients, id) < |s.clients|
  }

  function LinkOf(s: State, id: nat): Link
    requires Recorded(s, id)
  {
    s.clients[IndexOf(s.clients, id)].link
  }

  lemma {:induction false} FoundAt(clients: seq<Client<Link>>, id: nat, at: nat)
    requires DistinctIds(clients) && at < |clients| && clients[at].id == id
    ensures IndexOf(clients, id) == at
  {
  }

  /** What one step does to the record of a client that it neither replaces nor removes. */
  function Next(b: Backend, s: State, e: Event, id: nat, l: Link): Link {
    match e
    case Connect(_) => l
    case Ask(j, r) => if j == id && Answered(r) then Answer(Bind(s.managed, l, r.gateway.value), r.slot) else l
    case Publish(gateway, slot, resources) => PushIfBound(b, l, gateway, slot, resources)
    case Deliver(j) => if j == id then Receive(l) else l
    case Disconnect(_) => l
  }

  lemma {:induction false} StepLink(b: Backend, s: State, e: Event, id: nat)
    requires DistinctIds(s.clients) && Recorded(s, id)
    requires e != Connect(id) && e != Disconnect(id)
    ensures Recorded(Step(b, s, e), id) && LinkOf(Step(b, s, e), id) == Next(b, s, e, id, LinkOf(s, id))
  {
    match e
    case Connect(j) => OthersPut(s.clients, j, id);
    case Disconnect(j) => OthersKept(s.clients, j, id);
    case _ => StepLinkInPlace(b, s, e, id);
  }

  lemma {:induction false} StepLinkInPlace(b: Backend, s: State, e: Event, id: nat)
    requires DistinctIds(s.clients) && Recorded(s, id) && !e.Connect? && !e.Disconnect?
    ensures Recorded(Step(b, s, e), id) && LinkOf(Step(b, s, e), id) == Next(b, s, e, id, LinkOf(s, id))
  {
    var at, s' := IndexOf(s.clients, id), Step(b, s, e);
    SameIds(s.clients, s'.clients);
    FoundAt(s'.clients, id, at);
  }

  lemma {:induction false} OthersPut(clients: seq<Client<Link>>, j: nat, id: nat)
    requires DistinctIds(clients) && IndexOf(clients, id) < |clients| && j != id
    ensures var at, clients' := IndexOf(clients, id), Put(clients, j, FRESH);
            IndexOf(clients', id) < |clients'| && clients'[IndexOf(clients', id)] == clients[at]
  {
    var at, clients' := IndexOf(clients, id), Put(clients, j, FRESH);
    PutDistinct(clients, j, FRESH);
    assert clients'[at] == clients[at];
    FoundAt(clients', id, at);
  }

  lemma {:induction false} OthersKept(clients: seq<Client<Link>>, j: nat, id: nat)
    requires DistinctIds(clients) && IndexOf(clients, id) < |clients| && j != id
    ensures var at, clients' := IndexOf(clients, id), Without(clients, j);
            IndexOf(clients', id) < |clients'| && clients'[IndexOf(clients', id)] == clients[at]
  {
    var at, clients' := IndexOf(clients, id), Without(clients, j);
    WithoutDistinct(clients, j);
    assert clients[at] in clients';
    var i :| 0 <= i < |clients'| && clients'[i] == clients[at];
    FoundAt(clients', id, i);
  }

  /** The client is recorded, bound to the gateway, and was answered for the type. */
  ghost predicate Served(s: State, id: nat, gateway: string, slot: Slot) {
    Recorded(s, id) && LinkOf(s, id).gateway == Some(gateway) && slot in LinkOf(s, id).started
  }

  ghost predicate ServedInStep(s: State, id: nat, gateway: string, slot: Slot) {
    Served(s, id, gateway, slot) && InStep(LinkOf(s, id), slot)
  }

  ghost predicate Undisturbed(events: seq<Event>, id: nat) {
    forall e :: e in events ==> e != Connect(id) && e != Disconnect(id)
  }

  /** A publication for its gateway keeps a client that is in step so exactly if it is stable; every
      other event does. */
  lemma {:induction false} StepInStepIff(b: Backend, s: State, e: Event, id: nat, gateway: string, slot: Slot)
    requires AllCached(s) && e != Connect(id) && e != Disconnect(id)
    requires Served(s, id, gateway, slot)
    ensures Served(Step(b, s, e), id, gateway, slot)
    ensures ServedInStep(s, id, gateway, slot) ==>
              (ServedInStep(Step(b, s, e), id, gateway, slot) <==>
               (e.Publish? && e.gateway == gateway ==> StableStep(b, s, e, slot)))
  {
    StepLink(b, s, e, id);
    var l := LinkOf(s, id);
    assert s.clients[IndexOf(s.clients, id)] in s.clients;
    match e
    case Publish(g, t, resources) =>
      PushKeeps(b, l, t, resources, slot);
    case _ =>
      assert Changed(b, s, e, l, LinkOf(Step(b, s, e), id));
      ChangedKeeps(b, s, e, l, LinkOf(Step(b, s, e), id), slot);
  }

  /** The property holds after every prefix of the later events. */
  ghost predicate Throughout(p: seq<Event> -> bool, es: seq<Event>, more: seq<Event>) {
    forall k :: 0 <= k <= |more| ==> p(es + more[..k])
  }

  /** The property holds of every later event and the events before it. */
  ghost predicate EachTime(q: (seq<Event>, Event) -> bool, es: seq<Event>, more: seq<Event>) {
    forall k :: 0 <= k < |more| ==> q(es + more[..k], more[k])
  }

  lemma {:induction false} ThroughoutSnoc(p: seq<Event> -> bool, es: seq<Event>, more: seq<Event>)
    requires more != []
    ensures Throughout(p, es, more) <==> Throughout(p, es, more[..|more| - 1]) && p(es + more)
    ensures Throughout(p, es, more[..|more| - 1]) ==> p(es + more[..|more| - 1])
  {
    var init := more[..|more| - 1];
    assert more[..|more|] == more && init[..|init|] == init;
    assert forall k :: 0 <= k <= |init| ==> init[..k] == more[..k];
  }

  lemma {:induction false} EachTimeSnoc(q: (seq<Event>, Event) -> bool, es: seq<Event>, more: seq<Event>)
    requires more != []
    ensures EachTime(q, es, more) <==>
            EachTime(q, es, more[..|more| - 1]) && q(es + more[..|more| - 1], more[|more| - 1])
  {
    var init := more[..|more| - 1];
    assert forall k :: 0 <= k < |init| ==> init[..k] == more[..k] && init[k] == more[k];
  }

  /** If every later event keeps `s`, and takes `p` from before to after exactly under `q`, then `p` holds
      throughout exactly if `q` holds each time. */
  lemma {:induction false} StepwiseIff(s: seq<Event> -> bool, p: seq<Event> -> bool, q: (seq<Event>, Event) -> bool,
                                       es: seq<Event>, more: seq<Event>)
    requires s(es) && p(es)
    requires forall x, e :: e in more && s(x) ==> s(x + [e]) && (p(x) ==> (p(x + [e]) <==> q(x, e)))
    ensures s(es + more) && (Throughout(p, es, more) <==> EachTime(q, es, more))
    decreases |more|
  {
    if more == [] {
      assert es + more == es && es + more[..0] == es;
    } else {
      var init, e := more[..|more| - 1], more[|more| - 1];
      assert e in more && forall x :: x in init ==> x in more;
      StepwiseIff(s, p, q, es, init);
      assert es + more == es + init + [e];
      ThroughoutSnoc(p, es, more);
      EachTimeSnoc(q, es, more);
    }
  }

  /** After the events the client is recorded, bound to the gateway, and was answered for the type. */
  ghost function ServedAfter(b: Backend, id: nat, gateway: string, slot: Slot): seq<Event> -> bool {
    (events: seq<Event>) => Served(Run(b, events), id, gateway, slot)
  }

  /** After the events the client is in step. */
  ghost function InStepAfter(b: Backend, id: nat, gateway: string, slot: Slot): seq<Event> -> bool {
    (events: seq<Event>) => ServedInStep(Run(b, events), id, gateway, slot)
  }

  /** After the events, the next one is a stable publication if it publishes for the gateway and type. */
  ghost function NextStable(b: Backend, gateway: string, slot: Slot): (seq<Event>, Event) -> bool {
    (events: seq<Event>, e: Event) => e.Publish? && e.gateway == gateway && e.slot == slot ==>
                     Stable(b, slot, LastPublished(events, gateway, slot), e.resources)
  }

  lemma {:induction false} RunSnoc(b: Backend, events: seq<Event>, e: Event)
    ensures Run(b, events + [e]) == Step(b, Run(b, events), e)
  {
    assert (events + [e])[..|events|] == events;
  }

  lemma {:induction false} OneMore(b: Backend, events: seq<Event>, e: Event, id: nat, gateway: string, slot: Slot)
    requires e != Connect(id) && e != Disconnect(id)
    requires Served(Run(b, events), id, gateway, slot)
    ensures Served(Run(b, events + [e]), id, gateway, slot)
    ensures InStepAfter(b, id, gateway, slot)(events) ==>
              (InStepAfter(b, id, gateway, slot)(events + [e]) <==> NextStable(b, gateway, slot)(events, e))
  {
    RunCached(b, events);
    RunSnoc(b, events, e);
    StepInStepIff(b, Run(b, events), e, id, gateway, slot);
    ManagedIsLastPublished(b, events, gateway, slot);
  }

  /** The exact condition over whole runs: a client that is in step stays so at every point of any
      further run, until it disconnects, if and only if every publication for its gateway and type
      changes the list stably. */
  lemma {:induction false} StaysInStepIff(b: Backend, es: seq<Event>, more: seq<Event>, id: nat, gateway: string,
                                          slot: Slot)
    requires ServedInStep(Run(b, es), id, gateway, slot) && Undisturbed(more, id)
    ensures Served(Run(b, es + more), id, gateway, slot)
    ensures Throughout(InStepAfter(b, id, gateway, slot), es, more) <==>
            EachTime(NextStable(b, gateway, slot), es, more)
  {
    forall events, e | e in more && ServedAfter(b, id, gateway, slot)(events)
      ensures ServedAfter(b, id, gateway, slot)(events + [e])
      ensures InStepAfter(b, id, gateway, slot)(events) ==>
                (InStepAfter(b, id, gateway, slot)(events + [e]) <==> NextStable(b, gateway, slot)(events, e))
    {
      OneMore(b, events, e, id, gateway, slot);
    }
    StepwiseIff(ServedAfter(b, id, gateway, slot), InStepAfter(b, id, gateway, slot), NextStable(b, gateway, slot),
                es, more);
  }

  /** A client id that was removed stays so, and its requests change nothing, until it connects again. */
  lemma {:induction false} RemovedGetsNothing(b: Backend, es: seq<Event>, more: seq<Event>, id: nat, r: Request)
    requires Connect(id) !in more
    ensures var s := Run(b, es + [Disconnect(id)] + more); !Recorded(s, id) && Step(b, s, Ask(id, r)) == s
  {
    RunCached(b, es);
    JustRemoved(b, Run(b, es), id);
    RunSnoc(b, es, Disconnect(id));
    StaysOut(b, es + [Disconnect(id)], more, id);
    RecordedIff(Run(b, es + [Disconnect(id)] + more), id);
  }

  lemma {:induction false} RecordedIff(s: State, id: nat)
    ensures Recorded(s, id) <==> exists c :: c in s.clients && c.id == id
  {
  }

  ghost function OutAfter(b: Backend, id: nat): seq<Event> -> bool {
    (events: seq<Event>) => !Recorded(Run(b, events), id)
  }

  lemma {:induction false} StepwiseKept(s: seq<Event> -> bool, es: seq<Event>, more: seq<Event>)
    requires s(es) && forall x, e :: e in more && s(x) ==> s(x + [e])
    ensures s(es + more)
    decreases |more|
  {
    if more == [] {
      assert es + more == es;
    } else {
      var init, e := more[..|more| - 1], more[|more| - 1];
      assert e in more && forall x :: x in init ==> x in more;
      StepwiseKept(s, es, init);
      assert es + more == es + init + [e];
    }
  }

  lemma {:induction false} StaysOut(b: Backend, es: seq<Event>, more: seq<Event>, id: nat)
    requires !Recorded(Run(b, es), id) && Connect(id) !in more
    ensures !Recorded(Run(b, es + more), id)
  {
    forall events, e | e in more && OutAfter(b, id)(events) ensures OutAfter(b, id)(events + [e]) {
      RunSnoc(b, events, e);
      StepKeepsOut(b, Run(b, events), e, id);
    }
    StepwiseKept(OutAfter(b, id), es, more);
  }

  lemma {:induction false} JustRemoved(b: Backend, s: State, id: nat)
    requires DistinctIds(s.clients)
    ensures !Recorded(Step(b, s, Disconnect(id)), id)
  {
    WithoutDistinct(s.clients, id);
  }

  lemma {:induction false} StepKeepsOut(b: Backend, s: State, e: Event, id: nat)
    requires !Recorded(s, id) && e != Connect(id)
    ensures !Recorded(Step(b, s, e), id)
  {
    RecordedIff(s, id);
    RecordedIff(Step(b, s, e), id);
    forall c' | c' in Step(b, s, e).clients ensures c'.id != id {
      var i :| 0 <= i < |Step(b, s, e).clients| && Step(b, s, e).clients[i] == c';
    }
  }

  // ---------------------------------------------------------------------------------------------
  // Which connection a record belongs to
  // ---------------------------------------------------------------------------------------------

  lemma {:induction false} JustConnected(b: Backend, s: State, id: nat)
    requires DistinctIds(s.clients)
    ensures Recorded(Step(b, s, Connect(id)), id) && LinkOf(Step(b, s, Connect(id)), id) == FRESH
  {
    var s' := Step(b, s, Connect(id));
    PutDistinct(s.clients, id, FRESH);
    var at := if Recorded(s, id) then IndexOf(s.clients, id) else |s.clients|;
    FoundAt(s'.clients, id, at);
  }

  lemma {:induction false} StepRecordedIff(b: Backend, s: State, e: Event, id: nat)
    requires DistinctIds(s.clients)
    ensures Recorded(Step(b, s, e), id) <==> e == Connect(id) || (Recorded(s, id) && e != Disconnect(id))
  {
    if e == Connect(id) {
      JustConnected(b, s, id);
    } else if e == Disconnect(id) {
      JustRemoved(b, s, id);
    } else if Recorded(s, id) {
      StepLink(b, s, e, id);
    } else {
      StepKeepsOut(b, s, e, id);
    }
  }

  /** The exact condition for an id to be recorded after a run: some connection of the id was not
      followed by the end of any stream of that id. */
  lemma {:induction false} RunRecordedIff(b: Backend, events: seq<Event>, id: nat)
    ensures Recorded(Run(b, events), id) <==> exists i: nat :: NotEndedSince(events, i, Connect(id), Disconnect(id))
  {
    if events != [] {
      var n := |events| - 1;
      RunRecordedIff(b, events[..n], id);
      RunCached(b, events[..n]);
      NotEndedSnoc(events, Connect(id), Disconnect(id));
      StepRecordedIff(b, Run(b, events[..n]), events[n], id);
    }
  }

  /** The connection that the id's record was made for, if the server holds one. */
  function Owner(events: seq<Event>, id: nat): Option<nat> {
    if events == [] then None
    else
      var n := |events| - 1;
      if events[n] == Connect(id) then Some(n)
      else if events[n] == Disconnect(id) then None
      else Owner(events[..n], id)
  }

  /** What the events after connection `i` made of the record that it was given. */
  function LinkSince(b: Backend, events: seq<Event>, i: nat, id: nat): Link
    requires i < |events|
  {
    var n := |events| - 1;
    if i == n then FRESH
    else Next(b, Run(b, events[..n]), events[n], id, LinkSince(b, events[..n], i, id))
  }

  /** The record that the server holds for an id is always that of its owner, with all that happened to it
      since its connection. */
  lemma {:induction false} RecordIsOwners(b: Backend, events: seq<Event>, id: nat)
    ensures Recorded(Run(b, events), id) <==> Owner(events, id).Some?
    ensures var owner := Owner(events, id);
            owner.Some? ==>
              owner.value < |events| && LinkOf(Run(b, events), id) == LinkSince(b, events, owner.value, id)
  {
    if events != [] {
      var n := |events| - 1;
      var s, e := Run(b, events[..n]), events[n];
      RecordIsOwners(b, events[..n], id);
      RunCached(b, events[..n]);
      StepRecordedIff(b, s, e, id);
      if e == Connect(id) {
        JustConnected(b, s, id);
      } else if e != Disconnect(id) && Recorded(s, id) {
        StepLink(b, s, e, id);
      }
    }
  }

  lemma {:induction false} UndisturbedSnoc(events: seq<Event>, e: Event, id: nat)
    ensures Undisturbed(events + [e], id) <==> Undisturbed(events, id) && e != Connect(id) && e != Disconnect(id)
  {
    assert e in events + [e] && forall x :: x in events ==> x in events + [e];
  }

  /** A connection keeps its record exactly while no other of its id is opened and no stream of that id
      ends: not even an older one, which is the overlap. */
  lemma {:induction false} KeepsRecordIff(events: seq<Event>, i: nat, id: nat)
    ensures Owner(events, id) == Some(i) <==>
            i < |events| && events[i] == Connect(id) && Undisturbed(events[i + 1..], id)
  {
    if events != [] {
      var n := |events| - 1;
      KeepsRecordIff(events[..n], i, id);
      if i < n {
        assert events[i + 1..] == events[..n][i + 1..] + [events[n]];
        UndisturbedSnoc(events[..n][i + 1..], events[n], id);
      }
    }
  }

  /** The overlap: a client connects again before its first stream has ended. The new connection owns the
      record until the old stream's end takes it; from then on its requests change nothing. */
  lemma {:induction false} OverlapForgetsNewer(b: Backend, es: seq<Event>, more: seq<Event>, id: nat, r: Request)
    requires Connect(id) !in more
    ensures Owner(es + [Connect(id), Connect(id)], id) == Some(|es| + 1)
    ensures var s := Run(b, es + [Connect(id), Connect(id), Disconnect(id)] + more);
            !Recorded(s, id) && Step(b, s, Ask(id, r)) == s
  {
    var twice := es + [Connect(id), Connect(id)];
    assert es + [Connect(id), Connect(id), Disconnect(id)] == twice + [Disconnect(id)];
    RemovedGetsNothing(b, twice, more, id, r);
  }

  // ---------------------------------------------------------------------------------------------
  // Which requests are answered, and with what
  // ---------------------------------------------------------------------------------------------

  /** A proxy's own request, as opposed to its reply to a response: without an error and without a nonce,
      from a node whose gateway is known. */
  ghost predicate Opens(r: Request) {
    !r.hasError && !r.hasNonce && r.gateway.Some?
  }

  /** What a request does for a recorded client: an opening one is answered by one response, with the whole
      list last published for the client's gateway, which is that of its first such request; any other
      request changes nothing. */
  lemma {:induction false} RequestAnswered(b: Backend, events: seq<Event>, id: nat, r: Request)
    requires Recorded(Run(b, events), id)
    ensures Recorded(Run(b, events + [Ask(id, r)]), id)
    ensures !Opens(r) ==> Run(b, events + [Ask(id, r)]) == Run(b, events)
    ensures Opens(r) ==>
              var l, l' := LinkOf(Run(b, events), id), LinkOf(Run(b, events + [Ask(id, r)]), id);
              var g := if l.gateway.Some? then l.gateway.value else r.gateway.value;
              var list := if r.slot.Some? then LastPublished(events, g, r.slot.value) else [];
              && l'.gateway == Some(g) && l'.view == l.view
              && l'.queue == l.queue + [Response(r.slot, list, [])]
              && l'.started == l.started + (if r.slot.Some? then {r.slot.value} else {})
  {
    var s, e := Run(b, events), Ask(id, r);
    RunSnoc(b, events, e);
    RunCached(b, events);
    StepLink(b, s, e, id);
    assert s.clients[IndexOf(s.clients, id)] in s.clients;
    if Opens(r) && r.slot.Some? {
      var l := LinkOf(s, id);
      var g := if l.gateway.Some? then l.gateway.value else r.gateway.value;
      ManagedIsLastPublished(b, events, g, r.slot.value);
    }
  }

  ghost predicate OpensAt(events: seq<Event>, k: nat, id: nat)
    requires k < |events|
  {
    events[k].Ask? && events[k].id == id && Opens(events[k].request)
  }

  /** No opening request of the client between the events `i` and `k`. */
  ghost predicate NoneOpens(events: seq<Event>, i: nat, k: nat, id: nat)
    requires k <= |events|
  {
    forall j :: i < j < k ==> !OpensAt(events, j, id)
  }

  /** Event `k` is the first opening request of the client after event `i`, and names the gateway. */
  ghost predicate BoundBy(events: seq<Event>, i: nat, k: nat, id: nat, g: string) {
    i < k < |events| && OpensAt(events, k, id) && NoneOpens(events, i, k, id) && events[k].request.gateway == Some(g)
  }

  /** Event `k` is an opening request of the client, after event `i`, for the type. */
  ghost predicate AskedBy(events: seq<Event>, i: nat, k: nat, id: nat, slot: Slot) {
    i < k < |events| && OpensAt(events, k, id) && events[k].request.slot == Some(slot)
  }

  lemma {:induction false} StepBinds(b: Backend, s: State, e: Event, id: nat)
    requires DistinctIds(s.clients) && Recorded(s, id) && e != Connect(id) && e != Disconnect(id)
    ensures Recorded(Step(b, s, e), id)
    ensures var l, l' := LinkOf(s, id), LinkOf(Step(b, s, e), id);
            if OpensAt([e], 0, id) then
              && l'.gateway == (if l.gateway.None? then e.request.gateway else l.gateway)
              && (forall t :: t in l'.started <==> t in l.started || e.request.slot == Some(t))
            else l'.gateway == l.gateway && l'.started == l.started
  {
    StepLink(b, s, e, id);
  }

  lemma {:induction false} BoundBySnoc(events: seq<Event>, i: nat, id: nat, g: string)
    requires i < |events| - 1
    ensures var n := |events| - 1;
            (exists k: nat :: BoundBy(events, i, k, id, g)) <==>
            || (exists k: nat :: BoundBy(events[..n], i, k, id, g))
            || (OpensAt(events, n, id) && NoneOpens(events[..n], i, n, id) && events[n].request.gateway == Some(g))
  {
    var n := |events| - 1;
    var init := events[..n];
    assert forall j :: 0 <= j < n ==> init[j] == events[j];
    forall k: nat | k < n ensures BoundBy(init, i, k, id, g) <==> BoundBy(events, i, k, id, g) {
      assert forall j :: i < j < k ==> (OpensAt(init, j, id) <==> OpensAt(events, j, id));
    }
    assert forall j :: i < j < n ==> (OpensAt(init, j, id) <==> OpensAt(events, j, id));
    assert BoundBy(events, i, n, id, g) <==>
           OpensAt(events, n, id) && NoneOpens(init, i, n, id) && events[n].request.gateway == Some(g);
  }

  lemma {:induction false} AskedBySnoc(events: seq<Event>, i: nat, id: nat, slot: Slot)
    requires i < |events| - 1
    ensures var n := |events| - 1;
            (exists k: nat :: AskedBy(events, i, k, id, slot)) <==>
            || (exists k: nat :: AskedBy(events[..n], i, k, id, slot))
            || (OpensAt(events, n, id) && events[n].request.slot == Some(slot))
  {
    var n := |events| - 1;
    assert forall j :: 0 <= j < n ==> events[..n][j] == events[j];
    assert forall k: nat :: k < n ==> (AskedBy(events[..n], i, k, id, slot) <==> AskedBy(events, i, k, id, slot));
    assert AskedBy(events, i, n, id, slot) <==> OpensAt(events, n, id) && events[n].request.slot == Some(slot);
  }

  /** A record is unbound exactly if no opening request came since its owner's connection, and bound to a
      gateway exactly if the first of them named that one. */
  lemma {:induction false} BoundIff(b: Backend, events: seq<Event>, i: nat, id: nat, g: string)
    requires Owner(events, id) == Some(i)
    ensures Recorded(Run(b, events), id) && i < |events|
    ensures var l := LinkOf(Run(b, events), id);
            && (l.gateway.None? <==> NoneOpens(events, i, |events|, id))
            && (l.gateway == Some(g) <==> exists k: nat :: BoundBy(events, i, k, id, g))
  {
    RecordIsOwners(b, events, id);
    var n := |events| - 1;
    RunCached(b, events[..n]);
    if i == n {
      JustConnected(b, Run(b, events[..n]), id);
    } else {
      BoundIff(b, events[..n], i, id, g);
      StepBinds(b, Run(b, events[..n]), events[n], id);
      BoundBySnoc(events, i, id, g);
      assert OpensAt(events, n, id) <==> OpensAt([events[n]], 0, id);
      assert forall j :: i < j < n ==> (OpensAt(events[..n], j, id) <==> OpensAt(events, j, id));
    }
  }

  /** And a type was answered exactly if such a request asked for it. */
  lemma {:induction false} AnsweredIff(b: Backend, events: seq<Event>, i: nat, id: nat, slot: Slot)
    requires Owner(events, id) == Some(i)
    ensures Recorded(Run(b, events), id)
    ensures slot in LinkOf(Run(b, events), id).started <==> exists k: nat :: AskedBy(events, i, k, id, slot)
  {
    RecordIsOwners(b, events, id);
    var n := |events| - 1;
    RunCached(b, events[..n]);
    if i == n {
      JustConnected(b, Run(b, events[..n]), id);
    } else {
      AnsweredIff(b, events[..n], i, id, slot);
      StepBinds(b, Run(b, events[..n]), events[n], id);
      AskedBySnoc(events, i, id, slot);
      assert OpensAt(events, n, id) <==> OpensAt([events[n]], 0, id);
    }
  }

  /** A proxy that takes the responses in flight one by one ends with nothing in flight, and with the view
      that they lead to. */
  lemma {:induction false} DeliveredInOrder(b: Backend, s: State, id: nat, slot: Slot)
    requires DistinctIds(s.clients) && Recorded(s, id)
    ensures var l, s' := LinkOf(s, id), DeliverAll(b, s, id, |LinkOf(s, id).queue|);
            && DistinctIds(s'.clients) && Recorded(s', id) && LinkOf(s', id).queue == []
            && LinkOf(s', id).view.At(slot) == Drained(l, slot)
            && LinkOf(s', id) == l.(queue := [], view := LinkOf(s', id).view)
    decreases |LinkOf(s, id).queue|
  {
    var l := LinkOf(s, id);
    if l.queue != [] {
      var s' := Step(b, s, Deliver(id));
      StepLink(b, s, Deliver(id), id);
      SameIds(s.clients, s'.clients);
      assert LinkOf(s', id) == Receive(l) && |Receive(l).queue| == |l.queue| - 1;
      ReceiveKeeps(l, slot);
      DeliveredInOrder(b, s', id, slot);
    }
  }

  function DeliverAll(b: Backend, s: State, id: nat, times: nat): State
    decreases times
  {
    if times == 0 then s else DeliverAll(b, Step(b, s, Deliver(id)), id, times - 1)
  }

  // ---------------------------------------------------------------------------------------------
  // The server as the source has it: a client list and a managed map, updated in place
  // ---------------------------------------------------------------------------------------------

  class AdsServer {
    const backend: Backend
    var clients: seq<Client<Link>>
    var managed: map<string, Lists>

    ghost function Abs(): State
      reads this
    {
      State(clients, managed)
    }

    ghost predicate Valid()
      reads this
    {
      DistinctIds(clients)
    }

    constructor (backend: Backend)
      ensures this.backend == backend && Valid() && Abs() == Run(backend, [])
    {
      this.backend := backend;
      clients := [];
      managed := map[];
    }

    method ClientsOf(gateway: string) returns (chosen: seq<Client<Link>>)
      requires Valid()
      ensures forall c :: c in chosen <==> c in clients && c.link.gateway == Some(gateway)
      ensures DistinctIds(chosen)
    {
      chosen := [];
      for i := 0 to |clients|
        invariant forall c :: c in chosen <==> c in clients[..i] && c.link.gateway == Some(gateway)
        invariant DistinctIds(chosen)
      {
        assert clients[..i + 1] == clients[..i] + [clients[i]];
        if clients[i].link.gateway == Some(gateway) {
          forall j | 0 <= j < |chosen| ensures chosen[j].id != clients[i].id {
            assert chosen[j] in clients[..i];
          }
          chosen := chosen + [clients[i]];
        }
      }
      assert clients[..|clients|] == clients;
    }

    method AddOrReplaceClient(id: nat)
      requires Valid()
      modifies this
      ensures Valid() && Abs() == Step(backend, old(Abs()), Connect(id))
    {
      PutDistinct(clients, id, FRESH);
      var i := Find(clients, id);
      if i < |clients| {
        clients := clients[i := Client(id, FRESH)];
      } else {
        clients := clients + [Client(id, FRESH)];
      }
    }

    method RemoveClient(id: nat)
      requires Valid()
      modifies this
      ensures Valid() && Abs() == Step(backend, old(Abs()), Disconnect(id))
    {
      WithoutDistinct(clients, id);
      clients := Retain(clients, id);
    }

    /** A request that carries a nonce or an error, or whose node is unknown, changes nothing. */
    method HandleRequest(id: nat, r: Request)
      requires Valid()
      modifies this
      ensures Valid() && Abs() == Step(backend, old(Abs()), Ask(id, r))
    {
      if r.hasError || r.hasNonce || r.gateway.None? {
        return;
      }
      var i := Find(clients, id);
      if i == |clients| {
        return;
      }
      var link := clients[i].link;
      if link.gateway.None? {
        link := link.(gateway := Some(r.gateway.value));
        if r.gateway.value in managed {
          link := link.(cache := managed[r.gateway.value]);
        }
      }
      match r.slot {
        case Some(t) =>
          link := link.(queue := link.queue + [Response(r.slot, link.cache.At(t), [])], started := link.started + {t});
        case None =>
          link := link.(queue := link.queue + [Response(None, [], [])]);
      }
      clients := clients[i := Client(id, link)];
    }

    /** Replaces the cached list of a client record and computes the responses for the change. */
    method CacheAndCalculateDelta(link: Link, slot: Slot, resources: seq<Resource>)
      returns (updated: Link, responses: seq<Response>)
      ensures updated == link.(cache := link.cache.With(slot, resources))
      ensures responses == Delta(backend, slot, link.cache.At(slot), resources)
    {
      var cached := link.cache.At(slot);
      var toAdd := DifferenceLoop(resources, cached);
      if backend.Orion? && slot.Secondary? {
        var toRemove := DifferenceLoop(cached, resources);
        responses := [Response(Some(slot), toAdd, NameList(toRemove))];
      } else {
        var toRemove := DifferenceLoop(NameList(cached), NameList(resources));
        if backend.Orion? {
          responses := [Response(Some(slot), toAdd, toRemove)];
        } else if slot.Primary? {
          responses := [Response(Some(slot), [], toRemove + NameList(toAdd)), Response(Some(slot), toAdd, [])];
        } else {
          responses := [Response(Some(slot), [], toRemove), Response(Some(slot), toAdd, [])];
        }
      }
      updated := link.(cache := link.cache.With(slot, resources));
    }

    method UpdateManaged(gateway: string, slot: Slot, resources: seq<Resource>)
      modifies this`managed
      ensures managed == old(managed)[gateway := ManagedAt(old(managed), gateway).With(slot, resources)]
      ensures gateway in old(managed) && old(managed)[gateway].At(slot) == resources ==> managed == old(managed)
    {
      if gateway in managed {
        managed := managed[gateway := managed[gateway].With(slot, resources)];
      } else {
        managed := managed[gateway := NO_LISTS.With(slot, resources)];
      }
    }

    /** One round of the update loop: the changed fields of the copied record are written back into
        the list by id, and the responses are sent on the client's own channel. */
    method SendDelta(copy: Client<Link>, gateway: string, slot: Slot, resources: seq<Resource>)
      requires IndexOf(clients, copy.id) < |clients| && clients[IndexOf(clients, copy.id)] == copy
      requires gateway in managed && managed[gateway].At(slot) == resources
      modifies this
      ensures managed == old(managed)
      ensures clients == old(clients)[IndexOf(old(clients), copy.id) :=
                                        Client(copy.id, Push(backend, copy.link, slot, resources))]
    {
      var link, responses := CacheAndCalculateDelta(copy.link, slot, resources);
      var i := Find(clients, copy.id);
      var stored := clients[i].link;
      clients := clients[i := Client(copy.id, stored.(gateway := link.gateway, cache := link.cache,
                                                      queue := stored.queue + responses))];
      UpdateManaged(gateway, slot, resources);
    }

    /** The update loop over the copied records of a gateway's clients. */
    method SendDeltas(chosen: seq<Client<Link>>, gateway: string, slot: Slot, resources: seq<Resource>,
                      ghost after: seq<Client<Link>>)
      requires Valid() && DistinctIds(chosen)
      requires forall c :: c in chosen ==> c in clients
      requires |after| == |clients|
      requires forall i :: 0 <= i < |clients| ==>
                 after[i] == Client(clients[i].id, Push(backend, clients[i].link, slot, resources))
      requires gateway in managed && managed[gateway].At(slot) == resources
      modifies this
      ensures managed == old(managed)
      ensures PartlyReplaced(old(clients), after, clients, IdsOf(chosen))
    {
      ghost var before := clients;
      for k := 0 to |chosen|
        invariant managed == old(managed)
        invariant PartlyReplaced(before, after, clients, IdsOf(chosen[..k]))
      {
        ghost var at := ReplaceChosen(before, after, clients, chosen, k);
        SendDelta(chosen[k], gateway, slot, resources);
      }
      assert chosen[..|chosen|] == chosen;
    }

    method PublishList(gateway: string, slot: Slot, resources: seq<Resource>)
      requires Valid()
      modifies this
      ensures Valid() && Abs() == Step(backend, old(Abs()), Publish(gateway, slot, resources))
    {
      ghost var before := clients;
      ghost var after := seq(|before|, i requires 0 <= i < |before| =>
                           Client(before[i].id, Push(backend, before[i].link, slot, resources)));
      var chosen := ClientsOf(gateway);
      UpdateManaged(gateway, slot, resources);
      SendDeltas(chosen, gateway, slot, resources, after);
      forall i | 0 <= i < |before|
        ensures clients[i] == Client(before[i].id, PushIfBound(backend, before[i].link, gateway, slot, resources))
      {
        SelectedIds(before, chosen, before[i]);
      }
    }
  }
}
