/**
 The state-of-the-world xDS server of the envoy backend. It stores one list per gateway and type,
 pushes every published list to the streams bound to the gateway, and skips a request whose version
 equals the version recorded for the stream.
 */
module EnvoyXds {
  import opened Prelude
  import opened ClientList

  /** Encoded resources. */
  type Resources = seq<string>

  datatype Response = Response(resources: Resources, version: nat)

  /** A stream's record and, for each type, the responses sent on it so far. */
  datatype Stream = Stream(gateway: Option<string>, versions: PerSlot<nat>, sent: PerSlot<seq<Response>>)

  datatype State = State(clients: seq<Client<Stream>>, stored: PerSlot<map<string, Resources>>)

  /** The version field of a request: empty, not a number, or a number. */
  datatype VersionInfo = Empty | Malformed | Number(value: nat)

  /** A discovery request. `gateway` is the result of the node lookup; `slot` is `None` for a type
      other than listeners and clusters. */
  datatype Request = Request(hasError: bool, gateway: Option<string>, slot: Option<Slot>, version: VersionInfo)

  datatype Event =
    | Connect(id: nat)
    | Ask(id: nat, request: Request)
    | Publish(gateway: string, slot: Slot, resources: Resources, version: nat)
    | Disconnect(id: nat)

  // ---------------------------------------------------------------------------------------------
  // Steps
  // ---------------------------------------------------------------------------------------------

  predicate Handled(r: Request) {
    !r.hasError && r.gateway.Some? && !r.version.Malformed?
  }

  /** The guard of the "Versions match" branch. */
  predicate Skipped(c: Stream, r: Request) {
    r.slot.Some? && r.version.Number? && r.version.value == c.versions.At(r.slot.value)
  }

  function Send(c: Stream, slot: Slot, r: Response): Stream {
    c.(sent := c.sent.With(slot, c.sent.At(slot) + [r]))
  }

  /** Every handled request binds the stream to the gateway of its node and, unless skipped, is
      answered with the stored list, under the version recorded for the stream. */
  function Serve(stored: PerSlot<map<string, Resources>>, c: Stream, r: Request): Stream
    requires Handled(r)
  {
    var bound := c.(gateway := r.gateway);
    match r.slot
    case None => bound
    case Some(t) =>
      if Skipped(c, r) || r.gateway.value !in stored.At(t) then bound
      else Send(bound, t, Response(stored.At(t)[r.gateway.value], c.versions.At(t)))
  }

  function PushIfBound(c: Stream, gateway: string, slot: Slot, r: Response): Stream {
    if c.gateway == Some(gateway) then
      Send(c, slot, r).(versions := c.versions.With(slot, r.version))
    else c
  }

  /** A reconnection under a known client id keeps the recorded versions. */
  function Reconnected(clients: seq<Client<Stream>>, id: nat): Stream {
    var i := IndexOf(clients, id);
    var versions := if i < |clients| then clients[i].link.versions else PerSlot(0, 0);
    Stream(None, versions, PerSlot([], []))
  }

  function Step(s: State, e: Event): State {
    match e
    case Connect(id) =>
      s.(clients := Put(s.clients, id, Reconnected(s.clients, id)))
    case Ask(id, r) =>
      var i := IndexOf(s.clients, id);
      if Handled(r) && i < |s.clients| then
        s.(clients := s.clients[i := Client(id, Serve(s.stored, s.clients[i].link, r))])
      else s
    case Publish(gateway, slot, resources, version) =>
      State(
        seq(|s.clients|, i requires 0 <= i < |s.clients| =>
          Client(s.clients[i].id, PushIfBound(s.clients[i].link, gateway, slot, Response(resources, version)))),
        s.stored.With(slot, s.stored.At(slot)[gateway := resources]))
    case Disconnect(id) =>
      s.(clients := Without(s.clients, id))
  }

  function RunFrom(s: State, events: seq<Event>): State {
    if events == [] then s
    else Step(RunFrom(s, events[..|events| - 1]), events[|events| - 1])
  }

  // ---------------------------------------------------------------------------------------------
  // One stream
  // ---------------------------------------------------------------------------------------------

  ghost predicate Connected(s: State, id: nat) {
    IndexOf(s.clients, id) < |s.clients|
  }

  function StreamOf(s: State, id: nat): Stream
    requires Connected(s, id)
  {
    s.clients[IndexOf(s.clients, id)].link
  }

  /** The events neither replace nor end the stream, and its requests come from one node. */
  ghost predicate OneStream(events: seq<Event>, id: nat, gateway: string) {
    forall e :: e in events ==>
      && e != Connect(id) && e != Disconnect(id)
      && (e.Ask? && e.id == id && Handled(e.request) ==> e.request.gateway == Some(gateway))
  }

  /** The stream was sent the stored list last. */
  predicate UpToDate(s: State, c: Stream, gateway: string, slot: Slot) {
    && gateway in s.stored.At(slot)
    && c.sent.At(slot) != []
    && c.sent.At(slot)[|c.sent.At(slot)| - 1].resources == s.stored.At(slot)[gateway]
  }

  /** A list is stored for the gateway but the stream was not sent it last. */
  predicate LeftBehind(s: State, c: Stream, gateway: string, slot: Slot) {
    gateway in s.stored.At(slot) && !UpToDate(s, c, gateway, slot)
  }

  /** The event is a request of the stream for the type that is not skipped, or a publication of
      the type while the stream is bound. */
  predicate Opens(s: State, e: Event, id: nat, gateway: string, slot: Slot)
    requires Connected(s, id)
  {
    var c := StreamOf(s, id);
    || (e.Ask? && e.id == id && Handled(e.request) && e.request.slot == Some(slot) && !Skipped(c, e.request))
    || (e.Publish? && e.gateway == gateway && e.slot == slot && c.gateway == Some(gateway))
  }

  /** What a stream of one node keeps: it is bound to that node's gateway or has been sent nothing;
      if it was sent anything of the type it is up to date; and `isOpen` records whether an opening
      event happened, after which it is up to date or nothing is stored. */
  ghost predicate StreamInv(s: State, id: nat, gateway: string, slot: Slot, isOpen: bool) {
    Connected(s, id) && StreamOk(s, StreamOf(s, id), gateway, slot, isOpen)
  }

  predicate StreamOk(s: State, c: Stream, gateway: string, slot: Slot, isOpen: bool) {
    && (c.gateway.Some? ==> c.gateway.value == gateway)
    && (c.sent.At(slot) != [] ==> UpToDate(s, c, gateway, slot) && isOpen)
    && (isOpen ==> c.gateway.Some? && !LeftBehind(s, c, gateway, slot))
  }

  lemma {:induction false} ServeOk(s: State, c: Stream, r: Request, gateway: string, slot: Slot, isOpen: bool)
    requires StreamOk(s, c, gateway, slot, isOpen) && Handled(r) && r.gateway == Some(gateway)
    ensures StreamOk(s, Serve(s.stored, c, r), gateway, slot, isOpen || (r.slot == Some(slot) && !Skipped(c, r)))
  {
    var c' := Serve(s.stored, c, r);
    if r.slot != Some(slot) || Skipped(c, r) {
      assert c'.sent.At(slot) == c.sent.At(slot);
    }
  }

  lemma {:induction false} PushOk(s: State, s': State, c: Stream, g: string, t: Slot, r: Response, gateway: string,
                                  slot: Slot, isOpen: bool)
    requires StreamOk(s, c, gateway, slot, isOpen)
    requires s'.stored == s.stored.With(t, s.stored.At(t)[g := r.resources])
    ensures StreamOk(s', PushIfBound(c, g, t, r), gateway, slot,
                     isOpen || (g == gateway && t == slot && c.gateway == Some(gateway)))
  {
    var c' := PushIfBound(c, g, t, r);
    if t != slot {
      assert c'.sent.At(slot) == c.sent.At(slot) && s'.stored.At(slot) == s.stored.At(slot);
    } else if c.gateway != Some(g) {
      assert c' == c;
    }
  }

  lemma {:induction false} StepKeepsPosition(s: State, e: Event, id: nat)
    requires DistinctIds(s.clients) && Connected(s, id)
    requires e != Connect(id) && e != Disconnect(id)
    ensures DistinctIds(Step(s, e).clients) && Connected(Step(s, e), id)
    ensures StreamOf(Step(s, e), id) ==
            match e
            case Ask(j, r) => if j == id && Handled(r) then Serve(s.stored, StreamOf(s, id), r) else StreamOf(s, id)
            case Publish(g, t, rs, v) => PushIfBound(StreamOf(s, id), g, t, Response(rs, v))
            case _ => StreamOf(s, id)
  {
    var at, s' := IndexOf(s.clients, id), Step(s, e);
    match e
    case Connect(j) =>
      PutDistinct(s.clients, j, Reconnected(s.clients, j));
      assert s'.clients[at] == s.clients[at];
      FoundAt(s'.clients, id, at);
    case Disconnect(j) =>
      WithoutDistinct(s.clients, j);
      assert s.clients[at] in s'.clients;
      var i :| 0 <= i < |s'.clients| && s'.clients[i] == s.clients[at];
      FoundAt(s'.clients, id, i);
    case _ =>
      SameIds(s.clients, s'.clients);
      FoundAt(s'.clients, id, at);
  }

  lemma {:induction false} FoundAt(clients: seq<Client<Stream>>, id: nat, at: nat)
    requires DistinctIds(clients) && at < |clients| && clients[at].id == id
    ensures IndexOf(clients, id) == at
  {
  }

  lemma {:induction false} StreamStep(s: State, e: Event, id: nat, gateway: string, slot: Slot, isOpen: bool)
    requires DistinctIds(s.clients) && OneStream([e], id, gateway)
    requires StreamInv(s, id, gateway, slot, isOpen)
    ensures DistinctIds(Step(s, e).clients)
    ensures StreamInv(Step(s, e), id, gateway, slot, isOpen || Opens(s, e, id, gateway, slot))
  {
    assert e in [e];
    StepKeepsPosition(s, e, id);
    var c := StreamOf(s, id);
    match e
    case Ask(j, r) =>
      if j == id && Handled(r) {
        ServeOk(s, c, r, gateway, slot, isOpen);
      }
    case Publish(g, t, rs, v) => PushOk(s, Step(s, e), c, g, t, Response(rs, v), gateway, slot, isOpen);
    case _ =>
  }

  /** Whether some event of the run opened the type on the stream. */
  ghost predicate Opened(s: State, events: seq<Event>, id: nat, gateway: string, slot: Slot) {
    exists k :: 0 <= k < |events| && OpensAt(s, events, k, id, gateway, slot)
  }

  ghost predicate OpensAt(s: State, events: seq<Event>, k: nat, id: nat, gateway: string, slot: Slot)
    requires k < |events|
  {
    var before := RunFrom(s, events[..k]);
    Connected(before, id) && Opens(before, events[k], id, gateway, slot)
  }

  /** A stream just connected, in any state of the server. */
  function Started(s: State, id: nat): State {
    Step(s, Connect(id))
  }

  lemma {:induction false} StreamRun(s: State, events: seq<Event>, id: nat, gateway: string, slot: Slot)
    requires DistinctIds(s.clients) && OneStream(events, id, gateway)
    ensures DistinctIds(RunFrom(Started(s, id), events).clients)
    ensures StreamInv(RunFrom(Started(s, id), events), id, gateway, slot,
                      Opened(Started(s, id), events, id, gateway, slot))
  {
    var start := Started(s, id);
    if events == [] {
      PutDistinct(s.clients, id, Reconnected(s.clients, id));
      var at := if Connected(s, id) then IndexOf(s.clients, id) else |s.clients|;
      FoundAt(start.clients, id, at);
    } else {
      var n := |events| - 1;
      var prefix, e := events[..n], events[n];
      assert e in events && forall x :: x in prefix ==> x in events;
      StreamRun(s, prefix, id, gateway, slot);
      var isOpen := Opened(start, prefix, id, gateway, slot);
      StreamStep(RunFrom(start, prefix), e, id, gateway, slot, isOpen);
      OpenedSnoc(start, events, id, gateway, slot);
    }
  }

  lemma {:induction false} OpenedSnoc(s: State, events: seq<Event>, id: nat, gateway: string, slot: Slot)
    requires events != []
    ensures Opened(s, events, id, gateway, slot) <==>
            || Opened(s, events[..|events| - 1], id, gateway, slot)
            || OpensAt(s, events, |events| - 1, id, gateway, slot)
  {
    var n := |events| - 1;
    assert forall k :: 0 <= k < n ==> events[..n][..k] == events[..k] && events[..n][k] == events[k];
    if k :| 0 <= k < n && OpensAt(s, events[..n], k, id, gateway, slot) {
      assert OpensAt(s, events, k, id, gateway, slot);
    }
    if k :| 0 <= k < |events| && OpensAt(s, events, k, id, gateway, slot) {
      assert k < n ==> OpensAt(s, events[..n], k, id, gateway, slot);
    }
  }

  // ---------------------------------------------------------------------------------------------
  // When the skip is harmless
  // ---------------------------------------------------------------------------------------------

  /** On a stream of one node, at every point: the stream is left behind on a type exactly when a
      list is stored and no event has opened the type. So a skipped request leaves the stream behind
      only if nothing was requested with another version, or pushed, before it. */
  lemma {:induction false} LeftBehindIff(s: State, events: seq<Event>, id: nat, gateway: string, slot: Slot)
    requires DistinctIds(s.clients) && OneStream(events, id, gateway)
    ensures var end := RunFrom(Started(s, id), events);
            && Connected(end, id)
            && (LeftBehind(end, StreamOf(end, id), gateway, slot) <==>
                gateway in end.stored.At(slot) && !Opened(Started(s, id), events, id, gateway, slot))
  {
    StreamRun(s, events, id, gateway, slot);
  }

  /** If the first handled request for a type has an empty version then, from it on, every stored
      list has been the last one sent: the "Versions match" skip never leaves the stream behind. */
  lemma {:induction false} EmptyFirstVersionNeverLeftBehind(s: State, events: seq<Event>, k: nat, id: nat,
                                                            gateway: string, slot: Slot)
    requires DistinctIds(s.clients) && OneStream(events, id, gateway)
    requires k < |events| && events[k].Ask? && events[k].id == id && Handled(events[k].request)
    requires events[k].request.slot == Some(slot) && events[k].request.version.Empty?
    ensures var end := RunFrom(Started(s, id), events);
            && Connected(end, id)
            && StreamOf(end, id).gateway == Some(gateway)
            && !LeftBehind(end, StreamOf(end, id), gateway, slot)
  {
    assert forall x :: x in events[..k] ==> x in events;
    StreamRun(s, events[..k], id, gateway, slot);
    assert OpensAt(Started(s, id), events, k, id, gateway, slot);
    StreamRun(s, events, id, gateway, slot);
  }

  /** The exact condition at the first request of a connection, fresh or under a known id: it is left
      without its stored list exactly if it repeats the version recorded for its id, which is 0 unless an
      earlier record of the id is still held. */
  lemma {:induction false} FirstRequestLeftBehindIff(s: State, id: nat, r: Request, slot: Slot)
    requires DistinctIds(s.clients) && Handled(r) && r.slot == Some(slot) && r.gateway.value in s.stored.At(slot)
    ensures var end := RunFrom(Started(s, id), [Ask(id, r)]);
            var recorded := if Connected(s, id) then StreamOf(s, id).versions.At(slot) else 0;
            && Connected(end, id)
            && (LeftBehind(end, StreamOf(end, id), r.gateway.value, slot) <==> r.version == Number(recorded))
  {
    var start := Started(s, id);
    JustConnected(s, id);
    assert [Ask(id, r)][..0] == [];
    assert RunFrom(start, [Ask(id, r)]) == Step(start, Ask(id, r));
    StepKeepsPosition(start, Ask(id, r), id);
  }

  lemma {:induction false} JustConnected(s: State, id: nat)
    requires DistinctIds(s.clients)
    ensures DistinctIds(Started(s, id).clients) && Connected(Started(s, id), id)
    ensures StreamOf(Started(s, id), id) == Reconnected(s.clients, id)
  {
    PutDistinct(s.clients, id, Reconnected(s.clients, id));
    var at := if Connected(s, id) then IndexOf(s.clients, id) else |s.clients|;
    FoundAt(Started(s, id).clients, id, at);
  }

  /** The failing family: a fresh stream whose first request repeats version 0, as a proxy does that
      reconnects after accepting the first published list, is skipped and sent nothing. */
  lemma {:induction false} ReconnectAtVersionZeroLeftBehind(s: State, id: nat, r: Request, slot: Slot)
    requires DistinctIds(s.clients) && !Connected(s, id)
    requires Handled(r) && r.slot == Some(slot) && r.version == Number(0)
    requires r.gateway.value in s.stored.At(slot)
    ensures var end := RunFrom(Started(s, id), [Ask(id, r)]);
            && Connected(end, id)
            && StreamOf(end, id).sent.At(slot) == []
            && LeftBehind(end, StreamOf(end, id), r.gateway.value, slot)
  {
    var start := Started(s, id);
    JustConnected(s, id);
    assert [Ask(id, r)][..0] == [];
    StepKeepsPosition(start, Ask(id, r), id);
  }

  /** A publication brings every stream bound to its gateway up to date. */
  lemma {:induction false} PublishHeals(s: State, id: nat, gateway: string, slot: Slot, resources: Resources,
                                        version: nat)
    requires DistinctIds(s.clients) && Connected(s, id) && StreamOf(s, id).gateway == Some(gateway)
    ensures var s' := Step(s, Publish(gateway, slot, resources, version));
            Connected(s', id) && UpToDate(s', StreamOf(s', id), gateway, slot)
  {
    StepKeepsPosition(s, Publish(gateway, slot, resources, version), id);
  }

  /** The single-node condition matters: a stream that was up to date for one gateway, and then asks
      from a node of another gateway with its recorded version, keeps the old gateway's list. */
  lemma {:induction false} ChangedNodeLeftBehind(s: State, id: nat, r: Request, slot: Slot)
    requires DistinctIds(s.clients) && Connected(s, id)
    requires Handled(r) && r.slot == Some(slot) && r.version == Number(StreamOf(s, id).versions.At(slot))
    requires StreamOf(s, id).gateway.Some? && UpToDate(s, StreamOf(s, id), StreamOf(s, id).gateway.value, slot)
    requires r.gateway.value in s.stored.At(slot)
    ensures var s' := Step(s, Ask(id, r));
            && Connected(s', id) && StreamOf(s', id).gateway == r.gateway
            && (LeftBehind(s', StreamOf(s', id), r.gateway.value, slot) <==>
                s.stored.At(slot)[r.gateway.value] != s.stored.At(slot)[StreamOf(s, id).gateway.value])
  {
    StepKeepsPosition(s, Ask(id, r), id);
  }

  // ---------------------------------------------------------------------------------------------
  // What is answered, and under which version
  // ---------------------------------------------------------------------------------------------

  /** The list stored for a gateway is sent under the version recorded for the stream, once, for a request
      of a known node whose version field is empty or another number, and for no other request. */
  lemma {:induction false} RequestAnswered(s: State, id: nat, r: Request, slot: Slot)
    requires DistinctIds(s.clients) && Connected(s, id)
    ensures Connected(Step(s, Ask(id, r)), id) && Step(s, Ask(id, r)).stored == s.stored
    ensures var c, c' := StreamOf(s, id), StreamOf(Step(s, Ask(id, r)), id);
            var known := !r.hasError && r.gateway.Some? && r.version != Malformed;
            && c'.versions == c.versions && c'.gateway == (if known then r.gateway else c.gateway)
            && c'.sent.At(slot) ==
               if known && r.slot == Some(slot) && r.gateway.value in s.stored.At(slot)
                  && r.version != Number(c.versions.At(slot))
               then c.sent.At(slot) + [Response(s.stored.At(slot)[r.gateway.value], c.versions.At(slot))]
               else c.sent.At(slot)
  {
    StepKeepsPosition(s, Ask(id, r), id);
  }

  ghost predicate Uninterrupted(events: seq<Event>, id: nat) {
    forall e :: e in events ==> e != Connect(id) && e != Disconnect(id)
  }

  /** The event publishes the type for the gateway that the stream is bound to. */
  ghost predicate Reaches(before: State, e: Event, id: nat, slot: Slot) {
    && e.Publish? && e.slot == slot
    && Connected(before, id) && StreamOf(before, id).gateway == Some(e.gateway)
  }

  /** The version of the last publication of the type that reached the stream, or else the given one. */
  ghost function LastReached(s: State, events: seq<Event>, id: nat, slot: Slot, first: nat): nat {
    if events == [] then first
    else
      var init, e := events[..|events| - 1], events[|events| - 1];
      if Reaches(RunFrom(s, init), e, id, slot) then e.version else LastReached(s, init, id, slot, first)
  }

  lemma {:induction false} StepVersions(s: State, e: Event, id: nat, slot: Slot)
    requires DistinctIds(s.clients) && Connected(s, id) && e != Connect(id) && e != Disconnect(id)
    ensures DistinctIds(Step(s, e).clients) && Connected(Step(s, e), id)
    ensures var c, c' := StreamOf(s, id), StreamOf(Step(s, e), id);
            if e.Publish? && e.slot == slot && c.gateway == Some(e.gateway) then
              && c'.versions.At(slot) == e.version
              && c'.sent.At(slot) == c.sent.At(slot) + [Response(e.resources, e.version)]
            else
              && c'.versions.At(slot) == c.versions.At(slot)
              && (c'.sent.At(slot) == c.sent.At(slot)
                  || (|c'.sent.At(slot)| == |c.sent.At(slot)| + 1
                      && c'.sent.At(slot)[|c.sent.At(slot)|].version == c.versions.At(slot)))
  {
    StepKeepsPosition(s, e, id);
  }

  /** The version is recorded for the type, and whatever was sent last of the type carries it. */
  ghost predicate Under(s: State, id: nat, slot: Slot, version: nat) {
    && DistinctIds(s.clients) && Connected(s, id)
    && StreamOf(s, id).versions.At(slot) == version
    && SentLastUnder(StreamOf(s, id).sent.At(slot), version)
  }

  predicate SentLastUnder(sent: seq<Response>, version: nat) {
    sent != [] ==> sent[|sent| - 1].version == version
  }

  lemma {:induction false} StepUnder(s: State, e: Event, id: nat, slot: Slot, version: nat)
    requires Under(s, id, slot, version) && e != Connect(id) && e != Disconnect(id)
    ensures Under(Step(s, e), id, slot, if Reaches(s, e, id, slot) then e.version else version)
  {
    StepVersions(s, e, id, slot);
  }

  /** In every run of one stream: the version recorded for a type is that of the last publication that
      reached the stream, or else the one that it was connected with; and whatever was sent last of the
      type carries that version. */
  lemma {:induction false} VersionsInRun(s: State, events: seq<Event>, id: nat, slot: Slot)
    requires DistinctIds(s.clients) && Uninterrupted(events, id)
    ensures var start := Started(s, id);
            var first := if Connected(s, id) then StreamOf(s, id).versions.At(slot) else 0;
            Under(RunFrom(start, events), id, slot, LastReached(start, events, id, slot, first))
  {
    if events == [] {
      JustConnected(s, id);
    } else {
      var n := |events| - 1;
      var init, first := events[..n], if Connected(s, id) then StreamOf(s, id).versions.At(slot) else 0;
      assert events[n] in events && forall x :: x in init ==> x in events;
      VersionsInRun(s, init, id, slot);
      StepUnder(RunFrom(Started(s, id), init), events[n], id, slot,
                LastReached(Started(s, id), init, id, slot, first));
    }
  }

  /** So an acknowledgement, which repeats the version of the last response of its type, is never answered. */
  lemma {:induction false} AcknowledgementUnanswered(s: State, events: seq<Event>, id: nat, r: Request, slot: Slot)
    requires DistinctIds(s.clients) && Uninterrupted(events, id)
    requires var end := RunFrom(Started(s, id), events);
             Connected(end, id) && StreamOf(end, id).sent.At(slot) != []
             && var sent := StreamOf(end, id).sent.At(slot);
                r.slot == Some(slot) && r.version == Number(sent[|sent| - 1].version)
    ensures var end := RunFrom(Started(s, id), events);
            && Connected(Step(end, Ask(id, r)), id)
            && StreamOf(Step(end, Ask(id, r)), id).sent == StreamOf(end, id).sent
  {
    VersionsInRun(s, events, id, slot);
    var end := RunFrom(Started(s, id), events);
    RequestAnswered(end, id, r, Primary);
    RequestAnswered(end, id, r, Secondary);
  }

  // ---------------------------------------------------------------------------------------------
  // Removal by address
  // ---------------------------------------------------------------------------------------------

  lemma {:induction false} ConnectedIff(s: State, id: nat)
    ensures Connected(s, id) <==> exists c :: c in s.clients && c.id == id
  {
  }

  lemma {:induction false} StepDistinct(s: State, e: Event)
    requires DistinctIds(s.clients)
    ensures DistinctIds(Step(s, e).clients)
  {
    match e
    case Connect(id) => PutDistinct(s.clients, id, Reconnected(s.clients, id));
    case Disconnect(id) => WithoutDistinct(s.clients, id);
    case _ => SameIds(s.clients, Step(s, e).clients);
  }

  lemma {:induction false} RunDistinct(s: State, events: seq<Event>)
    requires DistinctIds(s.clients)
    ensures DistinctIds(RunFrom(s, events).clients)
  {
    if events != [] {
      RunDistinct(s, events[..|events| - 1]);
      StepDistinct(RunFrom(s, events[..|events| - 1]), events[|events| - 1]);
    }
  }

  lemma {:induction false} StepKeepsOut(s: State, e: Event, id: nat)
    requires !Connected(s, id) && e != Connect(id)
    ensures !Connected(Step(s, e), id)
  {
    ConnectedIff(s, id);
    ConnectedIff(Step(s, e), id);
    forall c' | c' in Step(s, e).clients ensures c'.id != id {
      var i :| 0 <= i < |Step(s, e).clients| && Step(s, e).clients[i] == c';
    }
  }

  lemma {:induction false} StepConnectedIff(s: State, e: Event, id: nat)
    requires DistinctIds(s.clients)
    ensures Connected(Step(s, e), id) <==> e == Connect(id) || (Connected(s, id) && e != Disconnect(id))
  {
    if e == Connect(id) {
      JustConnected(s, id);
    } else if e == Disconnect(id) {
      WithoutDistinct(s.clients, id);
    } else if Connected(s, id) {
      StepKeepsPosition(s, e, id);
    } else {
      StepKeepsOut(s, e, id);
    }
  }

  /** As in the incremental servers: after a run from no clients an id is recorded exactly if some
      connection of the id was not followed by the end of any stream of that id. */
  lemma {:induction false} RunConnectedIff(s: State, events: seq<Event>, id: nat)
    requires s.clients == []
    ensures Connected(RunFrom(s, events), id) <==>
            exists i: nat :: NotEndedSince(events, i, Connect(id), Disconnect(id))
  {
    if events != [] {
      var n := |events| - 1;
      RunConnectedIff(s, events[..n], id);
      RunDistinct(s, events[..n]);
      NotEndedSnoc(events, Connect(id), Disconnect(id));
      StepConnectedIff(RunFrom(s, events[..n]), events[n], id);
    }
  }

  /** The overlap: once the end of its first stream follows a client's second connection, the server has
      no record of it, and no request of it changes anything. */
  lemma {:induction false} OverlapForgetsNewer(s: State, id: nat, r: Request)
    requires DistinctIds(s.clients)
    ensures var end := Step(Started(Started(s, id), id), Disconnect(id));
            !Connected(end, id) && Step(end, Ask(id, r)) == end
  {
    JustConnected(s, id);
    JustConnected(Started(s, id), id);
    StepConnectedIff(Started(Started(s, id), id), Disconnect(id), id);
  }

  // ---------------------------------------------------------------------------------------------
  // The server as the source has it
  // ---------------------------------------------------------------------------------------------

  class AggregateServer {
    var clients: seq<Client<Stream>>
    var clusters: map<string, Resources>
    var listeners: map<string, Resources>

    ghost function Abs(): State
      reads this
    {
      State(clients, PerSlot(listeners, clusters))
    }

    ghost predicate Valid()
      reads this
    {
      DistinctIds(clients)
    }

    constructor ()
      ensures Valid() && Abs() == State([], PerSlot(map[], map[]))
    {
      clients, clusters, listeners := [], map[], map[];
    }

    method AddOrReplaceClient(id: nat)
      requires Valid()
      modifies this
      ensures Valid() && Abs() == Step(old(Abs()), Connect(id))
    {
      PutDistinct(clients, id, Reconnected(clients, id));
      var i := Find(clients, id);
      if i < |clients| {
        clients := clients[i := Client(id, Stream(None, clients[i].link.versions, PerSlot([], [])))];
      } else {
        clients := clients + [Client(id, Stream(None, PerSlot(0, 0), PerSlot([], [])))];
      }
    }

    method RemoveClient(id: nat)
      requires Valid()
      modifies this
      ensures Valid() && Abs() == Step(old(Abs()), Disconnect(id))
    {
      WithoutDistinct(clients, id);
      clients := Retain(clients, id);
    }

    method HandleRequest(id: nat, r: Request)
      requires Valid()
      modifies this
      ensures Valid() && Abs() == Step(old(Abs()), Ask(id, r))
    {
      if r.hasError || r.gateway.None? || r.version.Malformed? {
        return;
      }
      var firstConnect := r.version.Empty?;
      var incoming := if firstConnect then 0 else r.version.value;
      var i := Find(clients, id);
      if i == |clients| {
        return;
      }
      var stream := clients[i].link.(gateway := r.gateway);
      clients := clients[i := Client(id, stream)];
      if r.slot.None? {
        return;
      }
      var slot := r.slot.value;
      var recorded := stream.versions.At(slot);
      if !firstConnect && incoming == recorded {
        return;
      }
      var mapping := if slot.Primary? then listeners else clusters;
      if r.gateway.value in mapping {
        clients := clients[i := Client(id, Send(stream, slot, Response(mapping[r.gateway.value], recorded)))];
      }
    }

    method PublishList(gateway: string, slot: Slot, resources: Resources, version: nat)
      requires Valid()
      modifies this
      ensures Valid() && Abs() == Step(old(Abs()), Publish(gateway, slot, resources, version))
    {
      if slot.Primary? {
        listeners := listeners[gateway := resources];
      } else {
        clusters := clusters[gateway := resources];
      }
      ghost var before := clients;
      var response := Response(resources, version);
      var i := 0;
      while i < |clients|
        invariant 0 <= i <= |clients| == |before|
        invariant PerSlot(listeners, clusters)
                  == old(Abs()).stored.With(slot, old(Abs()).stored.At(slot)[gateway := resources])
        invariant forall j :: 0 <= j < i ==>
                    clients[j] == Client(before[j].id, PushIfBound(before[j].link, gateway, slot, response))
        invariant forall j :: i <= j < |clients| ==> clients[j] == before[j]
      {
        var stream := clients[i].link;
        if stream.gateway == Some(gateway) {
          stream := Send(stream, slot, response);
          stream := stream.(versions := stream.versions.With(slot, version));
          clients := clients[i := Client(clients[i].id, stream)];
        }
        i := i + 1;
      }
      SameIds(before, clients);
    }
  }
}
