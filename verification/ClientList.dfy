/**
 The list of connected clients that every xDS server keeps (`AdsClients`): records found by client
 id, replaced on reconnection, copied out, changed and written back by id.
 */
module ClientList {

  datatype Client<T> = Client(id: nat, link: T)

  ghost predicate DistinctIds<T>(clients: seq<Client<T>>) {
    forall i, j :: 0 <= i < j < |clients| ==> clients[i].id != clients[j].id
  }

  /** The position of the first client with the id, or the length of the list. */
  function IndexOf<T>(clients: seq<Client<T>>, id: nat): (i: nat)
    ensures i <= |clients|
    ensures i < |clients| ==> clients[i].id == id
    ensures forall j :: 0 <= j < i ==> clients[j].id != id
  {
    if clients == [] then 0
    else if clients[0].id == id then 0
    else 1 + IndexOf(clients[1..], id)
  }

  /** Adds a client, or replaces the record of the client with the same id. */
  function Put<T>(clients: seq<Client<T>>, id: nat, link: T): seq<Client<T>> {
    var i := IndexOf(clients, id);
    if i < |clients| then clients[i := Client(id, link)] else clients + [Client(id, link)]
  }

  function Without<T(==,!new)>(clients: seq<Client<T>>, id: nat): (out: seq<Client<T>>)
    ensures forall c :: c in out <==> c in clients && c.id != id
  {
    if clients == [] then []
    else
      var n := |clients| - 1;
      assert clients == clients[..n] + [clients[n]];
      Without(clients[..n], id) + (if clients[n].id == id then [] else [clients[n]])
  }

  method Find<T>(clients: seq<Client<T>>, id: nat) returns (i: nat)
    ensures i == IndexOf(clients, id)
  {
    i := 0;
    while i < |clients| && clients[i].id != id
      invariant 0 <= i <= |clients|
      invariant IndexOf(clients, id) == i + IndexOf(clients[i..], id)
    {
      assert clients[i..][1..] == clients[i + 1..];
      i := i + 1;
    }
  }

  method Retain<T(==,!new)>(clients: seq<Client<T>>, id: nat) returns (kept: seq<Client<T>>)
    ensures kept == Without(clients, id)
  {
    kept := [];
    for i := 0 to |clients|
      invariant kept == Without(clients[..i], id)
    {
      var upTo := clients[..i + 1];
      assert upTo[..i] == clients[..i] && upTo[i] == clients[i];
      if clients[i].id != id {
        kept := kept + [clients[i]];
      }
    }
    assert clients[..|clients|] == clients;
  }

  lemma {:induction false} PutDistinct<T>(clients: seq<Client<T>>, id: nat, link: T)
    requires DistinctIds(clients)
    ensures DistinctIds(Put(clients, id, link))
  {
    var i := IndexOf(clients, id);
    if i < |clients| {
      SameIds(clients, clients[i := Client(id, link)]);
    }
  }

  lemma {:induction false} WithoutDistinct<T(!new)>(clients: seq<Client<T>>, id: nat)
    requires DistinctIds(clients)
    ensures DistinctIds(Without(clients, id))
  {
    if clients != [] {
      var n := |clients| - 1;
      assert clients == clients[..n] + [clients[n]];
      WithoutDistinct(clients[..n], id);
      var rest := Without(clients[..n], id);
      forall j | 0 <= j < |rest| ensures rest[j].id != clients[n].id {
        assert rest[j] in clients[..n];
      }
    }
  }

  lemma {:induction false} SameIds<T>(clients: seq<Client<T>>, clients': seq<Client<T>>)
    requires DistinctIds(clients) && |clients'| == |clients|
    requires forall i :: 0 <= i < |clients| ==> clients'[i].id == clients[i].id
    ensures DistinctIds(clients')
  {
  }

  /** `now` is `before` with exactly the clients whose id is in `done` replaced by `after`. */
  ghost predicate PartlyReplaced<T>(before: seq<Client<T>>, after: seq<Client<T>>, now: seq<Client<T>>,
                                    done: set<nat>) {
    && |now| == |before| == |after|
    && forall i :: 0 <= i < |now| ==> now[i] == if before[i].id in done then after[i] else before[i]
  }

  /** With distinct ids, an id finds its client in a partly replaced list, and writing the new record
      back there extends the part that is done. */
  lemma {:induction false} ReplaceOneMore<T>(before: seq<Client<T>>, after: seq<Client<T>>, now: seq<Client<T>>,
                                             done: set<nat>, at: nat)
    requires DistinctIds(before) && |before| == |after| && at < |before| && before[at].id !in done
    requires forall i :: 0 <= i < |before| ==> after[i].id == before[i].id
    requires PartlyReplaced(before, after, now, done)
    ensures IndexOf(now, before[at].id) == at && now[at] == before[at]
    ensures PartlyReplaced(before, after, now[at := after[at]], done + {before[at].id})
  {
    assert forall i :: 0 <= i < |now| ==> now[i].id == before[i].id;
    var i := IndexOf(now, before[at].id);
    assert now[at].id == before[at].id;
  }

  function IdsOf<T(==,!new)>(clients: seq<Client<T>>): set<nat> {
    set c | c in clients :: c.id
  }

  /** The next chosen client is found where it was, and writing its new record back extends the done part. */
  lemma {:induction false} ReplaceChosen<T(!new)>(before: seq<Client<T>>, after: seq<Client<T>>, now: seq<Client<T>>,
                                                  chosen: seq<Client<T>>, k: nat) returns (at: nat)
    requires DistinctIds(before) && |before| == |after| && DistinctIds(chosen) && k < |chosen|
    requires forall i :: 0 <= i < |before| ==> after[i].id == before[i].id
    requires chosen[k] in before
    requires PartlyReplaced(before, after, now, IdsOf(chosen[..k]))
    ensures at < |before| && before[at] == chosen[k]
    ensures IndexOf(now, chosen[k].id) == at && now[at] == chosen[k]
    ensures PartlyReplaced(before, after, now[at := after[at]], IdsOf(chosen[..k + 1]))
  {
    at :| 0 <= at < |before| && before[at] == chosen[k];
    assert chosen[..k + 1] == chosen[..k] + [chosen[k]];
    assert IdsOf(chosen[..k + 1]) == IdsOf(chosen[..k]) + {chosen[k].id};
    ReplaceOneMore(before, after, now, IdsOf(chosen[..k]), at);
  }

  /** With distinct ids, a client's id occurs in a selection exactly when the client does. */
  lemma {:induction false} SelectedIds<T(!new)>(before: seq<Client<T>>, chosen: seq<Client<T>>, c: Client<T>)
    requires DistinctIds(before) && c in before
    requires forall x :: x in chosen ==> x in before
    ensures c.id in IdsOf(chosen) <==> c in chosen
  {
  }

  /** Event `i` connected a client, and no stream of its id ended since: for the two events of the id. */
  ghost predicate NotEndedSince<E>(events: seq<E>, i: nat, connects: E, ends: E) {
    i < |events| && events[i] == connects && forall j :: i < j < |events| ==> events[j] != ends
  }

  lemma {:induction false} NotEndedSnoc<E>(events: seq<E>, connects: E, ends: E)
    requires events != [] && connects != ends
    ensures var e, init := events[|events| - 1], events[..|events| - 1];
            (exists i: nat :: NotEndedSince(events, i, connects, ends)) <==>
            e == connects || (e != ends && exists i: nat :: NotEndedSince(init, i, connects, ends))
  {
    var n := |events| - 1;
    var init := events[..n];
    forall i: nat | i < n
      ensures NotEndedSince(events, i, connects, ends) <==>
              NotEndedSince(init, i, connects, ends) && events[n] != ends
    {
      assert forall j :: 0 <= j < n ==> init[j] == events[j];
    }
    if events[n] == connects {
      assert NotEndedSince(events, n, connects, ends);
    }
  }
}
