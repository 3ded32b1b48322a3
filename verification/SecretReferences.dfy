/**
 The resolver that counts references by a multiset of gateways under each key. Adding counts a gateway
 once more; deleting removes one occurrence, and the key with its resolved value when that was the last
 occurrence of any gateway.
 */
module SecretReferences {
  import opened Prelude
  import PV = PolledValues

  type Key = ResourceKey

  type Value = PV.Value

  datatype State = State(references: map<Key, multiset<Key>>, resolved: map<Key, Value>)

  /** The keys of a call are a set, listed in its order. */
  datatype Event =
    | Add(gateway: Key, keys: seq<Key>)
    | Delete(gateway: Key, keys: seq<Key>)
    | Poll(key: Key, result: Option<Value>)

  ghost predicate Distinct(keys: seq<Key>) {
    forall i, j :: 0 <= i < j < |keys| ==> keys[i] != keys[j]
  }

  function Of(s: State, key: Key): multiset<Key> {
    if key in s.references then s.references[key] else multiset{}
  }

  function Multiplicity(s: State, key: Key, gateway: Key): nat {
    Of(s, key)[gateway]
  }

  function AddOne(s: State, gateway: Key, key: Key): State {
    s.(references := s.references[key := Of(s, key) + multiset{gateway}])
  }

  function DeleteOne(s: State, gateway: Key, key: Key): State {
    if key in s.references && gateway in s.references[key] then
      var left := s.references[key] - multiset{gateway};
      if left == multiset{} then State(s.references - {key}, s.resolved - {key})
      else s.(references := s.references[key := left])
    else s
  }

  function AddAll(s: State, gateway: Key, keys: seq<Key>): State {
    if keys == [] then s else AddOne(AddAll(s, gateway, keys[..|keys| - 1]), gateway, keys[|keys| - 1])
  }

  function DeleteAll(s: State, gateway: Key, keys: seq<Key>): State {
    if keys == [] then s else DeleteOne(DeleteAll(s, gateway, keys[..|keys| - 1]), gateway, keys[|keys| - 1])
  }

  /** A poll overwrites the stored value only if it differs beyond its metadata. */
  function Resolve(resolved: map<Key, Value>, key: Key, result: Option<Value>): map<Key, Value> {
    match result
    case Some(v) => if key in resolved && resolved[key].body == v.body then resolved else resolved[key := v]
    case None => resolved - {key}
  }

  function Step(s: State, e: Event): State {
    match e
    case Add(g, keys) => AddAll(s, g, keys)
    case Delete(g, keys) => DeleteAll(s, g, keys)
    case Poll(k, result) => s.(resolved := Resolve(s.resolved, k, result))
  }

  function Run(es: seq<Event>): State {
    if es == [] then State(map[], map[]) else Step(Run(es[..|es| - 1]), es[|es| - 1])
  }

  ghost predicate KeysDistinct(es: seq<Event>) {
    forall i :: 0 <= i < |es| && !es[i].Poll? ==> Distinct(es[i].keys)
  }

  // ---------------------------------------------------------------------------------------------
  // One call, key by key
  // ---------------------------------------------------------------------------------------------

  lemma {:induction false} LastOccurrence(was: multiset<Key>, gateway: Key)
    ensures gateway !in was ==> was - multiset{gateway} == was
    ensures gateway in was ==> (was - multiset{gateway} == multiset{} <==> was == multiset{gateway})
  {
    if gateway in was && was - multiset{gateway} == multiset{} {
      assert was == (was - multiset{gateway}) + multiset{gateway};
    }
  }

  /** An add counts the gateway once more under each of its keys, and touches nothing else. */
  lemma {:induction false} AddAllAt(s: State, gateway: Key, keys: seq<Key>, key: Key)
    requires Distinct(keys)
    ensures var after := AddAll(s, gateway, keys);
            && Of(after, key) == (if key in keys then Of(s, key) + multiset{gateway} else Of(s, key))
            && (key in after.references <==> key in s.references || key in keys)
            && after.resolved == s.resolved
  {
    if keys != [] {
      var n := |keys| - 1;
      assert keys == keys[..n] + [keys[n]];
      AddAllAt(s, gateway, keys[..n], key);
      AddAllAt(s, gateway, keys[..n], keys[n]);
    }
  }

  ghost predicate SameAt(s: State, after: State, key: Key) {
    && (key in after.references <==> key in s.references)
    && (key in s.references ==> after.references[key] == s.references[key])
    && (key in after.resolved <==> key in s.resolved)
    && (key in s.resolved ==> after.resolved[key] == s.resolved[key])
  }

  lemma {:induction false} DeleteOneElsewhere(s: State, gateway: Key, deleted: Key, key: Key)
    requires key != deleted
    ensures SameAt(s, DeleteOne(s, gateway, deleted), key)
  {
  }

  /** What a delete does at a key of its own is what it does to that key alone. */
  lemma {:induction false} DeleteAllAt(s: State, gateway: Key, keys: seq<Key>, key: Key)
    requires Distinct(keys)
    ensures SameAt(if key in keys then DeleteOne(s, gateway, key) else s, DeleteAll(s, gateway, keys), key)
  {
    if keys != [] {
      var n := |keys| - 1;
      assert keys == keys[..n] + [keys[n]];
      var mid := DeleteAll(s, gateway, keys[..n]);
      DeleteAllAt(s, gateway, keys[..n], key);
      if key != keys[n] {
        DeleteOneElsewhere(mid, gateway, keys[n], key);
      } else {
        DeleteOneSame(s, mid, gateway, key);
      }
    }
  }

  lemma {:induction false} DeleteOneSame(s: State, mid: State, gateway: Key, key: Key)
    requires SameAt(s, mid, key)
    ensures SameAt(DeleteOne(s, gateway, key), DeleteOne(mid, gateway, key), key)
  {
  }

  /** A delete of one key removes one occurrence; if it was the last, key and value go. */
  lemma {:induction false} DeleteOneAt(s: State, gateway: Key, key: Key)
    ensures var after := DeleteOne(s, gateway, key);
            && Of(after, key) == Of(s, key) - multiset{gateway}
            && (key in after.references <==> key in s.references && Of(s, key) != multiset{gateway})
            && (key in after.resolved <==> key in s.resolved && Of(s, key) != multiset{gateway})
            && (key in after.resolved ==> after.resolved[key] == s.resolved[key])
  {
    LastOccurrence(Of(s, key), gateway);
  }

  // ---------------------------------------------------------------------------------------------
  // Multiplicity over whole runs
  // ---------------------------------------------------------------------------------------------

  /** +1 for an add of the pair, -1 for a delete. */
  function Change(e: Event, key: Key, gateway: Key): int {
    match e
    case Add(g, keys) => if g == gateway && key in keys then 1 else 0
    case Delete(g, keys) => if g == gateway && key in keys then -1 else 0
    case Poll(_, _) => 0
  }

  lemma {:induction false} StepMultiplicity(s: State, e: Event, key: Key, gateway: Key)
    requires !e.Poll? ==> Distinct(e.keys)
    ensures var sum := Multiplicity(s, key, gateway) + Change(e, key, gateway);
            Multiplicity(Step(s, e), key, gateway) == if sum < 0 then 0 else sum
  {
    match e
    case Add(g, keys) =>
      AddAllAt(s, g, keys, key);
      OccurrencesAt(Of(s, key), g, gateway);
    case Delete(g, keys) => DeleteMultiplicity(s, g, keys, key, gateway);
    case Poll(_, _) =>
  }

  lemma {:induction false} OccurrencesAt(was: multiset<Key>, g: Key, x: Key)
    ensures (was + multiset{g})[x] == was[x] + if x == g then 1 else 0
    ensures (was - multiset{g})[x] == if x == g && was[x] > 0 then was[x] - 1 else was[x]
  {
  }

  lemma {:induction false} DeleteMultiplicity(s: State, g: Key, keys: seq<Key>, key: Key, gateway: Key)
    requires Distinct(keys)
    ensures Multiplicity(DeleteAll(s, g, keys), key, gateway) ==
            if key in keys && g == gateway && Multiplicity(s, key, gateway) > 0
            then Multiplicity(s, key, gateway) - 1 else Multiplicity(s, key, gateway)
  {
    DeleteAllAt(s, g, keys, key);
    if key in keys {
      DeleteOneAt(s, g, key);
      OccurrencesAt(Of(s, key), g, gateway);
    }
  }

  /** Adds minus deletes among the calls from position `from` on. */
  function Balance(es: seq<Event>, from: nat, key: Key, gateway: Key): int {
    if |es| <= from then 0
    else Balance(es[..|es| - 1], from, key, gateway) + Change(es[|es| - 1], key, gateway)
  }

  /** After every run, a gateway's multiplicity is the greatest balance of adds over deletes that any
      suffix of the run has; so deletes without a matching earlier add are forgotten. */
  lemma {:induction false} RunMultiplicity(es: seq<Event>, key: Key, gateway: Key)
    requires KeysDistinct(es)
    ensures forall i: nat :: i <= |es| ==> Balance(es, i, key, gateway) <= Multiplicity(Run(es), key, gateway)
    ensures exists i: nat :: i <= |es| && Balance(es, i, key, gateway) == Multiplicity(Run(es), key, gateway)
  {
    if es == [] {
      assert Balance(es, 0, key, gateway) == 0;
    } else {
      var n := |es| - 1;
      var init, e := es[..n], es[n];
      RunMultiplicity(init, key, gateway);
      StepMultiplicity(Run(init), e, key, gateway);
      var i: nat :| i <= n && Balance(init, i, key, gateway) == Multiplicity(Run(init), key, gateway);
      assert Balance(es, i, key, gateway) == Balance(init, i, key, gateway) + Change(e, key, gateway);
      assert Balance(es, |es|, key, gateway) == 0;
    }
  }

  function Adds(es: seq<Event>, key: Key, gateway: Key): nat {
    if es == [] then 0
    else Adds(es[..|es| - 1], key, gateway) + if Change(es[|es| - 1], key, gateway) == 1 then 1 else 0
  }

  /** Deletes that found an occurrence to remove. */
  function SuccessfulDeletes(es: seq<Event>, key: Key, gateway: Key): nat {
    if es == [] then 0
    else
      var init := es[..|es| - 1];
      SuccessfulDeletes(init, key, gateway)
      + if Change(es[|es| - 1], key, gateway) == -1 && Multiplicity(Run(init), key, gateway) > 0 then 1 else 0
  }

  lemma {:induction false} RunAddsMinusDeletes(es: seq<Event>, key: Key, gateway: Key)
    requires KeysDistinct(es)
    ensures Multiplicity(Run(es), key, gateway) == Adds(es, key, gateway) - SuccessfulDeletes(es, key, gateway)
  {
    if es != [] {
      RunAddsMinusDeletes(es[..|es| - 1], key, gateway);
      StepMultiplicity(Run(es[..|es| - 1]), es[|es| - 1], key, gateway);
    }
  }

  // ---------------------------------------------------------------------------------------------
  // Presence and values
  // ---------------------------------------------------------------------------------------------

  ghost predicate NotEmptyAt(s: State, key: Key) {
    key in s.references ==> s.references[key] != multiset{}
  }

  lemma {:induction false} RunNotEmpty(es: seq<Event>, key: Key)
    requires KeysDistinct(es)
    ensures NotEmptyAt(Run(es), key)
  {
    if es != [] {
      var s, e := Run(es[..|es| - 1]), es[|es| - 1];
      RunNotEmpty(es[..|es| - 1], key);
      match e
      case Add(g, keys) =>
        AddAllAt(s, g, keys, key);
        assert key in keys ==> g in Of(Step(s, e), key);
      case Delete(g, keys) =>
        DeleteAllAt(s, g, keys, key);
        DeleteOneAt(s, g, key);
        LastOccurrence(Of(s, key), g);
      case Poll(_, _) =>
    }
  }

  ghost predicate Outstanding(es: seq<Event>, key: Key, gateway: Key) {
    exists i: nat :: i <= |es| && Balance(es, i, key, gateway) > 0
  }

  lemma {:induction false} OutstandingIff(es: seq<Event>, key: Key, gateway: Key)
    requires KeysDistinct(es)
    ensures Outstanding(es, key, gateway) <==> Multiplicity(Run(es), key, gateway) > 0
  {
    RunMultiplicity(es, key, gateway);
  }

  /** After every run, a key is present exactly if some suffix of the run added it for some gateway more
      often than it deleted it. */
  lemma {:induction false} RunPresentIff(es: seq<Event>, key: Key)
    requires KeysDistinct(es)
    ensures key in Run(es).references <==> exists g :: Outstanding(es, key, g)
  {
    RunNotEmpty(es, key);
    if key in Run(es).references {
      var g :| g in Run(es).references[key];
      OutstandingIff(es, key, g);
    }
    if g :| Outstanding(es, key, g) {
      OutstandingIff(es, key, g);
    }
  }

  /** A call other than a poll drops a present key, or a stored value, exactly if it is the delete that
      removes the key's last occurrence; the values it keeps are unchanged. */
  lemma {:induction false} DroppedIff(es: seq<Event>, e: Event, key: Key)
    requires KeysDistinct(es) && !e.Poll? && Distinct(e.keys)
    ensures var s, after := Run(es), Step(Run(es), e);
            var last := e.Delete? && key in e.keys && Of(s, key) == multiset{e.gateway};
            && (key in s.references ==> (key !in after.references <==> last))
            && (key in s.resolved ==> (key !in after.resolved <==> last))
            && (key in after.resolved ==> key in s.resolved && after.resolved[key] == s.resolved[key])
  {
    var s := Run(es);
    match e
    case Add(g, keys) => AddAllAt(s, g, keys, key);
    case Delete(g, keys) =>
      DeleteAllAt(s, g, keys, key);
      DeleteOneAt(s, g, key);
  }

  /** Call `i` polled a value for the key, which nothing has referenced from then on, and no later poll
      missed it. */
  ghost predicate LatePoll(es: seq<Event>, key: Key, i: nat) {
    && i < |es| && es[i].Poll? && es[i].key == key && es[i].result.Some?
    && UnreferencedFrom(es, i, key) && NeverMissed(es, i, key)
  }

  ghost predicate UnreferencedFrom(es: seq<Event>, i: nat, key: Key) {
    forall m: nat :: i <= m <= |es| ==> UnreferencedAfter(es, m, key)
  }

  ghost predicate NeverMissed(es: seq<Event>, i: nat, key: Key) {
    forall j: nat :: i < j < |es| ==> es[j] != Poll(key, None)
  }

  ghost predicate UnreferencedAfter(es: seq<Event>, m: nat, key: Key)
    requires m <= |es|
  {
    key !in Run(es[..m]).references
  }

  lemma {:induction false} LatePollExtends(es: seq<Event>, e: Event, key: Key, i: nat)
    requires i < |es|
    ensures LatePoll(es + [e], key, i) <==>
            LatePoll(es, key, i) && key !in Run(es + [e]).references && e != Poll(key, None)
  {
    UnreferencedExtends(es, e, key, i);
    NeverMissedExtends(es, e, key, i);
    assert (es + [e])[i] == es[i];
  }

  lemma {:induction false} UnreferencedExtends(es: seq<Event>, e: Event, key: Key, i: nat)
    requires i <= |es|
    ensures UnreferencedFrom(es + [e], i, key) <==>
            UnreferencedFrom(es, i, key) && key !in Run(es + [e]).references
  {
    var more := es + [e];
    assert more[..|more|] == more;
    forall m: nat | i <= m <= |es| ensures UnreferencedAfter(more, m, key) <==> UnreferencedAfter(es, m, key) {
      assert more[..m] == es[..m];
    }
    assert UnreferencedAfter(more, |more|, key) <==> key !in Run(more).references;
  }

  lemma {:induction false} NeverMissedExtends(es: seq<Event>, e: Event, key: Key, i: nat)
    requires i < |es|
    ensures NeverMissed(es + [e], i, key) <==> NeverMissed(es, i, key) && e != Poll(key, None)
  {
    var more := es + [e];
    assert more[|es|] == e && forall j: nat :: j < |es| ==> more[j] == es[j];
  }

  lemma {:induction false} LatePollLast(es: seq<Event>, e: Event, key: Key)
    ensures LatePoll(es + [e], key, |es|) <==>
            e.Poll? && e.key == key && e.result.Some? && key !in Run(es).references
  {
    var more := es + [e];
    assert more[..|es|] == es && more[..|more|] == more && more[..|more| - 1] == es;
    assert UnreferencedAfter(more, |es|, key) <==> key !in Run(es).references;
    if e.Poll? {
      assert Run(more).references == Run(es).references;
      assert UnreferencedAfter(more, |more|, key) <==> key !in Run(es).references;
    }
  }

  ghost predicate Leftover(s: State, key: Key) {
    key in s.resolved && key !in s.references
  }

  /** One more call leaves a leftover exactly if it polls a value for an unreferenced key, or there was
      one and the call neither references the key nor polls it missing. */
  lemma {:induction false} StepLeftover(es: seq<Event>, e: Event, key: Key)
    requires KeysDistinct(es) && (!e.Poll? ==> Distinct(e.keys))
    ensures var s, after := Run(es), Step(Run(es), e);
            Leftover(after, key) <==>
            || (e.Poll? && e.key == key && e.result.Some? && key !in s.references)
            || (Leftover(s, key) && key !in after.references && e != Poll(key, None))
  {
    if !e.Poll? {
      DroppedIff(es, e, key);
      if key in Run(es).references && e.Add? {
        AddAllAt(Run(es), e.gateway, e.keys, key);
      }
    }
  }

  /** After every run, a value is stored for a key that nothing references exactly if some poll answered
      with one while the key was unreferenced, and it has stayed so, without a poll that missed it. */
  lemma {:induction false} LeftoverIff(es: seq<Event>, key: Key)
    requires KeysDistinct(es)
    ensures Leftover(Run(es), key) <==> exists i: nat :: LatePoll(es, key, i)
  {
    if es != [] {
      var n := |es| - 1;
      var init, e := es[..n], es[n];
      assert es == init + [e];
      LeftoverIff(init, key);
      StepLeftover(init, e, key);
      LatePollLast(init, e, key);
      forall i: nat | i < n
        ensures LatePoll(es, key, i) <==>
                LatePoll(init, key, i) && key !in Run(es).references && e != Poll(key, None)
      {
        LatePollExtends(init, e, key, i);
      }
      assert forall i: nat :: LatePoll(es, key, i) ==> i <= n;
    }
  }

  /** For instance, a poll answered after the last reference is gone leaves a value that no gateway
      references and no delete drops. */
  lemma {:induction false} LatePollKept(es: seq<Event>, key: Key, v: Value, deletes: seq<Event>)
    requires KeysDistinct(es) && key !in Run(es).references
    requires KeysDistinct(deletes) && forall i :: 0 <= i < |deletes| ==> deletes[i].Delete?
    ensures var s := Run(es + [Poll(key, Some(v))] + deletes); key !in s.references && key in s.resolved
    decreases |deletes|
  {
    var polled := es + [Poll(key, Some(v))];
    if deletes == [] {
      assert polled + deletes == polled && polled[..|polled| - 1] == es;
    } else {
      var n := |deletes| - 1;
      LatePollKept(es, key, v, deletes[..n]);
      var before := polled + deletes[..n];
      assert (polled + deletes)[..|polled + deletes| - 1] == before;
      DroppedIff(before, deletes[n], key);
      DeleteAllAt(Run(before), deletes[n].gateway, deletes[n].keys, key);
      assert Of(Run(before), key) == multiset{};
    }
  }

  // ---------------------------------------------------------------------------------------------
  // The stored values
  // ---------------------------------------------------------------------------------------------

  /** What an event means for the value stored for a key: a poll of it answers; another call that
      takes it from the references drops it. */
  function MarkOf(s: State, e: Event, key: Key): PV.Mark {
    if e.Poll? then (if e.key == key then PV.Answered(e.result) else PV.Untouched)
    else if key in s.references && key !in Step(s, e).references then PV.Dropped
    else PV.Untouched
  }

  function MarksOf(events: seq<Event>, key: Key): (ms: seq<PV.Mark>)
    ensures |ms| == |events|
    ensures forall k :: 0 <= k < |ms| && PV.Gives(ms[k]) ==>
              events[k].Poll? && events[k].key == key && events[k].result == ms[k].result
  {
    if events == [] then []
    else
      var n := |events| - 1;
      MarksOf(events[..n], key) + [MarkOf(Run(events[..n]), events[n], key)]
  }

  lemma {:induction false} StepHeld(es: seq<Event>, e: Event, key: Key)
    requires KeysDistinct(es) && (!e.Poll? ==> Distinct(e.keys))
    ensures PV.Lookup(Step(Run(es), e).resolved, key)
            == PV.After(PV.Lookup(Run(es).resolved, key), MarkOf(Run(es), e, key))
  {
    if !e.Poll? {
      DroppedIff(es, e, key);
    }
  }

  lemma {:induction false} HeldInRun(events: seq<Event>, key: Key)
    requires KeysDistinct(events)
    ensures PV.Lookup(Run(events).resolved, key) == PV.HeldAfter(MarksOf(events, key))
  {
    if events != [] {
      var n := |events| - 1;
      var ms := MarksOf(events, key);
      HeldInRun(events[..n], key);
      assert ms[..|ms| - 1] == MarksOf(events[..n], key);
      StepHeld(events[..n], events[n], key);
    }
  }

  /** After every run a key has a value exactly if its last poll answered with one and no call dropped
      it since. The body is the one of that poll; as a whole the value is that of the first poll since
      which the body is the same, so its metadata may be older. */
  lemma {:induction false} StoredIs(events: seq<Event>, key: Key)
    requires KeysDistinct(events)
    ensures var ms, value := MarksOf(events, key), PV.Lookup(Run(events).resolved, key);
            && (value.Some? <==> exists i: nat :: PV.LastGiven(ms, i))
            && (forall i: nat :: PV.LastGiven(ms, i) ==> value.value.body == events[i].result.value.body)
            && (value.Some? <==> exists i: nat :: PV.FirstSame(ms, i))
            && (forall i: nat :: PV.FirstSame(ms, i) ==> value == events[i].result)
  {
    HeldInRun(events, key);
    PV.HeldIs(MarksOf(events, key));
  }

  // ---------------------------------------------------------------------------------------------
  // The resolver as the source has it
  // ---------------------------------------------------------------------------------------------

  class ReferencesResolver {
    var references: map<Key, multiset<Key>>
    var resolved: map<Key, Value>

    constructor ()
      ensures Abs() == Run([])
    {
      references, resolved := map[], map[];
    }

    function Abs(): State
      reads this
    {
      State(references, resolved)
    }

    method AddReferencesForGateway(gateway: Key, keys: seq<Key>)
      modifies this`references
      ensures Abs() == Step(old(Abs()), Add(gateway, keys))
    {
      if keys == [] {
        return;
      }
      for i := 0 to |keys|
        invariant Abs() == AddAll(old(Abs()), gateway, keys[..i])
      {
        assert keys[..i + 1][..i] == keys[..i];
        if keys[i] in references {
          references := references[keys[i] := references[keys[i]] + multiset{gateway}];
        } else {
          references := references[keys[i] := multiset{} + multiset{gateway}];
        }
      }
      assert keys[..|keys|] == keys;
    }

    method DeleteReferencesForGateway(gateway: Key, keys: seq<Key>)
      modifies this
      ensures Abs() == Step(old(Abs()), Delete(gateway, keys))
    {
      for i := 0 to |keys|
        invariant Abs() == DeleteAll(old(Abs()), gateway, keys[..i])
      {
        assert keys[..i + 1][..i] == keys[..i];
        var k := keys[i];
        if k in references && gateway in references[k] {
          var left := references[k] - multiset{gateway};
          if left == multiset{} {
            references, resolved := references - {k}, resolved - {k};
          } else {
            references := references[k := left];
          }
        }
      }
      assert keys[..|keys|] == keys;
    }

    /** The answer to a poll; `update` is whether the gateways of the key are notified. */
    method ApplyPoll(key: Key, result: Option<Value>) returns (update: bool)
      modifies this`resolved
      ensures Abs() == Step(old(Abs()), Poll(key, result))
      ensures update <==> (if result.Some? then key !in old(resolved) || old(resolved)[key].body != result.value.body
                           else key in old(resolved))
    {
      match result {
        case Some(v) =>
          update := key !in resolved || resolved[key].body != v.body;
          if update {
            resolved := resolved[key := v];
          }
        case None =>
          update := key in resolved;
          resolved := resolved - {key};
      }
    }
  }
}
