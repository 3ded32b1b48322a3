/**
 The version bookkeeping of the envoy deployer: every change of a gateway publishes its clusters and
 then its listeners under the gateway's current version, and deleting the gateway forgets the version.
 */
module EnvoyDeployer {
  import opened Prelude
  import ClientList
  import X = EnvoyXds

  datatype AckVersions = AckVersions(cluster: nat, listener: nat)

  /** `deployed` is whether the proxy's deployment succeeded; a failed one publishes nothing. */
  datatype Event =
    | Changed(gateway: string, listeners: X.Resources, clusters: X.Resources, deployed: bool)
    | Deleted(gateway: string)

  type Versions = map<string, AckVersions>

  function Next(versions: Versions, gateway: string): AckVersions {
    if gateway in versions then AckVersions(versions[gateway].cluster + 1, versions[gateway].listener + 1)
    else AckVersions(0, 0)
  }

  function Step(versions: Versions, e: Event): Versions {
    match e
    case Changed(g, _, _, _) => versions[g := Next(versions, g)]
    case Deleted(g) => versions - {g}
  }

  function Run(es: seq<Event>): Versions {
    if es == [] then map[] else Step(Run(es[..|es| - 1]), es[|es| - 1])
  }

  /** What event `i` of a run sends to the server. */
  function Sent(es: seq<Event>, i: nat): seq<X.Event>
    requires i < |es|
  {
    if es[i].Changed? && es[i].deployed then
      var v := Next(Run(es[..i]), es[i].gateway);
      [X.Publish(es[i].gateway, Secondary, es[i].clusters, v.cluster),
       X.Publish(es[i].gateway, Primary, es[i].listeners, v.listener)]
    else []
  }

  /** The changes of a gateway since it was last deleted. */
  function ChangesSince(es: seq<Event>, gateway: string): nat {
    if es == [] then 0
    else
      var n := |es| - 1;
      if es[n].gateway != gateway then ChangesSince(es[..n], gateway)
      else if es[n].Changed? then ChangesSince(es[..n], gateway) + 1
      else 0
  }

  /** In every run both versions of a gateway are one less than its changes since its last deletion,
      whether or not those changes were deployed. */
  lemma {:induction false} RunVersions(es: seq<Event>, gateway: string)
    ensures gateway in Run(es) <==> ChangesSince(es, gateway) > 0
    ensures gateway in Run(es) ==>
              Run(es)[gateway] == AckVersions(ChangesSince(es, gateway) - 1, ChangesSince(es, gateway) - 1)
  {
    if es != [] {
      RunVersions(es[..|es| - 1], gateway);
    }
  }

  lemma {:induction false} ChangesGrow(es: seq<Event>, i: nat, j: nat, gateway: string)
    requires i <= j <= |es|
    requires forall k :: i <= k < j ==> es[k] != Deleted(gateway)
    ensures ChangesSince(es[..i], gateway) <= ChangesSince(es[..j], gateway)
    decreases j
  {
    if i < j {
      assert es[..j][..j - 1] == es[..j - 1];
      ChangesGrow(es, i, j - 1, gateway);
    }
  }

  /** Between deletions of a gateway no version is published twice for one type: a later change always
      carries a greater version. */
  lemma {:induction false} LaterVersionGreater(es: seq<Event>, i: nat, j: nat, k: nat)
    requires i < j < |es| && es[i].Changed? && es[j].Changed? && es[i].gateway == es[j].gateway
    requires forall m :: i < m < j ==> es[m] != Deleted(es[i].gateway)
    requires es[i].deployed && es[j].deployed && k < 2
    ensures |Sent(es, i)| == |Sent(es, j)| == 2
    ensures Sent(es, i)[k].slot == Sent(es, j)[k].slot && Sent(es, i)[k].version < Sent(es, j)[k].version
  {
    var g := es[i].gateway;
    RunVersions(es[..i], g);
    RunVersions(es[..j], g);
    assert es[..i + 1][..i] == es[..i];
    assert ChangesSince(es[..i + 1], g) == ChangesSince(es[..i], g) + 1;
    ChangesGrow(es, i + 1, j, g);
  }

  /** A change right after a deletion starts again at version 0, whatever was published under it before. */
  lemma {:induction false} RecreatedAtZero(es: seq<Event>, i: nat)
    requires 0 < i < |es| && es[i].Changed? && es[i].deployed && es[i - 1] == Deleted(es[i].gateway)
    ensures Sent(es, i) == [X.Publish(es[i].gateway, Secondary, es[i].clusters, 0),
                            X.Publish(es[i].gateway, Primary, es[i].listeners, 0)]
  {
    assert es[..i][..i - 1] == es[..i - 1];
    RunVersions(es[..i], es[i].gateway);
  }

  lemma {:induction false} RunOfTwo(s: X.State, e: X.Event, e': X.Event)
    ensures X.RunFrom(s, [e, e']) == X.Step(X.Step(s, e), e')
  {
    assert [e, e'][..1] == [e] && [e][..0] == [];
    assert X.RunFrom(s, [e]) == X.Step(X.RunFrom(s, []), e);
  }

  /** A stream that is bound to the gateway is sent both lists of a deployed change, and ends up to date
      on both types. */
  lemma {:induction false} ChangeReachesStream(s: X.State, es: seq<Event>, i: nat, id: nat, slot: Slot)
    requires ClientList.DistinctIds(s.clients) && X.Connected(s, id)
    requires i < |es| && es[i].Changed? && es[i].deployed && X.StreamOf(s, id).gateway == Some(es[i].gateway)
    ensures var end := X.RunFrom(s, Sent(es, i));
            X.Connected(end, id) && X.UpToDate(end, X.StreamOf(end, id), es[i].gateway, slot)
  {
    var sent := Sent(es, i);
    var mid := X.Step(s, sent[0]);
    RunOfTwo(s, sent[0], sent[1]);
    assert sent == [sent[0], sent[1]];
    X.StepKeepsPosition(s, sent[0], id);
    X.StepKeepsPosition(mid, sent[1], id);
  }

  /** The version under which the change `i` publishes both lists. */
  function Version(es: seq<Event>, i: nat): nat
    requires i < |es| && es[i].Changed?
  {
    ChangesSince(es[..i], es[i].gateway)
  }

  lemma {:induction false} SentVersions(es: seq<Event>, i: nat)
    requires i < |es| && es[i].Changed? && es[i].deployed
    ensures Sent(es, i) == [X.Publish(es[i].gateway, Secondary, es[i].clusters, Version(es, i)),
                            X.Publish(es[i].gateway, Primary, es[i].listeners, Version(es, i))]
  {
    RunVersions(es[..i], es[i].gateway);
  }

  lemma {:induction false} PublishOne(s: X.State, gateway: string, slot: Slot, rs: X.Resources, version: nat, id: nat)
    requires ClientList.DistinctIds(s.clients)
    ensures var after := X.Step(s, X.Publish(gateway, slot, rs, version));
            && ClientList.DistinctIds(after.clients)
            && (X.Connected(after, id) <==> X.Connected(s, id))
            && (X.Connected(s, id) && X.StreamOf(s, id).gateway == Some(gateway) ==>
                  && X.StreamOf(after, id).gateway == Some(gateway)
                  && X.StreamOf(after, id).versions == X.StreamOf(s, id).versions.With(slot, version))
  {
    var e := X.Publish(gateway, slot, rs, version);
    X.StepDistinct(s, e);
    X.StepConnectedIff(s, e, id);
    if X.Connected(s, id) {
      X.StepKeepsPosition(s, e, id);
    }
  }

  /** What the server holds of a gateway, and of a client, after a deployed change was published. */
  lemma {:induction false} PublishedBoth(s: X.State, es: seq<Event>, i: nat, id: nat, slot: Slot)
    requires ClientList.DistinctIds(s.clients) && i < |es| && es[i].Changed? && es[i].deployed
    ensures var after := X.RunFrom(s, Sent(es, i));
            && ClientList.DistinctIds(after.clients) && es[i].gateway in after.stored.At(slot)
            && (X.Connected(after, id) <==> X.Connected(s, id))
            && (X.Connected(s, id) && X.StreamOf(s, id).gateway == Some(es[i].gateway) ==>
                  X.StreamOf(after, id).versions == PerSlot(Version(es, i), Version(es, i)))
  {
    var sent, v := Sent(es, i), Version(es, i);
    SentVersions(es, i);
    var mid := X.Step(s, sent[0]);
    RunOfTwo(s, sent[0], sent[1]);
    assert sent == [sent[0], sent[1]];
    PublishOne(s, es[i].gateway, Secondary, es[i].clusters, v, id);
    PublishOne(mid, es[i].gateway, Primary, es[i].listeners, v, id);
  }

  /** A proxy that holds a deployed change and connects again, repeating its version: under a new id it is
      left without the lists exactly if the change is the gateway's first since its last deletion; under an
      id whose bound record the server still holds, always. */
  lemma {:induction false} ReconnectLeftBehindIff(s: X.State, es: seq<Event>, i: nat, id: nat, r: X.Request, slot: Slot)
    requires ClientList.DistinctIds(s.clients) && i < |es| && es[i].Changed? && es[i].deployed
    requires X.Connected(s, id) ==> X.StreamOf(s, id).gateway == Some(es[i].gateway)
    requires X.Handled(r) && r.slot == Some(slot) && r.gateway == Some(es[i].gateway)
    requires r.version == X.Number(Version(es, i))
    ensures var end := X.RunFrom(X.Started(X.RunFrom(s, Sent(es, i)), id), [X.Ask(id, r)]);
            && X.Connected(end, id)
            && (X.LeftBehind(end, X.StreamOf(end, id), es[i].gateway, slot) <==>
                X.Connected(s, id) || ChangesSince(es[..i], es[i].gateway) == 0)
  {
    PublishedBoth(s, es, i, id, slot);
    X.FirstRequestLeftBehindIff(X.RunFrom(s, Sent(es, i)), id, r, slot);
  }

  class Deployer {
    var ackVersions: Versions

    constructor ()
      ensures ackVersions == Run([])
    {
      ackVersions := map[];
    }

    /** `es` is the run so far, ending in the event that is handled. */
    method HandleEvent(e: Event, ghost es: seq<Event>) returns (actions: seq<X.Event>)
      requires es != [] && es[|es| - 1] == e && ackVersions == Run(es[..|es| - 1])
      modifies this
      ensures ackVersions == Run(es) && actions == Sent(es, |es| - 1)
    {
      actions := [];
      match e {
        case Changed(gateway, listeners, clusters, deployed) =>
          if gateway in ackVersions {
            var v := ackVersions[gateway];
            ackVersions := ackVersions[gateway := AckVersions(v.cluster + 1, v.listener + 1)];
          } else {
            ackVersions := ackVersions[gateway := AckVersions(0, 0)];
          }
          if deployed {
            actions := [X.Publish(gateway, Secondary, clusters, ackVersions[gateway].cluster),
                        X.Publish(gateway, Primary, listeners, ackVersions[gateway].listener)];
          }
        case Deleted(gateway) =>
          ackVersions := ackVersions - {gateway};
      }
    }
  }
}
