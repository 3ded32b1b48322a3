/**
 The lists that the orion deployer publishes: one listener resource for each generated port, in the
 order of the ports, and one cluster resource for each generated cluster. All listeners of a gateway
 carry the gateway's name; cluster names are distinct. What that means for a proxy is settled here.
 */
module OrionResources {
  import opened Prelude
  import opened ClusterGeneration
  import opened Orders
  import opened StableSorting
  import DX = DeltaXds
  import DS = DeltaServer

  // ---------------------------------------------------------------------------------------------
  // Listeners
  // ---------------------------------------------------------------------------------------------

  function ListenerResource(encode: EnvoyListener -> string, l: EnvoyListener): DX.Resource {
    DX.Resource(l.name, encode(l))
  }

  predicate AllGenerated(ports: seq<int>, g: Generated) {
    forall i :: 0 <= i < |ports| ==> ports[i] in g.resources
  }

  /** `ports` lists the generated ports in ascending order. */
  ghost predicate ListsPorts(ports: seq<int>, g: Generated) {
    && (forall i, j :: 0 <= i < j < |ports| ==> ports[i] < ports[j])
    && AllGenerated(ports, g)
    && (forall p :: p in g.resources ==> p in ports)
  }

  function ListenerList(encode: EnvoyListener -> string, g: Generated, ports: seq<int>): (out: seq<DX.Resource>)
    requires AllGenerated(ports, g)
    ensures |out| == |ports|
  {
    seq(|ports|, i requires 0 <= i < |ports| => ListenerResource(encode, g.resources[ports[i]]))
  }

  /** The loop over the generated listeners. */
  method CreateListenerResources(encode: EnvoyListener -> string, g: Generated, ports: seq<int>)
    returns (listeners: seq<DX.Resource>)
    requires AllGenerated(ports, g)
    ensures listeners == ListenerList(encode, g, ports)
  {
    listeners := [];
    for i := 0 to |ports|
      invariant |listeners| == i
      invariant forall j :: 0 <= j < i ==> listeners[j] == ListenerResource(encode, g.resources[ports[j]])
    {
      listeners := listeners + [ListenerResource(encode, g.resources[ports[i]])];
    }
  }

  ghost predicate Injective<T(!new)>(encode: T -> string) {
    forall x, y :: encode(x) == encode(y) ==> x == y
  }

  lemma {:induction false} ListenerAt(encode: EnvoyListener -> string, gen: Generator, ls: seq<Listener>,
                                      ports: seq<int>, i: nat)
    requires ListsPorts(ports, Generate(gen, ls)) && i < |ports|
    ensures var l := Generate(gen, ls).resources[ports[i]];
            && l.name == gen.gateway && l.port == ports[i]
            && ListenerList(encode, Generate(gen, ls), ports)[i] == DX.Resource(gen.gateway, encode(l))
  {
    PortOfFirstListener(gen, ls, ports[i]);
  }

  /** A gateway's listener list is coherent exactly if at most one port is generated. */
  lemma {:induction false} ListenersCoherentIff(encode: EnvoyListener -> string, gen: Generator, ls: seq<Listener>,
                                                ports: seq<int>)
    requires Injective(encode) && ListsPorts(ports, Generate(gen, ls))
    ensures DX.Coherent(ListenerList(encode, Generate(gen, ls), ports)) <==> |ports| <= 1
  {
    var list := ListenerList(encode, Generate(gen, ls), ports);
    if |ports| > 1 {
      ListenerAt(encode, gen, ls, ports, 0);
      ListenerAt(encode, gen, ls, ports, 1);
      NameMeetsItself(list);
    }
  }

  lemma {:induction false} NameMeetsItself(list: seq<DX.Resource>)
    requires |list| > 1 && list[0].name == list[1].name && list[0] != list[1]
    ensures !DX.Coherent(list)
  {
    assert list[0] in list && list[1] in list;
  }

  /** A proxy that is given the list holds one listener, that of the highest port. */
  lemma {:induction false} ProxyHoldsHighestPort(encode: EnvoyListener -> string, gen: Generator, ls: seq<Listener>,
                                                 ports: seq<int>)
    requires ListsPorts(ports, Generate(gen, ls)) && ports != []
    ensures var g := Generate(gen, ls);
            DX.ViewOf(ListenerList(encode, g, ports))
            == map[gen.gateway := DX.Resource(gen.gateway, encode(g.resources[ports[|ports| - 1]]))]
    ensures forall p :: p in Generate(gen, ls).resources ==> p <= ports[|ports| - 1]
  {
    var list := ListenerList(encode, Generate(gen, ls), ports);
    forall i | 0 <= i < |ports| ensures list[i].name == gen.gateway {
      ListenerAt(encode, gen, ls, ports, i);
    }
    ListenerAt(encode, gen, ls, ports, |ports| - 1);
    OneNameView(list, gen.gateway);
  }

  lemma {:induction false} OneNameView(list: seq<DX.Resource>, name: string)
    requires list != [] && forall i :: 0 <= i < |list| ==> list[i].name == name
    ensures DX.ViewOf(list) == map[name := list[|list| - 1]]
  {
    var n := |list| - 1;
    if n > 0 {
      OneNameView(list[..n], name);
    } else {
      assert list[..n] == [] && DX.AddAll(map[], list[..n]) == map[];
    }
    assert DX.ViewOf(list) == DX.AddAll(map[], list[..n])[list[n].name := list[n]];
  }

  lemma {:induction false} OneNameWinner(list: seq<DX.Resource>, name: string)
    requires list != [] && forall i :: 0 <= i < |list| ==> list[i].name == name
    ensures DX.NamesOf(list) == {name} && DX.Winner(list, name) == list[|list| - 1]
  {
    assert list[0] in list && list[|list| - 1] in list;
    assert forall r :: r in list ==> r.name == name;
  }

  /** Where all resources of two lists share a name, a change of names-comparing responses is stable
      exactly if the new list's last resource is new, or it also was the last one and nothing is new. */
  lemma {:induction false} OneNameStable(b: DX.Backend, slot: Slot, old': seq<DX.Resource>, new': seq<DX.Resource>,
                                         name: string)
    requires DX.ComparesNames(b, slot) && new' != []
    requires forall i :: 0 <= i < |old'| ==> old'[i].name == name
    requires forall i :: 0 <= i < |new'| ==> new'[i].name == name
    ensures DX.Stable(b, slot, old', new') <==>
            || new'[|new'| - 1] !in old'
            || (old'[|old'| - 1] == new'[|new'| - 1] && forall r :: r in new' ==> r in old')
  {
    OneNameWinner(new', name);
    var w, add := new'[|new'| - 1], DX.ToAdd(old', new');
    assert DX.Winner(new', name) == w && w in new';
    assert forall n :: n in DX.NamesOf(new') ==> n == name;
    assert name !in DX.Gone(old', new');
    assert forall r :: r in add ==> r.name == name && r in new' && r !in old';
    assert name in DX.NamesOf(add) <==> exists r :: r in new' && r !in old';
    if w in old' {
      OneNameWinner(old', name);
      assert DX.Stable(b, slot, old', new') <==> DX.StableAt(b, slot, old', new', name);
    }
  }

  /** No port is left, or the listener of the highest port is new, or it also was that of the highest port
      and no listener is new. */
  ghost predicate HighestReached(old': seq<DX.Resource>, new': seq<DX.Resource>) {
    || new' == []
    || new'[|new'| - 1] !in old'
    || (old'[|old'| - 1] == new'[|new'| - 1] && forall r :: r in new' ==> r in old')
  }

  lemma {:induction false} OneNameChangeIff(old': seq<DX.Resource>, new': seq<DX.Resource>, name: string)
    requires forall i :: 0 <= i < |old'| ==> old'[i].name == name
    requires forall i :: 0 <= i < |new'| ==> new'[i].name == name
    ensures DX.Replay(DX.ViewOf(old'), DX.Delta(DX.Orion, Primary, old', new'), Primary) == DX.ViewOf(new')
            <==> HighestReached(old', new')
  {
    DX.DeltaExactIff(DX.Orion, Primary, old', new');
    if new' != [] {
      OneNameStable(DX.Orion, Primary, old', new', name);
    }
  }

  lemma {:induction false} AllNamed(encode: EnvoyListener -> string, gen: Generator, ls: seq<Listener>,
                                    ports: seq<int>)
    requires ListsPorts(ports, Generate(gen, ls))
    ensures forall i :: 0 <= i < |ports| ==>
              ListenerList(encode, Generate(gen, ls), ports)[i].name == gen.gateway
  {
    forall i | 0 <= i < |ports| ensures ListenerList(encode, Generate(gen, ls), ports)[i].name == gen.gateway {
      ListenerAt(encode, gen, ls, ports, i);
    }
  }

  /** The exact condition for a change of a gateway's listeners to take a proxy from the view of the old
      list to that of the new one. So if only another port's listener changed, the proxy ends with that one,
      where the new list says the highest port's. */
  lemma {:induction false} ListenerChangeIff(encode: EnvoyListener -> string, gen: Generator, ls: seq<Listener>,
                                             ports: seq<int>, ls': seq<Listener>, ports': seq<int>)
    requires ListsPorts(ports, Generate(gen, ls)) && ListsPorts(ports', Generate(gen, ls'))
    ensures var old' := ListenerList(encode, Generate(gen, ls), ports);
            var new' := ListenerList(encode, Generate(gen, ls'), ports');
            DX.Replay(DX.ViewOf(old'), DX.Delta(DX.Orion, Primary, old', new'), Primary) == DX.ViewOf(new')
            <==> HighestReached(old', new')
  {
    AllNamed(encode, gen, ls, ports);
    AllNamed(encode, gen, ls', ports');
    OneNameChangeIff(ListenerList(encode, Generate(gen, ls), ports), ListenerList(encode, Generate(gen, ls'), ports'),
                     gen.gateway);
  }

  // ---------------------------------------------------------------------------------------------
  // Clusters
  // ---------------------------------------------------------------------------------------------

  function ClusterList(encode: Cluster -> string, cs: seq<Cluster>): (out: seq<DX.Resource>)
    ensures |out| == |cs|
  {
    seq(|cs|, i requires 0 <= i < |cs| => DX.Resource(cs[i].name, encode(cs[i])))
  }

  lemma {:induction false} SameNameSameIndex(cs: seq<Cluster>, i: nat, j: nat)
    requires StrictlySorted(CompareName, cs) && i < |cs| && j < |cs| && cs[i].name == cs[j].name
    ensures i == j
  {
    StringLaws(cs[i].name, cs[j].name, "");
    StringLaws(cs[j].name, cs[i].name, "");
  }

  /** Generated cluster lists are coherent, whatever the encoding. */
  lemma {:induction false} ClustersCoherent(encode: Cluster -> string, vs: seq<VirtualHost>, infos: seq<Info>)
    ensures DX.Coherent(ClusterList(encode, GenerateClusters(vs, infos)))
  {
    ClustersOutcome(vs, infos, "");
    StrictlySortedCoherent(encode, GenerateClusters(vs, infos));
  }

  lemma {:induction false} StrictlySortedCoherent(encode: Cluster -> string, cs: seq<Cluster>)
    requires StrictlySorted(CompareName, cs)
    ensures DX.Coherent(ClusterList(encode, cs))
  {
    var list := ClusterList(encode, cs);
    forall r, q | r in list && q in list && r.name == q.name ensures r == q {
      var i :| 0 <= i < |cs| && list[i] == r;
      var j :| 0 <= j < |cs| && list[j] == q;
      SameNameSameIndex(cs, i, j);
    }
  }

  /** Every list published for the clusters was generated. */
  ghost predicate GeneratedClusters(encode: Cluster -> string, events: seq<DS.Event>) {
    forall e :: e in events && e.Publish? && e.slot == Secondary ==>
      exists vs, infos :: e.resources == ClusterList(encode, GenerateClusters(vs, infos))
  }

  /** So in every run with generated clusters, without any further condition, each orion proxy is kept in
      step on its clusters. */
  lemma {:induction false} GeneratedClustersInStep(encode: Cluster -> string, events: seq<DS.Event>)
    requires GeneratedClusters(encode, events)
    ensures DS.AllInStep(DS.Run(DX.Orion, events), Secondary)
  {
    forall e | e in events && e.Publish? && e.slot == Secondary ensures DX.Coherent(e.resources) {
      var vs, infos :| e.resources == ClusterList(encode, GenerateClusters(vs, infos));
      ClustersCoherent(encode, vs, infos);
    }
    DS.CoherentRunStable(DX.Orion, events, Secondary);
    DS.RunInStep(DX.Orion, events, Secondary);
  }
}
