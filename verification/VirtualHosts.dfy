/**
 Which virtual hosts a gateway's listeners get: one for each hostname of each listener, on the listener's
 port, with the rules of the listener that serve the hostname.
 */
module VirtualHosts {
  import opened Prelude
  import opened Orders
  import opened StableSorting
  import opened ClusterGeneration
  import RP = RoutePrecedence

  // ---------------------------------------------------------------------------------------------
  // The hostnames of a listener
  // ---------------------------------------------------------------------------------------------

  lemma {:induction false} StringOrder()
    ensures TotalPreorder(CompareString)
  {
    forall x, y, z
      ensures CompareString(y, x) == Flip(CompareString(x, y))
      ensures Chains(CompareString(x, y), CompareString(y, z), CompareString(x, z))
    {
      StringLaws(x, y, z);
    }
  }

  /** Sorting and removing duplicates keeps exactly the strings of a list. */
  lemma {:induction false} SortedDistinct(hostnames: seq<string>)
    ensures var out := KeepLast(CompareString, StableSort(CompareString, hostnames));
            StrictlySorted(CompareString, out) && forall h :: h in out <==> h in hostnames
  {
    StringOrder();
    var sorted := StableSort(CompareString, hostnames);
    SortSorted(CompareString, hostnames);
    KeepLastStrict(CompareString, sorted);
    assert forall h :: h in sorted <==> h in multiset(sorted);
    forall h | h in sorted ensures h in KeepLast(CompareString, sorted) {
      assert Covered(CompareString, KeepLast(CompareString, sorted), h);
      var y :| y in KeepLast(CompareString, sorted) && CompareString(h, y).Equal?;
      StringLaws(h, y, y);
    }
  }

  lemma {:induction false} AllHostnamesHas(rs: seq<RP.Route>, h: string)
    ensures h in AllHostnames(rs) <==> exists r :: r in rs && h in r.hostnames
  {
    if rs != [] {
      assert rs == [rs[0]] + rs[1..];
      AllHostnamesHas(rs[1..], h);
    }
  }

  /** A listener's hostnames, without duplicates: its own alone, if it is given and neither empty nor "*";
      those of its resolved routes, if none is given and they have some; or else "*" alone. */
  lemma {:induction false} HostnamesOutcome(l: Listener, h: string)
    ensures h in PotentialHostnames(l) <==>
            if l.hostname.Some? && l.hostname.value != "" && l.hostname.value != "*" then h == l.hostname.value
            else if l.hostname.None? && exists r :: r in l.resolved && r.hostnames != []
            then exists r :: r in l.resolved && h in r.hostnames
            else h == "*"
    ensures StrictlySorted(CompareString, PotentialHostnames(l))
  {
    SortedDistinct(AllHostnames(l.resolved));
    AllHostnamesHas(l.resolved, h);
    if r :| r in l.resolved && r.hostnames != [] {
      AllHostnamesHas(l.resolved, r.hostnames[0]);
    }
    if AllHostnames(l.resolved) != [] {
      AllHostnamesHas(l.resolved, AllHostnames(l.resolved)[0]);
    }
  }

  // ---------------------------------------------------------------------------------------------
  // The virtual hosts of a port
  // ---------------------------------------------------------------------------------------------

  /** The listener has a virtual host of the name on the port, for the hostname. */
  predicate HostsName(l: Listener, port: int, name: string, h: string) {
    && l.port == port && (l.protocol.Http? || l.protocol.Https?)
    && h in PotentialHostnames(l) && name == l.name + "-" + h
  }

  /** The virtual host is the listener's for the hostname: it has all the listener's routes attached, and
      exactly those of their rules that serve the hostname. */
  ghost predicate HostOf(gen: Generator, l: Listener, h: string, v: VirtualHost) {
    && v.name == l.name + "-" + h
    && v.attached == l.resolved + l.unresolved
    && v.effectiveHostnames == (if h == "" || h == "*" then ["*"] else gen.effective(h))
    && (forall e :: e in v.http <==> e in RP.HttpEffective(l.resolved + l.unresolved) && gen.hosts(h, e.hostnames))
    && (forall e :: e in v.grpc <==> e in RP.GrpcEffective(l.resolved + l.unresolved) && gen.hosts(h, e.hostnames))
  }

  lemma {:induction false} MadeFor(gen: Generator, l: Listener, h: string)
    ensures HostOf(gen, l, h, VirtualHostFor(gen, l, h))
  {
    RP.MatchingRulesIn(l.resolved, l.unresolved);
    var v := VirtualHostFor(gen, l, h);
    forall e ensures e in v.http <==> e in RP.HttpEffective(l.resolved + l.unresolved) && gen.hosts(h, e.hostnames) {
      FilterHas(RP.HttpMatchingRules(l.resolved, l.unresolved), Serves(gen, h), e);
    }
    forall e ensures e in v.grpc <==> e in RP.GrpcEffective(l.resolved + l.unresolved) && gen.hosts(h, e.hostnames) {
      FilterHas(RP.GrpcMatchingRules(l.resolved, l.unresolved), Serves(gen, h), e);
    }
  }

  lemma {:induction false} HostnameOfName(listener: string, h: string, h': string)
    requires listener + "-" + h == listener + "-" + h'
    ensures h == h'
  {
    assert (listener + "-" + h)[|listener| + 1..] == h;
    assert (listener + "-" + h')[|listener| + 1..] == h';
  }

  lemma {:induction false} AddHostsAt(gen: Generator, l: Listener, before: Hosts, hostnames: seq<string>, h: string)
    requires before.virtualHosts == map[]
    ensures var vs := AddHosts(gen, l, before, hostnames).virtualHosts;
            && (l.name + "-" + h in vs <==> h in hostnames)
            && (h in hostnames ==> vs[l.name + "-" + h] == VirtualHostFor(gen, l, h))
  {
    if hostnames != [] {
      var init, last := hostnames[..|hostnames| - 1], hostnames[|hostnames| - 1];
      assert hostnames == init + [last];
      AddHostsAt(gen, l, before, init, h);
      AddHostsAt(gen, l, before, init, last);
      if l.name + "-" + h == l.name + "-" + last {
        HostnameOfName(l.name, h, last);
      }
    }
  }

  lemma {:induction false} AddHostsNamed(gen: Generator, l: Listener, before: Hosts, hostnames: seq<string>,
                                         name: string)
    requires before.virtualHosts == map[]
    ensures name in AddHosts(gen, l, before, hostnames).virtualHosts ==>
              exists h :: h in hostnames && name == l.name + "-" + h
  {
    if hostnames != [] {
      var init, last := hostnames[..|hostnames| - 1], hostnames[|hostnames| - 1];
      assert hostnames == init + [last];
      AddHostsNamed(gen, l, before, init, name);
    }
  }

  /** What one more listener does to the virtual host of a name on a port. */
  lemma {:induction false} AddListenerAt(gen: Generator, g: Generated, l: Listener, port: int, name: string)
    ensures var was, now := At(g, port, name), At(AddListener(gen, g, l), port, name);
            && (forall h :: HostsName(l, port, name, h) ==> now == Some(VirtualHostFor(gen, l, h)))
            && ((forall h :: !HostsName(l, port, name, h)) ==> now == was)
  {
    var empty := Hosts(map[], g.infos, false);
    if l.port == port && (l.protocol.Http? || l.protocol.Https?) {
      AddHostsNamed(gen, l, empty, PotentialHostnames(l), name);
      forall h | HostsName(l, port, name, h)
        ensures At(AddListener(gen, g, l), port, name) == Some(VirtualHostFor(gen, l, h))
      {
        AddHostsAt(gen, l, empty, PotentialHostnames(l), h);
      }
      if name in HostsOf(gen, l, g.infos).virtualHosts {
        var h :| h in PotentialHostnames(l) && name == l.name + "-" + h;
        assert HostsName(l, port, name, h);
      }
    }
  }

  /** The virtual host of a name that is generated on a port, if any. */
  function At(g: Generated, port: int, name: string): Option<VirtualHost> {
    if port in g.resources && name in g.resources[port].virtualHosts
    then Some(g.resources[port].virtualHosts[name])
    else None
  }

  /** The listener at `i` has a virtual host of the name on the port, and no later one has. */
  ghost predicate LastHost(ls: seq<Listener>, i: nat, port: int, name: string, h: string) {
    && i < |ls| && HostsName(ls[i], port, name, h)
    && forall j, x :: i < j < |ls| ==> !HostsName(ls[j], port, name, x)
  }

  lemma {:induction false} LastHostSnoc(ls: seq<Listener>, i: nat, port: int, name: string, h: string)
    requires ls != []
    ensures var n := |ls| - 1;
            LastHost(ls, i, port, name, h) <==>
            if i == n then HostsName(ls[n], port, name, h)
            else LastHost(ls[..n], i, port, name, h) && forall x :: !HostsName(ls[n], port, name, x)
  {
    var n := |ls| - 1;
    assert forall j :: 0 <= j < n ==> ls[..n][j] == ls[j];
  }

  /** For every list of listeners: the virtual host of a name on a port is the one that the last listener
      with such a virtual host has there, and there is none if no listener has one. */
  lemma {:induction false} VirtualHostOfLast(gen: Generator, ls: seq<Listener>, port: int, name: string)
    ensures At(Generate(gen, ls), port, name).Some? <==>
            exists l, h :: l in ls && HostsName(l, port, name, h)
    ensures forall i: nat, h :: LastHost(ls, i, port, name, h) ==>
              At(Generate(gen, ls), port, name).Some? && HostOf(gen, ls[i], h, At(Generate(gen, ls), port, name).value)
    ensures At(Generate(gen, ls), port, name).Some? ==> exists i: nat, h :: LastHost(ls, i, port, name, h)
  {
    if ls != [] {
      var n := |ls| - 1;
      var init := ls[..n];
      assert ls == init + [ls[n]];
      VirtualHostOfLast(gen, init, port, name);
      AddListenerAt(gen, Generate(gen, init), ls[n], port, name);
      forall i: nat, h | LastHost(ls, i, port, name, h)
        ensures At(Generate(gen, ls), port, name).Some?
                && HostOf(gen, ls[i], h, At(Generate(gen, ls), port, name).value)
      {
        LastHostSnoc(ls, i, port, name, h);
        MadeFor(gen, ls[i], h);
      }
      if h :| HostsName(ls[n], port, name, h) {
        LastHostSnoc(ls, n, port, name, h);
      } else if i: nat, h :| LastHost(init, i, port, name, h) {
        LastHostSnoc(ls, i, port, name, h);
      }
    }
  }

  /** Two listeners on one port both get their hostname served. */
  lemma {:induction false} BothHostsServed(gen: Generator, first: Listener, second: Listener)
    requires first.protocol.Http? && second.protocol.Http? && first.port == second.port
    requires first.name == "a" && first.hostname == Some("x.com")
    requires second.name == "b" && second.hostname == Some("y.com")
    ensures At(Generate(gen, [first, second]), first.port, "a-x.com").Some?
    ensures At(Generate(gen, [first, second]), first.port, "b-y.com").Some?
  {
    var ls := [first, second];
    assert first in ls && second in ls;
    assert HostsName(first, first.port, "a-x.com", "x.com") && HostsName(second, first.port, "b-y.com", "y.com");
    VirtualHostOfLast(gen, ls, first.port, "a-x.com");
    VirtualHostOfLast(gen, ls, first.port, "b-y.com");
  }

  // ---------------------------------------------------------------------------------------------
  // TCP listeners and pools
  // ---------------------------------------------------------------------------------------------

  /** A port lists exactly the TCP listeners on it. */
  lemma {:induction false} TcpOfPort(gen: Generator, ls: seq<Listener>, port: int)
    ensures (if port in Generate(gen, ls).resources then Generate(gen, ls).resources[port].tcp else {})
            == set l | l in ls && l.port == port && l.protocol.Tcp? :: (l.name, l.hostname)
  {
    if ls != [] {
      var n := |ls| - 1;
      assert ls == ls[..n] + [ls[n]];
      TcpOfPort(gen, ls[..n], port);
    }
  }

  lemma {:induction false} AllInfosHas(es: seq<HttpRule>, i: Info)
    ensures i in AllInfos(es) <==> exists e :: e in es && i in Infos(e)
  {
    if es != [] {
      assert es == [es[0]] + es[1..];
      AllInfosHas(es[1..], i);
    }
  }

  lemma {:induction false} AddHostInfos(gen: Generator, l: Listener, before: Hosts, hostname: string, i: Info)
    ensures i in AddHost(gen, l, before, hostname).infos <==> i in before.infos || UsesPool(gen, l, hostname, i)
  {
    AllInfosHas(HttpRulesOf(gen, l, hostname), i);
  }

  lemma {:induction false} AddHostsInfos(gen: Generator, l: Listener, before: Hosts, hostnames: seq<string>, i: Info)
    ensures i in AddHosts(gen, l, before, hostnames).infos <==>
            i in before.infos || exists h :: h in hostnames && UsesPool(gen, l, h, i)
  {
    if hostnames != [] {
      var init, last := hostnames[..|hostnames| - 1], hostnames[|hostnames| - 1];
      var mid := AddHosts(gen, l, before, init);
      AddHostsInfos(gen, l, before, init, i);
      AddHostInfos(gen, l, mid, last, i);
      assert forall h :: h in hostnames <==> h in init || h == last;
    }
  }

  /** The listener has an HTTP rule that serves the hostname and uses the pool. */
  ghost predicate UsesPool(gen: Generator, l: Listener, h: string, i: Info) {
    exists e :: e in HttpRulesOf(gen, l, h) && i in Infos(e)
  }

  /** A pool is collected exactly if some HTTP rule in a virtual host of some listener uses it, whether or
      not the virtual host is displaced. */
  lemma {:induction false} CollectedIff(gen: Generator, ls: seq<Listener>, i: Info)
    ensures i in Generate(gen, ls).infos <==>
            exists l, h :: l in ls && (l.protocol.Http? || l.protocol.Https?) && h in PotentialHostnames(l)
                           && UsesPool(gen, l, h, i)
  {
    if ls != [] {
      var n := |ls| - 1;
      assert ls == ls[..n] + [ls[n]];
      CollectedIff(gen, ls[..n], i);
      AddHostsInfos(gen, ls[n], Hosts(map[], Generate(gen, ls[..n]).infos, false), PotentialHostnames(ls[n]), i);
    }
  }
}
