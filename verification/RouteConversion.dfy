/** What envoy routes a routing rule is converted to, in terms of the rule alone. */
module RouteConversion {
  import opened Prelude
  import opened Backends
  import opened ClusterGeneration

  function NameOf(b: Backend): string {
    b.type_.Key().name + "." + b.type_.Key().namespace
  }

  /** Requests are split over the clusters of the backends with a positive weight, and copied to those of the
      mirrored service, if there is one; a redirect names no cluster. */
  ghost predicate Directs(r: EnvoyRoute, body: RuleBody) {
    && (forall n :: n in r.clusters <==>
          !body.redirects && exists b :: b in body.backends && b.type_.Weight() > 0 && NameOf(b) == n)
    && (forall n :: n in r.mirrors <==>
          !body.redirects && exists b :: b in body.filterBackends && !b.type_.InferencePool?
                                         && body.mirror == Some(b.type_.Key()) && NameOf(b) == n)
  }

  /** The name of the ext-proc cluster for a pool of a rule. */
  function ExtProcOf(rule: string, pool: PoolConfig): string {
    rule + "_route-extsvc-" + pool.key.namespace + "." + pool.key.name
  }

  /** Pools come in the order of the backends. */
  lemma {:induction false} PoolsSnoc(bs: seq<Backend>, b: Backend)
    ensures Pools(bs + [b]) == Pools(bs) + if b.type_.InferencePool? then [b.type_.pool] else []
  {
    if bs == [] {
      assert [] + [b] == [b] && [b][1..] == [];
    } else {
      assert (bs + [b])[1..] == bs[1..] + [b];
      PoolsSnoc(bs[1..], b);
    }
  }

  /** An HTTP rule makes one route without an ext-proc filter if it uses no pool, and else one for each of its
      pools, in order, with the filter if the pool has an extension. Every one of them directs requests as
      the rule says. */
  lemma {:induction false} HttpConversion(e: HttpRule)
    ensures var rs, pools := ConvertHttp(e), Pools(e.body.backends);
            && |rs| == (if pools == [] then 1 else |pools|)
            && (forall k :: 0 <= k < |rs| ==> rs[k].name == e.name + "_route" && Directs(rs[k], e.body))
            && (forall k :: 0 <= k < |rs| ==>
                  rs[k].extProc == if pools != [] && pools[k].extension.Some? then Some(ExtProcOf(e.name, pools[k]))
                                   else None)
  {
    var rs, pools := ConvertHttp(e), Pools(e.body.backends);
    forall k | 0 <= k < |rs| ensures Directs(rs[k], e.body) {
      assert rs[k].clusters == PlainRoute(e).clusters && rs[k].mirrors == PlainRoute(e).mirrors;
      if !e.body.redirects && e.body.mirror.Some? {
        assert forall n :: n in rs[k].mirrors <==> n in MirrorNames(e.body.filterBackends, e.body.mirror.value);
      }
    }
    forall k | 0 <= k < |pools| ensures ExtProcName(e.name + "_route", pools[k].key) == ExtProcOf(e.name, pools[k]) {
      assert e.name + "_route" + "-extsvc-" == e.name + "_route-extsvc-";
    }
  }

  /** A gRPC rule makes one route, which splits requests over the clusters of its weighted services. */
  lemma {:induction false} GrpcConversion(e: GrpcRule)
    ensures var r := ConvertGrpc(e);
            && r.name == e.name + "-grpc-route" && r.mirrors == [] && r.extProc == None
            && forall n :: n in r.clusters <==>
                 exists b :: b in e.body.backends && b.type_.Service? && b.type_.Weight() > 0
                             && NameOf(b) == n
  {
  }
}
