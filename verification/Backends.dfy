/** The backends of routing rules, as their resolution and cluster generation see them. */
module Backends {
  import opened Prelude

  datatype ServiceConfig = ServiceConfig(key: ResourceKey, port: int, effectivePort: int, weight: int)

  /** `extension` is the pool's specification, once known. */
  datatype PoolConfig = PoolConfig(key: ResourceKey, weight: int, extension: Option<string>,
                                   targetPorts: seq<int>, endpoints: Option<seq<string>>)

  datatype BackendType =
    | Service(service: ServiceConfig)
    | InferencePool(pool: PoolConfig)
    | InvalidType(service: ServiceConfig)
  {
    function Key(): ResourceKey {
      if InferencePool? then pool.key else service.key
    }

    function Weight(): int {
      if InferencePool? then pool.weight else service.weight
    }
  }

  datatype Backend =
    | Resolved(type_: BackendType)
    | Unresolved(type_: BackendType)
    | NotAllowed(type_: BackendType)
    | Maybe(type_: BackendType)
    | Invalid(type_: BackendType)

  /** Name and namespace joined, as both kinds of backend name their cluster. */
  function ClusterName(t: BackendType): string {
    t.Key().name + "." + t.Key().namespace
  }

  /** Two backends share a cluster name exactly if they share name and namespace, whatever their kinds and
      ports, as namespaces have no dots. */
  lemma {:induction false} ClusterNameIff(t: BackendType, u: BackendType)
    requires '.' !in t.Key().namespace && '.' !in u.Key().namespace
    ensures ClusterName(t) == ClusterName(u) <==> t.Key().name == u.Key().name && t.Key().namespace == u.Key().namespace
  {
    if ClusterName(t) == ClusterName(u) {
      var s, a, b := ClusterName(t), t.Key(), u.Key();
      assert s[|a.name|] == '.' && s[|b.name|] == '.';
      assert forall i :: |a.name| < i < |s| ==> s[i] == a.namespace[i - |a.name| - 1];
      assert forall i :: |b.name| < i < |s| ==> s[i] == b.namespace[i - |b.name| - 1];
      assert a.name == s[..|a.name|] && b.name == s[..|b.name|];
      assert a.namespace == s[|a.name| + 1..] && b.namespace == s[|b.name| + 1..];
    }
  }

  /** What a routing rule does with the requests it takes: its backends, the backends of its filters, its
      redirect and mirror, and whatever else it configures. gRPC rules have no filter backends. */
  datatype RuleBody = RuleBody(backends: seq<Backend>, filterBackends: seq<Backend>, redirects: bool,
                               mirror: Option<ResourceKey>, rest: string)
}
