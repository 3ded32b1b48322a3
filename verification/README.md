# Kubvernor, modelled in Dafny

Kubvernor is a Kubernetes Gateway API controller: it resolves gateways, routes, certificates and
references, computes each listener's status, and configures proxies (envoy, orion, agentgateway) over
xDS. This project models its state machines and transformations below the Kubernetes calls, and proves
what they keep over whole runs.

| file | models |
|---|---|
| `DeltaXds.dfy`, `DeltaServer.dfy`, `ClientList.dfy` | the incremental xDS servers of agentgateway and orion: list differences, and the server with its clients, queues and proxies |
| `EnvoyXds.dfy`, `EnvoyDeployer.dfy` | the state-of-the-world xDS server of envoy, and the versions its deployer gives it |
| `MultiReferences.dfy`, `SecretReferences.dfy`, `PolledValues.dfy`, `ReferenceGrants.dfy` | the three reference resolvers, and the values that two of them poll |
| `PoolIndex.dfy` | the index of inference pools by gateway and route |
| `Orders.dfy`, `StableSorting.dfy`, `RoutePrecedence.dfy` | the precedence of routing rules |
| `Backends.dfy`, `ClusterGeneration.dfy`, `VirtualHosts.dfy`, `OrionResources.dfy`, `AgentBinds.dfy` | what is generated for envoy, orion and agentgateway |
| `BackendResolution.dfy`, `RouteAttachment.dfy`, `ListenerStatus.dfy` | the pipeline from backends over attachment to the published status |

Each state machine has a `Step` function on values and a `Run` over any sequence of events; the lemmas
are about runs. Code that updates an object in place is a class whose methods, with the loops of the
source, are proved to perform exactly that `Step`. A handled message is one atomic step. Kubernetes
answers, clocks, node look-ups and PEM parsing are parameters. Strings stand for their UTF-8 bytes.

## Where the code and its promises part

Each point below is a lemma. The code is modelled as it is.

- **Repeated resource names** (`DeltaExactIff`, `StaysInStepIff`, `RepeatedNameTakesEarlier`). The delta
  servers keep a proxy in step exactly while every publication changes its list stably, which it does if
  each name stands for one resource. Two generators do not give that. All orion listeners of a gateway
  carry the gateway's name, so with two ports the proxy holds one listener, that of the highest port, and
  after a change of another port's listener that one (`ListenersCoherentIff`, `ProxyHoldsHighestPort`,
  `ListenerChangeIff`). An agentgateway route resource is named after the route and its rule, without
  listener or namespace, so of a route name attached twice the proxy holds the last attachment only
  (`RouteKeysDistinctIff`, `SentCoherentIff`, `ProxyHoldsLastAttachment`).
- **Orion clusters** (`ClusterNames`, `ClusterDeltaAddsFirstIff`, `GeneratedClustersInStep`). Their names are
  distinct, so they stay in step; but a changed cluster is named both as removed and as added, so a proxy
  must apply removals first.
- **Cluster names** (`ClusterNameIff`, `SurvivingCluster`, `BackendOwnClusterIff`, `SecondPortTakesName`). A name
  has neither port nor kind; of several clusters of one name the last attached one is generated, so a rule that splits
  requests over two ports of a service sends all to the second.
- **Shared ports** (`PortOfFirstListener`, `ServedIff`, `SecondCertificateUnused`). A second listener on a port
  only adds virtual hosts: its TLS settings and its need of the ext-proc filter are ignored.
- **"Versions match"** (`LeftBehindIff`, `FirstRequestLeftBehindIff`, `ReconnectLeftBehindIff`,
  `ReconnectAtVersionZeroLeftBehind`, `ChangedNodeLeftBehind`). The envoy server's skip is harmless exactly
  when something opened the type on the stream before. A proxy that reconnects with the version it holds is
  left without a list exactly if that is version 0, the gateway's first, or its old record is still held.
- **Removal by address** (`RunRecordedIff`, `KeepsRecordIff`, `OverlapForgetsNewer`; for envoy
  `RunConnectedIff` and a lemma of the same name). An ended stream removes whatever record has its client
  id. So a connection keeps its record exactly while no stream of its id is opened or ends; if an older
  one ends after it was opened, it is forgotten, and no request changes anything until the next connect.
- **Reference counts** (`CountLaw`, `CountExactIff`, `LeftoversAreLeaks`). Deleting a route that several
  gateways carry releases its references once, which leaves their counts too high for good; counts are
  never too low. Announcing no routes is ignored, so the old ones stay counted (`RouteKeptIff`,
  `MappingIsAnnouncedIff`, `WithdrawnRouteKept`).
- **Late polls** (`LeftoverIff`). A poll that is answered after the last reference to a secret is gone
  stores a value that no later delete drops.
- **Precedence** (`ComparatorIsRanking`, `DocumentedIff`, `HeaderBeatsExactPath`, `HeaderlessReachedIff`). The
  comparator ranks the number of header matches before the path, and its query comparison looks at
  headers again; the Gateway API documents, for the `matches` of an HTTPRouteRule, that paths come first.
  A pair ordered by its paths is ordered as documented exactly if the other matcher has no more header
  entries. A rule without matchers gets an empty header list, which ranks above having none.
- **Namespace and kind filter** (`SelectorRightIff`, `FilterRightIff`, `OneLabelAdmitted`,
  `ExpressionsUnread`, `DefaultScopeUnread`, `GrpcOnlyAdmitsNothing`). A selector admits a namespace that has
  any one of its labels, whatever its expressions and the kinds the listener lists; without a selector only a
  listed HTTPRoute lets routes in, of any kind. A scope that is not given counts as every namespace, where
  the Gateway API documents the listener's own; stored gateways have it filled in.
- **Ungranted backends** (`GrantsRespectedIff`, `UngrantedBackendUsed`). A route of another namespace than its
  gateway's may use any backend, a third namespace's without a grant included; and a pool's grant is
  not asked for.
- **Grants for filter backends** (`FilterBackendAllowedIff`). The search for references leaves them out, so a
  grant for a mirror counts only if a rule backend happens to register the same reference.
- **Masked certificates** (`ProgrammedIff`, `MaskedCertificateProgrammed`). A failing certificate does not
  stop a listener from being programmed if its least unresolved route is not permitted to use its backend.
- **Granted certificates** (`GrantedCertificatesUnused`). A certificate granted from another namespace
  passes the validation, but agentgateway listeners never use it.
- **Changed pools** (`ReattachKeepsPools`, `ChangedPoolNotFound`). The pool index ignores an attach for a route
  that it already has, so a route whose pools change keeps the old ones until it is detached.

## Model

| member | source | states |
|---|---|---|
| `DeltaXds.DifferenceLoop` | kubvernor-controller/src/backends/agentgateway/server.rs:191-202 | the loop keeps exactly the elements of one list that the other does not contain, in order |
| `DeltaXds.DeltaExactIff` | kubvernor-controller/src/backends/envoy/orion_xds_backend/server.rs:130-163 | for either backend and type and arbitrary lists, the responses take the old list's view exactly to the new list's if and only if every winning resource that was published before also won before, its name neither added nor removed |
| `DeltaXds.StablePart` | kubvernor-controller/src/backends/agentgateway/server.rs:144-167 | such a change takes a part of the old view into the new view, too |
| `DeltaXds.CoherentStable` | kubvernor-controller/src/backends/agentgateway/server.rs:144-167 | lists in which a name determines the resource always change that way |
| `DeltaXds.DeltaNames` | kubvernor-controller/src/backends/envoy/orion_xds_backend/server.rs:130-151 | where names are compared, the resulting name set is the new one for all lists, repeated names included |
| `DeltaXds.ClusterNames` | kubvernor-controller/src/backends/envoy/orion_xds_backend/server.rs:153-163 | for orion clusters, which are compared as whole resources, the exact condition under which the resulting name set is the new one |
| `DeltaXds.RepeatedNameKeepsDropped` | kubvernor-controller/src/backends/agentgateway/server.rs:144-155 | dropping the later of two resources of one name leaves the proxy with the dropped one, wherever names are compared |
| `DeltaXds.RepeatedNameTakesEarlier` | kubvernor-controller/src/backends/envoy/orion_xds_backend/server.rs:130-151 | changing the earlier of two resources of one name puts it in the place of the later one, for orion listeners as for agentgateway |
| `DeltaXds.ListenerDeltaOrderFree` | kubvernor-controller/src/backends/envoy/orion_xds_backend/server.rs:130-151 | orion listener deltas have disjoint added and removed names, so both application orders give the same view |
| `DeltaXds.ClusterDeltaAddsFirstIff` | kubvernor-controller/src/backends/envoy/orion_xds_backend/server.rs:153-163 | an orion cluster delta applied additions first reaches the new view exactly if no cluster kept its name and changed |
| `DeltaServer.RunCached` | kubvernor-controller/src/backends/agentgateway/server.rs:233-332 | in every run client ids are distinct and every bound client caches exactly its gateway's managed lists |
| `DeltaServer.RunInStep` | kubvernor-controller/src/backends/agentgateway/server.rs:381-489 | in every run of connects, requests, publications, deliveries and disconnects in which each publication of a type changes its list stably, the drained proxy view is part of the cached list and equals it once the type was asked for |
| `DeltaServer.StaysInStepIff` | kubvernor-controller/src/backends/agentgateway/server.rs:381-489 | and nothing weaker will do: over any further run, a client in step stays so at every point if and only if each publication for its gateway and type is stable |
| `DeltaServer.CoherentRunStable` | kubvernor-controller/src/backends/envoy/orion_xds_backend/server.rs:317-373 | coherent lists always make such a run |
| `DeltaServer.RunNamesInStep` | kubvernor-controller/src/backends/envoy/orion_xds_backend/server.rs:317-373 | the same for the name sets in every run whatsoever, except orion clusters |
| `DeltaServer.ManagedIsLastPublished` | kubvernor-controller/src/backends/agentgateway/server.rs:263-279 | the managed list of a gateway and type is the one published last |
| `DeltaServer.QuiescentProxyHoldsPublished` | kubvernor-controller/src/backends/agentgateway/server.rs:511-651 | a bound proxy with nothing in flight holds, for each type it asked for, the list last published for its gateway |
| `DeltaServer.RequestAnswered` | kubvernor-controller/src/backends/agentgateway/server.rs:533-630 | after every run, a recorded client's request without error and nonce from a node with a gateway is answered once, with the whole list last published for the gateway of its first such request; any other request changes nothing |
| `DeltaServer.BoundIff` | kubvernor-controller/src/backends/agentgateway/server.rs:239-270 | a record is bound to a gateway exactly if the first such request since its owner's connection named it, and unbound exactly if there was none |
| `DeltaServer.AnsweredIff` | kubvernor-controller/src/backends/agentgateway/server.rs:578-630 | a type was answered exactly if such a request asked for it |
| `DeltaServer.RunRecordedIff` | kubvernor-controller/src/backends/agentgateway/server.rs:319-349 | in every run a client id is recorded exactly if some connection of the id was not followed by the end of any stream of that id |
| `DeltaServer.RecordIsOwners` | kubvernor-controller/src/backends/agentgateway/server.rs:319-349 | the record that the server holds for an id is always that of one connection, its owner, with all that happened to it since |
| `DeltaServer.KeepsRecordIff` | kubvernor-controller/src/backends/agentgateway/server.rs:516-527 | a connection owns the record exactly while no other of its id is opened and no stream of that id ends, not even an older one |
| `DeltaServer.OverlapForgetsNewer` | kubvernor-controller/src/backends/agentgateway/server.rs:527-650 | the overlap: if the first stream of an id ends after the second was opened, the second is recorded no more and its requests change nothing |
| `DeltaServer.RemovedGetsNothing` | kubvernor-controller/src/backends/agentgateway/server.rs:334-345 | a removed client id is not recorded, and its requests change nothing, until it connects again |
| `DeltaServer.AdsServer.AddOrReplaceClient` | kubvernor-controller/src/backends/agentgateway/server.rs:319-332 | the new client list is the step's: a known id gets a fresh record, with empty caches |
| `DeltaServer.AdsServer.RemoveClient` | kubvernor-controller/src/backends/envoy/orion_xds_backend/server.rs:279-283 | the new state is the step's: exactly the clients of that id are gone |
| `DeltaServer.AdsServer.HandleRequest` | kubvernor-controller/src/backends/agentgateway/server.rs:511-651 | the new state is the step's: only a first answered request binds and fills the cache, every answered one is answered with the whole cached list |
| `DeltaServer.AdsServer.CacheAndCalculateDelta` | kubvernor-controller/src/backends/envoy/orion_xds_backend/server.rs:130-163 | the list is cached and the responses are those of the delta |
| `DeltaServer.AdsServer.SendDelta` | kubvernor-controller/src/backends/agentgateway/server.rs:281-317 | the changed copy is written back to the record of its id, with its responses queued, and nothing else changes |
| `DeltaServer.AdsServer.PublishList` | kubvernor-controller/src/backends/agentgateway/server.rs:381-489 | the update loop over copied clients changes the state exactly as pushing to every bound client at once |
| `ClientList.ReplaceChosen` | kubvernor-controller/src/backends/agentgateway/server.rs:233-261 | with distinct ids, each round of the loop finds its client untouched and extends the part that is done |
| `EnvoyXds.LeftBehindIff` | kubvernor-controller/src/backends/envoy/envoy_xds_backend/server.rs:287-439 | on a stream of one node, at every point of every run, the stream is left behind on a type exactly if a list is stored and nothing opened the type on it |
| `EnvoyXds.EmptyFirstVersionNeverLeftBehind` | kubvernor-controller/src/backends/envoy/envoy_xds_backend/server.rs:323-384 | if the first request for a type has an empty version, from then on the last response always carries the list now stored, so the skip is harmless |
| `EnvoyXds.FirstRequestLeftBehindIff` | kubvernor-controller/src/backends/envoy/envoy_xds_backend/server.rs:323-384 | a connection's first request leaves it without its stored list exactly if it repeats the version recorded for its id, 0 unless an earlier record is still held |
| `EnvoyXds.ReconnectAtVersionZeroLeftBehind` | kubvernor-controller/src/backends/envoy/envoy_xds_backend/server.rs:323-384 | for instance, a new client whose first request repeats version 0 is skipped and sent nothing |
| `EnvoyXds.PublishHeals` | kubvernor-controller/src/backends/envoy/envoy_xds_backend/server.rs:210-278 | a publication brings every bound stream up to date |
| `EnvoyXds.ChangedNodeLeftBehind` | kubvernor-controller/src/backends/envoy/envoy_xds_backend/server.rs:339-384 | a stream that changes its node with the recorded version is left behind exactly if the two gateways' lists differ |
| `EnvoyXds.RequestAnswered` | kubvernor-controller/src/backends/envoy/envoy_xds_backend/server.rs:311-420 | the stored list is sent, once and under the recorded version, for a request of a known node whose version field is empty or another number, and for no other request |
| `EnvoyXds.VersionsInRun` | kubvernor-controller/src/backends/envoy/envoy_xds_backend/server.rs:311-420 | in every run of one stream the version recorded for a type is that of the last publication that reached the stream, or else the one it was connected with; and what was sent last carries it |
| `EnvoyXds.AcknowledgementUnanswered` | kubvernor-controller/src/backends/envoy/envoy_xds_backend/server.rs:339-420 | so a request that repeats the version of the last response of its type sends nothing |
| `EnvoyXds.RunConnectedIff` | kubvernor-controller/src/backends/envoy/envoy_xds_backend/server.rs:163-182 | removal is by id here too: after a run an id is recorded exactly if some connection of it was not followed by the end of any stream of that id |
| `EnvoyXds.OverlapForgetsNewer` | kubvernor-controller/src/backends/envoy/envoy_xds_backend/server.rs:300-434 | the overlap: the end of an older stream takes the record of the newer one, whose requests then change nothing |
| `EnvoyXds.AggregateServer.AddOrReplaceClient` | kubvernor-controller/src/backends/envoy/envoy_xds_backend/server.rs:163-175 | a known id keeps its versions and loses its gateway |
| `EnvoyXds.AggregateServer.HandleRequest` | kubvernor-controller/src/backends/envoy/envoy_xds_backend/server.rs:287-439 | the new state is the step's, over error, missing node, malformed version, skip and every type |
| `EnvoyXds.AggregateServer.PublishList` | kubvernor-controller/src/backends/envoy/envoy_xds_backend/server.rs:210-278 | the loop stores the list and pushes it, with its version, to exactly the bound streams |
| `EnvoyDeployer.RunVersions` | kubvernor-controller/src/backends/envoy/envoy_xds_backend/envoy_deployer.rs:127-157 | in every run both versions of a gateway are one less than its changes since its last deletion, failed deployments included |
| `EnvoyDeployer.LaterVersionGreater` | kubvernor-controller/src/backends/envoy/envoy_xds_backend/envoy_deployer.rs:127-144 | between deletions a later change carries a strictly greater version, for both types |
| `EnvoyDeployer.RecreatedAtZero` | kubvernor-controller/src/backends/envoy/envoy_xds_backend/envoy_deployer.rs:127-157 | a recreated gateway publishes under version 0 again |
| `EnvoyDeployer.ChangeReachesStream` | kubvernor-controller/src/backends/envoy/envoy_xds_backend/envoy_deployer.rs:134-144 | a deployed change leaves every bound stream up to date on both types |
| `EnvoyDeployer.ReconnectLeftBehindIff` | kubvernor-controller/src/backends/envoy/envoy_xds_backend/envoy_deployer.rs:127-157 | a proxy that reconnects repeating the version of the deployed change it holds is left without the lists exactly if its old bound record is still held, or the change was the gateway's first since its last deletion |
| `EnvoyDeployer.Deployer.HandleEvent` | kubvernor-controller/src/backends/envoy/envoy_xds_backend/envoy_deployer.rs:112-157 | the version map and the messages sent are those of the run |
| `MultiReferences.RunCovered` | kubvernor-controller/src/common/references_resolver/multi_references_resolver.rs:110-206 | in every run a count is at least the number of (gateway, route) sites, and every listed count is positive |
| `MultiReferences.CountLaw` | kubvernor-controller/src/common/references_resolver/multi_references_resolver.rs:110-206 | in every run a count is the number of sites plus the exact excess of all route deletions so far |
| `MultiReferences.CountExactIff` | kubvernor-controller/src/common/references_resolver/multi_references_resolver.rs:176-206 | the count is exact if and only if every route deletion found the reference under at most one gateway |
| `MultiReferences.LeftoversAreLeaks` | kubvernor-controller/src/common/references_resolver/multi_references_resolver.rs:176-206 | once no gateway is left, the references still polled are exactly the leaked ones |
| `MultiReferences.ValueDroppedIff` | kubvernor-controller/src/common/references_resolver/multi_references_resolver.rs:44-52 | a call drops a resolved value exactly when it takes the count to zero, so a value still used is kept unchanged |
| `MultiReferences.StoredIs` | kubvernor-controller/src/common/references_resolver/multi_references_resolver.rs:56-78 | after every run a reference has a value exactly if its last poll answered with one and no call dropped it since, with the body of that poll, and as a whole the value of the first poll since which the body is the same |
| `MultiReferences.Notified` | kubvernor-controller/src/common/references_resolver/multi_references_resolver.rs:256-279 | the notified gateways are those with a site of the reference |
| `MultiReferences.NotifiedRoutesExactIff` | kubvernor-controller/src/common/references_resolver/multi_references_resolver.rs:259-278 | the routes notified include all that use the reference, and only those exactly if every route of every notified gateway uses it |
| `MultiReferences.RouteKeptIff` | kubvernor-controller/src/common/references_resolver/multi_references_resolver.rs:110-170 | after every run a gateway has a route exactly if some announcement of it was neither replaced nor the route deleted since, and with the references announced then |
| `MultiReferences.MappingIsAnnouncedIff` | kubvernor-controller/src/common/references_resolver/multi_references_resolver.rs:110-133 | after every run a gateway's routes are those it announced last, unless it announced an empty list, which is ignored, and the history keeps some route of it |
| `MultiReferences.WithdrawnRouteKept` | kubvernor-controller/src/common/references_resolver/multi_references_resolver.rs:110-133 | for instance, a gateway that takes back its only route by announcing none keeps it, and its reference stays counted |
| `MultiReferences.Resolver.AddReferencesForGateway` | kubvernor-controller/src/common/references_resolver/multi_references_resolver.rs:110-149 | the nested loops decrement the old uses, increment the new ones and purge: the new state is the step's |
| `MultiReferences.Resolver.DeleteReferencesForGateway` | kubvernor-controller/src/common/references_resolver/multi_references_resolver.rs:151-174 | the new state is the step's, and nothing changes for an unknown gateway |
| `MultiReferences.Resolver.DeleteRouteReferences` | kubvernor-controller/src/common/references_resolver/multi_references_resolver.rs:176-206 | each released reference is decremented once, however many gateways lose it; the affected gateways are returned |
| `MultiReferences.Resolver.ApplyPoll` | kubvernor-controller/src/common/references_resolver/multi_references_resolver.rs:53-77 | a polled value replaces the stored one, and notifies, only if it differs beyond its metadata |
| `Orders.KeyLaws` | kubvernor-common/src/resource_key.rs:30-68 | the derived order of resource keys is a total order |
| `Orders.KeyOrderIs` | kubvernor-common/src/resource_key.rs:30-68 | keys are ordered by group, then namespace, then name, then kind, each lexicographically |
| `RoutePrecedence.HttpTotalPreorder` | kubvernor-controller/src/backends/envoy/common/route/http_route.rs:39-113 | the HTTP comparator is a total preorder |
| `RoutePrecedence.GrpcTotalPreorder` | kubvernor-controller/src/backends/envoy/common/route/grpc_route.rs:30-68 | the gRPC comparator is a total preorder |
| `RoutePrecedence.EveryRuleEffective` | kubvernor-controller/src/backends/envoy/common/resource_generator.rs:81-119 | the HTTP effective rules are exactly the rules of the HTTP routes with each of their matchers, or the default one |
| `RoutePrecedence.EveryGrpcRuleEffective` | kubvernor-controller/src/backends/envoy/common/resource_generator.rs:121-144 | the same for gRPC |
| `RoutePrecedence.HttpEffectiveOrder` | kubvernor-controller/src/backends/envoy/common/resource_generator.rs:81-120 | effective rules come in the order of routes, rules and matchers, by which ties in precedence go |
| `RoutePrecedence.GrpcEffectiveOrder` | kubvernor-controller/src/backends/envoy/common/resource_generator.rs:122-150 | the same for gRPC |
| `RoutePrecedence.HttpRequestReachesBest` | kubvernor-controller/src/backends/envoy/common/resource_generator.rs:146-159 | for any request predicate and hostname filter, the first match of the sorted, filtered list is the one matching rule of highest precedence in the unsorted list, ties going to the earlier one |
| `RoutePrecedence.GrpcRequestReachesBest` | kubvernor-controller/src/backends/envoy/common/resource_generator.rs:161-174 | the same for gRPC rules |
| `RoutePrecedence.ComparatorIsRanking` | kubvernor-controller/src/backends/envoy/common/route/http_route.rs:46-113 | the HTTP comparator is the ranking by header count, then path class and length, then method; query parameters have no part in it |
| `RoutePrecedence.GrpcComparatorIsRanking` | kubvernor-controller/src/backends/envoy/common/route/grpc_route.rs:37-68 | the gRPC comparator is the ranking by header count, then method name, then service |
| `RoutePrecedence.ReachedIsRankedFirst` | kubvernor-controller/src/backends/envoy/common/resource_generator.rs:146-159 | no accepting rule outranks the rule that a request reaches |
| `RoutePrecedence.GrpcReachedIsRankedFirst` | kubvernor-controller/src/backends/envoy/common/resource_generator.rs:161-174 | the same for gRPC rules |
| `RoutePrecedence.HeaderlessReachedIff` | kubvernor-controller/src/backends/envoy/common/resource_generator.rs:67-74 | a request reaches a rule without a header list exactly if no accepting rule has one; the default matcher has one |
| `RoutePrecedence.DocumentedIff` | kubvernor-controller/src/backends/envoy/common/route/http_route.rs:96-113 | exactly when two matchers that the Gateway API orders, one way at most, are ordered as it documents, by the criterion that orders them |
| `RoutePrecedence.DocumentedForFullPaths` | kubvernor-controller/src/backends/envoy/common/route/http_route.rs:68-113 | with paths as the API server stores them: a pair ordered by path is exactly if the other matcher has no more header entries |
| `RoutePrecedence.HeaderBeatsExactPath` | kubvernor-controller/src/backends/envoy/common/route/http_route.rs:96-113 | a reversed pair: an exact path loses its requests to a prefix with one header |
| `StableSorting.FilterSortCommute` | kubvernor-controller/src/backends/envoy/common/resource_generator.rs:146-174 | filtering after the stable sort equals sorting the filtered list, for any total preorder |
| `StableSorting.FirstMatchIsBest` | kubvernor-controller/src/backends/envoy/common/resource_generator.rs:146-174 | the first match of a stably sorted list is the earliest of the best matches of the list |
| `StableSorting.BestIsFirstMatch` | kubvernor-controller/src/backends/envoy/common/resource_generator.rs:146-174 | there is only one such match, so whatever is best is what the sorted list yields |
| `StableSorting.StableSortUnique` | kubvernor-controller/src/backends/envoy/common/resource_generator.rs:146-174 | any sorted list with the same equivalence classes in the same order is the stable sort's result |
| `ClusterGeneration.GenerateGrounded` | kubvernor-controller/src/backends/envoy/common/resource_generator.rs:334-440 | in every generated result each rule of a virtual host comes from an attached route of its kind, and its pools were collected, however listeners share ports |
| `VirtualHosts.VirtualHostOfLast` | kubvernor-controller/src/backends/envoy/common/resource_generator.rs:334-423 | for every listener list, a port has a virtual host of a name exactly if an HTTP or HTTPS listener on it has one, and it is that of the last such listener: its routes attached, and exactly those of their rules that serve the hostname |
| `VirtualHosts.HostnamesOutcome` | kubvernor-controller/src/backends/envoy/common/resource_generator.rs:542-557 | a listener's hostnames are its own alone, if given and neither empty nor "*"; exactly those of its resolved routes, if none is given and they have some; or else "*" alone; without duplicates |
| `VirtualHosts.TcpOfPort` | kubvernor-controller/src/backends/envoy/common/resource_generator.rs:340-365 | a port lists exactly the TCP listeners on it |
| `VirtualHosts.CollectedIff` | kubvernor-controller/src/backends/envoy/common/resource_generator.rs:400-412 | a pool is collected exactly if an HTTP rule that serves a hostname of an HTTP or HTTPS listener uses it |
| `ClusterGeneration.ClustersOutcome` | kubvernor-controller/src/backends/envoy/common/resource_generator.rs:248-332 | generated clusters are strictly sorted by name, without duplicates, and have exactly the collected names |
| `ClusterGeneration.ClusterExistsIff` | kubvernor-controller/src/backends/envoy/common/resource_generator.rs:265-331 | a name has a cluster exactly if an attached route has a resolved, positively weighted backend of that name or a collected pool with an extension has it |
| `ClusterGeneration.UsedBackendHasCluster` | kubvernor-controller/src/backends/envoy/common/resource_generator.rs:273-322 | every resolved, positively weighted backend used by a generated route has a cluster |
| `RouteConversion.HttpConversion` | kubvernor-controller/src/backends/envoy/envoy_xds_backend/route_converters/http.rs:108-240 | an HTTP rule makes one route, or one for each of its pools in order with the ext-proc filter if the pool has an extension; each is split over the clusters of the weighted backends and mirrored to the mirrored service, unless it redirects |
| `RouteConversion.GrpcConversion` | kubvernor-controller/src/backends/envoy/envoy_xds_backend/route_converters/grpc.rs:30-100 | a gRPC rule makes one route, which splits requests over the clusters of its weighted services |
| `Backends.ClusterNameIff` | kubvernor-controller/src/common/mod.rs:231-254 | two backends share a cluster name exactly if they share name and namespace, whatever their kinds and ports |
| `ClusterGeneration.HttpRouteClustersExist` | kubvernor-controller/src/backends/envoy/envoy_xds_backend/route_converters/http.rs:168-235 | every cluster an HTTP route names, weighted or mirrored, exists unless a backend of that name in the rule is not resolved or has no weight |
| `ClusterGeneration.GrpcRouteClustersExist` | kubvernor-controller/src/backends/envoy/envoy_xds_backend/route_converters/grpc.rs:65-90 | the same for gRPC routes |
| `ClusterGeneration.SurvivingCluster` | kubvernor-controller/src/backends/envoy/common/resource_generator.rs:265-331 | of several clusters of one name the last of the attached routes' is generated, or else the first ext-proc one |
| `ClusterGeneration.BackendOwnClusterIff` | kubvernor-controller/src/backends/envoy/common/resource_generator.rs:265-331 | the cluster of a backend's name has the backend's own endpoint exactly if the last attached cluster of that name does |
| `ClusterGeneration.SecondPortTakesName` | kubvernor-controller/src/backends/envoy/common/resource_generator.rs:265-331 | of a service that a rule uses on two ports only the cluster of the second is generated |
| `ClusterGeneration.VirtualHostReachesBest` | kubvernor-controller/src/backends/envoy/common/resource_generator.rs:391-411 | the first rule of a virtual host that accepts a request is the best of the listener's rules for the hostname |
| `ClusterGeneration.PortOfFirstListener` | kubvernor-controller/src/backends/envoy/common/resource_generator.rs:334-440 | the listener of a port is named after the gateway and takes TLS settings and ext-proc filter from the first listener on the port alone |
| `ClusterGeneration.ServedIff` | kubvernor-controller/src/backends/envoy/common/resource_generator.rs:334-440 | an HTTP listener is served with its own TLS settings, and the ext-proc filter if it needs it, exactly if the first listener on the port asks for the same TLS and needs the filter if this one does |
| `ClusterGeneration.SecondCertificateUnused` | kubvernor-controller/src/backends/envoy/common/resource_generator.rs:334-440 | the second of two HTTPS listeners on a port is served with the first one's certificates |
| `ClusterGeneration.ExtProcClusterExists` | kubvernor-controller/src/backends/envoy/common/mod.rs:114-157 | every ext-proc cluster name the converter puts on a route is a generated cluster, although both sides build the name on their own |
| `ClusterGeneration.ResourceGenerator.GenerateListener` | kubvernor-controller/src/backends/envoy/common/resource_generator.rs:384-440 | the loop over hostnames adds virtual hosts and pools as the fold specifies |
| `ClusterGeneration.ResourceGenerator.GenerateListeners` | kubvernor-controller/src/backends/envoy/common/resource_generator.rs:334-382 | the fold over the gateway's listeners |
| `OrionResources.CreateListenerResources` | kubvernor-controller/src/backends/envoy/orion_xds_backend/orion_deployer.rs:358-500 | the loop lists one resource for each generated port, in the order of the ports |
| `OrionResources.ListenersCoherentIff` | kubvernor-controller/src/backends/envoy/common/resource_generator.rs:432-433 | a gateway's listener list is coherent exactly if at most one port is generated |
| `OrionResources.ProxyHoldsHighestPort` | kubvernor-controller/src/backends/envoy/orion_xds_backend/orion_deployer.rs:358-500 | a proxy given the list holds one listener, that of the highest port |
| `OrionResources.ListenerChangeIff` | kubvernor-controller/src/backends/envoy/orion_xds_backend/server.rs:130-151 | a change of listeners takes the proxy to the new list's view exactly if no port is left, the highest port's listener is new, or it was the highest before and no listener is new |
| `OrionResources.ClustersCoherent` | kubvernor-controller/src/backends/envoy/common/resource_generator.rs:324-331 | generated cluster lists are always coherent |
| `OrionResources.GeneratedClustersInStep` | kubvernor-controller/src/backends/envoy/orion_xds_backend/server.rs:153-163 | so in every run with generated clusters each orion proxy is kept in step on them |
| `BackendResolution.RouteResolvedIff` | kubvernor-controller/src/controllers/utils/routes_resolver.rs:62-98 | a route ends resolved exactly if every backend of every rule, HTTP filter backends included, was resolved before or is open, allowed and found |
| `BackendResolution.GrantsRespectedIff` | kubvernor-controller/src/controllers/utils/routes_resolver.rs:54-59 | the exact condition for a route to one open, known backend to end resolved just if the backend is of the route's namespace or granted |
| `BackendResolution.UngrantedBackendUsed` | kubvernor-controller/src/controllers/utils/routes_resolver.rs:54-59 | a route of one namespace at a gateway of another uses a service of a third without any grant |
| `BackendResolution.RemapOutcome` | kubvernor-controller/src/controllers/utils/routes_resolver.rs:100-122 | a headless service maps a port to the target of its first port of that number if that is a number; every other port stays |
| `BackendResolution.ServiceOutcome` | kubvernor-controller/src/controllers/utils/routes_resolver.rs:150-230 | an allowed and known service is resolved with the remapped port, and keeps key, port and weight; a refused and an unknown one differ in status |
| `BackendResolution.ProcessBackendsOutcome` | kubvernor-controller/src/controllers/utils/routes_resolver.rs:124-148 | a list's status is resolved exactly if every backend ends resolved, and keys and weights are kept as a multiset |
| `BackendResolution.PoolsComeLast` | kubvernor-controller/src/controllers/utils/routes_resolver.rs:124-148 | the processed list is the original at the ascending positions of all services, then at those of all pools |
| `BackendResolution.ResolveRouteOutcome` | kubvernor-controller/src/controllers/utils/routes_resolver.rs:62-98 | a route is resolved exactly if every processed backend, HTTP filter backends included, ends resolved; every rule keeps its keys and weights |
| `BackendResolution.RouteStatusIsLast` | kubvernor-controller/src/controllers/utils/routes_resolver.rs:62-98 | a failing route reports the status of the backend processed last among those that failed |
| `BackendResolution.ProcessBackendsLoop` | kubvernor-controller/src/controllers/utils/routes_resolver.rs:124-148 | the two loops compute that list and status |
| `BackendResolution.Resolve` | kubvernor-controller/src/controllers/utils/routes_resolver.rs:62-98 | the loop over the rules computes that route |
| `RouteAttachment.MatchedIff` | kubvernor-controller/src/controllers/utils/route_listener_matcher.rs:64-122 | a listener is matched exactly if some parent reference selects it and namespace and hostname filters pass |
| `RouteAttachment.StatusIsLastFailure` | kubvernor-controller/src/controllers/utils/route_listener_matcher.rs:64-122 | the status is what the last failing parent reference reports, in terms of the listeners alone: none admits the namespace, none that does serves the hostnames, or none that does both is the named one |
| `RouteAttachment.FinalStatusIs` | kubvernor-controller/src/controllers/utils/routes_resolver.rs:377-414 | a route ends with the failure reported last, or else with what its backends resolved to |
| `RouteAttachment.FilterRightIff` | kubvernor-controller/src/controllers/utils/route_listener_matcher.rs:161-206 | without a selector, exactly when the filter admits a kind of route and a namespace just if the listener, with the documented defaults of its fields, does |
| `RouteAttachment.SelectorRightIff` | kubvernor-controller/src/controllers/utils/route_listener_matcher.rs:176-196 | with a selector of match labels and match expressions, exactly when the filter is right, in terms of the selector and the namespace's labels alone |
| `RouteAttachment.OneLabelAdmitted` | kubvernor-controller/src/controllers/utils/route_listener_matcher.rs:176-196 | a namespace with one of two demanded labels is admitted, and to a listener for TCP routes |
| `RouteAttachment.ExpressionsUnread` | kubvernor-controller/src/controllers/utils/route_listener_matcher.rs:176-196 | a namespace is admitted for a label though it does not meet an expression, and refused though it meets all where there are no labels |
| `RouteAttachment.GrpcOnlyAdmitsNothing` | kubvernor-controller/src/controllers/utils/route_listener_matcher.rs:170-174 | a listener that lists kinds without HTTPRoute admits no route, though it publishes gRPC routes as supported if it lists them |
| `RouteAttachment.AttachedAt` | kubvernor-controller/src/controllers/utils/routes_resolver.rs:417-432 | with distinct keys a listener holds exactly the routes it matched, each with its final status |
| `RouteAttachment.ThreeWaySplit` | kubvernor-controller/src/controllers/utils/routes_resolver.rs:377-414 | every linked route is exactly one of resolved on some listener, unresolved on some listener, or orphaned, over all listeners of the gateway |
| `RouteAttachment.OnlyLinked` | kubvernor-controller/src/controllers/utils/routes_resolver.rs:377-414 | no other route is attached or orphaned |
| `RouteAttachment.NamespaceFlag` | kubvernor-controller/src/controllers/utils/route_listener_matcher.rs:161-206 | the flag loop computes the namespace filter |
| `RouteAttachment.FilterMatchingRoute` | kubvernor-controller/src/controllers/utils/route_listener_matcher.rs:64-122 | the loop over parent references computes the matched listeners and status |
| `RouteAttachment.SplitRoutes` | kubvernor-controller/src/controllers/utils/routes_resolver.rs:377-432 | the loops compute the attached and orphaned routes |
| `ListenerStatus.AllowedRoutesOutcome` | kubvernor-controller/src/common/listener.rs:421-442 | the starting condition keeps only approved kinds and is invalid exactly if kinds are listed and none is approved |
| `ListenerStatus.TlsOutcome` | kubvernor-controller/src/controllers/utils/tls_config_validator.rs:42-155 | for any certificate list the listener ends InvalidCertificates or RefNotPermitted exactly if some certificate ends unresolved, the last failing one fixing which |
| `ListenerStatus.CertificateContent` | kubvernor-controller/src/controllers/utils/tls_config_validator.rs:61-140 | a usable certificate carries the secret's certificate and key, and whether the secret is of the own namespace; one that is read but does not parse is invalid |
| `ListenerStatus.PublishOutcome` | kubvernor-controller/src/services/gateway_deployer/gateway_deployer_internal.rs:140-208 | for any condition set at most one condition per type is published, that of the highest class |
| `ListenerStatus.PipelineOutcome` | kubvernor-controller/src/services/gateway_deployer/gateway_deployer_internal.rs:94-138 | each listener ends with exactly one ResolvedRefs-class condition, never UnresolvedRouteRefs, and that condition decides the others |
| `ListenerStatus.AdjustOutcome` | kubvernor-controller/src/services/gateway_deployer/gateway_deployer_internal.rs:94-138 | what the adjustment leaves of any condition set, class by class |
| `ListenerStatus.PipelineCounts` | kubvernor-controller/src/services/gateway_deployer/gateway_deployer_internal.rs:97-103 | the attached-route count is always resolved plus unresolved, so the accounting check never fires |
| `ListenerStatus.ProgrammedIff` | kubvernor-controller/src/services/gateway_deployer/gateway_deployer_internal.rs:94-138 | a listener ends programmed exactly if its least unresolved route is not permitted its backend, or no certificate ends unresolved and not all listed kinds are unknown |
| `ListenerStatus.MaskedCertificateProgrammed` | kubvernor-controller/src/services/gateway_deployer/gateway_deployer_internal.rs:94-138 | a listener whose only certificate is missing is programmed if its only unresolved route is not permitted, and not programmed without that route |
| `ListenerStatus.PipelinePublishes` | kubvernor-controller/src/common/listener.rs:366-406 | the conditions a pipeline run publishes, in order, and the supported kinds |
| `ListenerStatus.PublishedStatus` | kubvernor-controller/src/common/listener.rs:366-406 | the published list in terms of the specification, certificates and routes alone: ResolvedRefs with its reason, Accepted unless a bad certificate decides, Programmed; the last two true exactly if the listener is up |
| `ListenerStatus.PublishedKindsOutcome` | kubvernor-controller/src/common/listener.rs:407-442 | the published supported kinds in the same terms |
| `ListenerStatus.ListenerObject.ValidateCertificates` | kubvernor-controller/src/controllers/utils/tls_config_validator.rs:42-155 | the certificate loop leaves the listener as the validation specifies |
| `ListenerStatus.ListenerObject.AttachRoutes` | kubvernor-controller/src/common/listener.rs:196-220 | route sets, count and the masking of ResolvedRefs by the least unresolved route |
| `ListenerStatus.ListenerObject.AdjustStatuses` | kubvernor-controller/src/services/gateway_deployer/gateway_deployer_internal.rs:94-138 | replace, insert and remove act per condition class |
| `ListenerStatus.ListenerObject.PublishStatus` | kubvernor-controller/src/services/gateway_deployer/gateway_deployer_internal.rs:140-208 | the retain-and-push loop publishes the specified conditions, kinds and count |
| `ReferenceGrants.AllowedIff` | kubvernor-controller/src/common/references_resolver/reference_grants_resolver.rs:199-266 | a round allows exactly the registered references with a listed grant in their target namespace that matches source and target, by exact or absent name |
| `ReferenceGrants.ChangedIff` | kubvernor-controller/src/common/references_resolver/reference_grants_resolver.rs:247-264 | the notified gateways are exactly those whose allowed references changed |
| `ReferenceGrants.RunNoMissedChange` | kubvernor-controller/src/common/references_resolver/reference_grants_resolver.rs:199-267 | in every run what a gateway knew at its last notification is what is allowed for it now |
| `ReferenceGrants.RunRegisteredIff` | kubvernor-controller/src/common/references_resolver/reference_grants_resolver.rs:153-165 | a reference is registered exactly if some call added it and no later call deleted it |
| `ReferenceGrants.RunAllowedIff` | kubvernor-controller/src/common/references_resolver/reference_grants_resolver.rs:269-280 | a query is answered by the references registered at the last round, whatever was added or deleted since |
| `ReferenceGrants.GrantedMeans` | kubvernor-controller/src/common/references_resolver/reference_grants_resolver.rs:199-245 | an entry is granted exactly if the namespace referred to has a listed grant that names the group, kind and namespace of the source, and the group and kind of the target and its name or none |
| `ReferenceGrants.SearchedBackendAllowedIff` | kubvernor-controller/src/common/references_resolver/reference_grants_resolver.rs:108-151 | search and query build the same entry: after registration and a round, the query for each open service backend of a linked route's rule answers whether such a grant is listed |
| `ReferenceGrants.CertificateAllowedIff` | kubvernor-controller/src/common/references_resolver/reference_grants_resolver.rs:108-151 | the same for each certificate of a terminating HTTPS or TLS listener |
| `ReferenceGrants.FilterBackendAllowedIff` | kubvernor-controller/src/controllers/utils/routes_resolver.rs:62-98 | for filter backends, which the search leaves out, a grant counts only if some linked route's rule backend or an earlier search registered the same reference |
| `ReferenceGrants.SearchReferences` | kubvernor-controller/src/common/references_resolver/reference_grants_resolver.rs:108-151 | the loops find exactly the undecided service backends of linked routes and the listeners' certificates |
| `ReferenceGrants.ReferenceGrantsResolver.ResolveInternal` | kubvernor-controller/src/common/references_resolver/reference_grants_resolver.rs:199-267 | one round: the new allowed set, and who is notified |
| `PoolIndex.RunRecorded` | kubvernor-state/src/inmemory.rs:345-381 | after every run the index holds, per gateway and route, exactly the pools of the first attach since the last detach |
| `PoolIndex.RunHasRouteIff` | kubvernor-state/src/inmemory.rs:345-381 | a route is indexed at a gateway exactly if some attach was not detached since |
| `PoolIndex.RunByPool` | kubvernor-state/src/inmemory.rs:300-315 | a pool's gateways are those at which the history records it for some route |
| `PoolIndex.ReattachKeepsPools` | kubvernor-state/src/inmemory.rs:353-358 | attaching again with other pools has no effect |
| `PoolIndex.ChangedPoolNotFound` | kubvernor-state/src/inmemory.rs:300-358 | a route that changes from one pool to another is found by the old one, and not by the new one |
| `PoolIndex.State.AttachInferencePool` | kubvernor-state/src/inmemory.rs:345-362 | the new index is the step's |
| `PoolIndex.State.DetachInferencePool` | kubvernor-state/src/inmemory.rs:364-381 | the new index is the step's and the pools returned are those recorded |
| `PoolIndex.State.FindGatewaysByInferencePool` | kubvernor-state/src/inmemory.rs:300-315 | the nested loops compute the by-pool query |
| `PoolIndex.State.FindGatewaysByRouteAndInferencePool` | kubvernor-state/src/inmemory.rs:317-343 | the result is the union of the by-pool query over the pools recorded for the route, empty if the route is recorded nowhere |
| `SecretReferences.RunMultiplicity` | kubvernor-controller/src/common/references_resolver/secrets_resolver/reference_resolver.rs:51-96 | in every run a multiplicity is the greatest balance of adds over deletes of any suffix of the run |
| `SecretReferences.RunAddsMinusDeletes` | kubvernor-controller/src/common/references_resolver/secrets_resolver/reference_resolver.rs:51-96 | it is adds minus successful deletes |
| `SecretReferences.RunPresentIff` | kubvernor-controller/src/common/references_resolver/secrets_resolver/reference_resolver.rs:80-96 | a key is present exactly if some suffix added it for some gateway more often than it deleted it |
| `SecretReferences.DroppedIff` | kubvernor-controller/src/common/references_resolver/secrets_resolver/reference_resolver.rs:87-91 | a call drops a key, or its value, exactly if it is the delete that empties its multiset |
| `SecretReferences.StoredIs` | kubvernor-controller/src/common/references_resolver/secrets_resolver/reference_resolver.rs:102-162 | after every run a key has a value exactly if its last poll answered with one and no delete dropped it since, with the body of that poll and the metadata of the first since which the body is the same |
| `PolledValues.HeldIs` | kubvernor-controller/src/common/references_resolver/secrets_resolver/reference_resolver.rs:118-137 | for any history of polls and drops: when a value is held, its body, and the poll that it comes from |
| `SecretReferences.LeftoverIff` | kubvernor-controller/src/common/references_resolver/secrets_resolver/reference_resolver.rs:102-162 | after every run a value is stored for an unreferenced key exactly if a poll answered while it was unreferenced, and it stayed so without a poll that missed it |
| `SecretReferences.LatePollKept` | kubvernor-controller/src/common/references_resolver/secrets_resolver/reference_resolver.rs:102-162 | for instance, no delete drops a value polled after the last reference is gone |
| `SecretReferences.ReferencesResolver.AddReferencesForGateway` | kubvernor-controller/src/common/references_resolver/secrets_resolver/reference_resolver.rs:51-76 | the loop counts the gateway once more under each key |
| `SecretReferences.ReferencesResolver.DeleteReferencesForGateway` | kubvernor-controller/src/common/references_resolver/secrets_resolver/reference_resolver.rs:78-96 | the loop removes one occurrence under each key |
| `AgentBinds.GenerateBindingsAndListeners` | kubvernor-controller/src/backends/agentgateway/resource_generator.rs:84-145 | the loop computes the fold |
| `AgentBinds.FoldGroups` | kubvernor-controller/src/backends/agentgateway/resource_generator.rs:84-145 | the fold's binds are exactly those of the listeners, each with exactly its own listeners in order |
| `AgentBinds.ListenerUnderOneBind` | kubvernor-controller/src/backends/agentgateway/resource_generator.rs:84-145 | every listener is under exactly one bind, its own, and every listener carries its bind's key |
| `AgentBinds.BindsDistinct` | kubvernor-controller/src/backends/agentgateway/resource_generator.rs:60-112 | no bind is empty and no two binds share a key |
| `AgentBinds.TlsIff` | kubvernor-controller/src/backends/agentgateway/resource_generator.rs:114-133 | a terminating listener gets TLS material exactly if the validation resolves a certificate of the gateway's own namespace |
| `AgentBinds.ConvertedListener` | kubvernor-controller/src/backends/agentgateway/resource_generator.rs:84-145 | a validated listener keeps name, protocol and hostname, is bound to its port and kind of protocol, and gets the certificate and key of its first usable secret of the own namespace exactly if it terminates HTTPS or TLS |
| `AgentBinds.GrantedCertificatesUnused` | kubvernor-controller/src/backends/agentgateway/resource_generator.rs:114-133 | a listener with only granted certificates of other namespaces passes the validation and gets none |
| `AgentBinds.GenerateRoutes` | kubvernor-controller/src/backends/agentgateway/resource_generator.rs:147-263 | the nested loops produce one resource for each rule of each attachment |
| `AgentBinds.EveryRuleSent` | kubvernor-controller/src/backends/agentgateway/resource_generator.rs:147-263 | exactly the rules of the attachments are sent, each under its route's name twice and its number, on the attachment's listener, with its content |
| `AgentBinds.RouteKeysDistinctIff` | kubvernor-controller/src/backends/agentgateway/resource_generator.rs:243 | generated route keys are distinct exactly if no route name occurs in two attachments with rules |
| `AgentBinds.SentCoherentIff` | kubvernor-controller/src/backends/agentgateway/server.rs:170-181 | the coherence the delta server needs holds of the generated routes exactly then |
| `AgentBinds.ProxyHoldsLastAttachment` | kubvernor-controller/src/backends/agentgateway/server.rs:389-432 | of a route attached several times the proxy holds only the last attachment's resource |

## Left out

- Kubernetes API calls, watch loops, patchers, finalizers, and the building of Deployments, Services and ConfigMaps: their behaviour is the cluster's.
- Protobuf encoding: a resource is a name and an encoded body.
- Hostname matching: the matcher library is not part of this model; hostname filters are arbitrary predicates on a hostname and a list.
- PEM parsing: whether a certificate or key is well-formed is an arbitrary set of accepted strings.
- Mutexes, channels and timers: each handled message is one atomic step; a failed send is not modelled, and the poll of a resolver is an event with any answer at any time.
- Inference weight percentages: the value is passed to an unused parameter.
- Header, path, rewrite, redirect and timeout settings of generated envoy routes: only what names a cluster, and the presence of a redirect, is kept.
- Backends, policies and workloads of the agentgateway generator: maps keyed by their generated names.
- The gateway-to-route index, the gateway, route and pool stores, and `Gateway::routes`: each is one map with insert, remove and look-up, and no other modelled part depends on more than that.
- Protocols and kinds outside the five listener protocols: the conversion of a listener rejects them.
- The 32-bit width of weights, versions and counts, except the unsigned cast of a bind's port and the attached-route count, which is published as 0 beyond 32 bits.
- `BindProtocol` numbers: they belong to the agentgateway API crate, which is not part of this model; any distinct numbers are allowed.
- DeltaServer.RunInStep: requires every publication of the type to be stable; `StaysInStepIff` shows that this is exact, and `OrionResources.ListenerChangeIff` and `AgentBinds.SentCoherentIff` say when the generated lists meet it.
- DeltaServer.RunNamesInStep: excludes orion clusters, for which `ClusterNames` gives the exact condition.
- EnvoyXds.LeftBehindIff: requires the requests of a stream to come from one node, `ChangedNodeLeftBehind` giving the exact outcome of a changed node.
- ReferenceGrants.AllowedIff: requires that listing a namespace returns grants of that namespace, as the Kubernetes API does.
- RouteAttachment.ThreeWaySplit: requires distinct route keys, which the store's maps guarantee.
- SecretReferences.RunMultiplicity: requires the keys of one call to be distinct, which the ordered set they come in guarantees.
- AgentBinds.SentCoherentIff: requires that no route is listed twice on one listener, which the listener's route sets guarantee, and that encoding is injective.
- ReferenceGrants.FilterBackendAllowedIff: requires the route's kind to differ from the gateway's, as the kinds of stored objects do.
- OrionResources.ListenersCoherentIff: requires that encoding is injective; what a listener resource holds beyond the modelled fields only adds differences.
