# ErieCanalNet: verified models

Dafny models of the parts of ErieCanalNet in which a mistake is hardest to see, with proofs of what they promise. Each
module follows one part of the system. Code that the system runs step by step is a class or a method with a loop,
proved against a function of its inputs; what the system is for is then proved about those functions and about whole
runs. `dafny verify dfyconfig.toml` checks everything.

| part of the system | modules |
|---|---|
| DNS responder in the kernel: question parsing, lookup, reply in place, checksums | `Words`, `Checksum`, `DnsName`, `DnsMessage`, `DnsResponder`, `ReplySum` |
| Data plane: the tables behind the responder, kept in step with the mesh policy, and the answers given from them | `Packing`, `DnsSync`, `Answers` |
| Connection redirection by four socket hooks that share three maps | `Redirect`, `Connections` |
| Traffic policy: services and imports, catalog policy, compiled routes, balanced clusters | `Text`, `Services`, `Imports`, `Catalog`, `Routing`, `Compiler`, `Meaning`, `Balance`, `Provider`, `Reach` |
| Message broker: coalescing of broadcasts under two timers | `Broker`, `Dispatch` |
| Proxy at run time: choice of rule and clusters, circuit breaker, retry and failover by replay | `Proxy`, `Breaker`, `Replay` |
| Publication of a configuration to the repository server | `Publish` |

## Main results

* After any number of syncs and one with the present mesh, a query (A or AAAA) to any DNS endpoint for any hostname of a
  service that is not plain TCP is sent back, and the emitted octets decode by section 4.1 of RFC 1035 to the bridge address
  for that name (`Answers.MeshHostnameIsAnswered`, a method that runs both syncs and the responder; `Answers.EverySyncRun`
  over all runs).
* In every run of connects, establishments, closes and evictions, the original destination that the proxy is told is
  characterised by the events alone (`Connections.OriginExactly`), is what its own client asked for as long as nothing was
  evicted (`Connections.Transparent`), and a redirected message only reaches the sender's TCP peer
  (`Connections.RedirectsToThePeer`). Which sockets are redirected is stated by the events as well
  (`Connections.DialingExactly`).
* Compilation preserves meaning in both directions, for every list of services with plain names
  (`Meaning.RulesMeanServices`, `Meaning.HostsMeanServices`), down to the addresses of the imported endpoints
  (`Reach.RequestReaches`), and through the proxy at run time: the rule that a request gets names exactly the clusters of
  the services with its hostname, with their weights (`Proxy.RuleExactly`), and every attempt at a request, over all retries
  and failovers, goes to an imported endpoint that fits a service of its hostname (`Proxy.RequestGoesToItsService`). What it
  refers to has endpoints when it reports ready (`Balance.ReferentialIntegrity`), and a mesh of single-port imports always
  is ready (`Reach.SinglePortMeshIsReady`).
* In every run the dispatcher receives exactly the broadcasts of the messages processed, in their order
  (`Dispatch.OrderIsKept`), loses and duplicates none (`Dispatch.EveryRun`), and with punctual timers publishes every batch
  exactly when it falls due (`Dispatch.EveryPunctualRun`, `Dispatch.HeldAtMostTheMaxWindow`).
* The circuit breaker opens on exactly the responses that a count over the run's own events says (`Breaker.OpensExactly`).
  The breaker, the replay of requests and the publication protocol are characterised over all event sequences, replies and
  network faults; the attempts at a request are determined by the replies (`Replay.RepeatsExactly`,
  `Replay.ServedIsUnique`).

## Where the code falls short of what one would expect

For each, the lemma that says exactly when it happens, and the one that shows it at an input where that is another.

* The UDP checksum folds once: a reply is refused exactly when the two halves of its sum, known from the query, the record and
  the cluster address, add with a carry (`ReplySum.ReplyAcceptedExactly`); every query that is answered has a transaction id
  with which its reply is refused (`ReplySum.EveryHitCanBeRefused`).
* A reply decodes exactly when the query announced one question and nothing after it, because three counts are copied
  (`DnsMessage.ReplyDecodes`). So every query that is answered stops being answered legibly once it announces an additional
  record, as queries with extension mechanisms do (`DnsResponder.AdditionalDoesNotDecode`).
* A name whose packed form fills all 256 octets is stored but never matched (`DnsName.OverlongNeverMatches`); a service
  and a trust domain with names of the greatest lengths have such a hostname (`Answers.OverlongHostname`).
* Deleting a DNS record packs the name without the final dot that the update adds, so it removes nothing that the update of
  the same hostname wrote, unless that is empty (`Packing.DeletionIsVoid`; between two hostnames, `Packing.DeletionExactly`
  and `Packing.DeletionNeedsTheDot`), and records of hostnames that left the mesh stay (`Answers.EverySyncRun`).
* Pair entries outlive their connection, so a socket that dials the proxy itself from a reused address is attributed the
  destination of an older connection (`Connections.StaleExactly`, `Connections.StaleAnswer`).
* Two imported endpoints at one address and port overwrite each other's annotations (`Imports.AnnotationRoundTrip`,
  `Imports.TwinsLoseTheirKey`).
* The second port of an import is listed as a service, but its endpoints are looked up on the first
  (`Reach.ServedExactly`, `Reach.SecondPortIsListed`).
* A replay restores the path only if it is not empty (`Replay.PathExactly`, `Replay.EmptyPathGrows`), and an endpoint failover
  keeps the prefix of the endpoint that failed (`Replay.SparePathExactly`, `Replay.SpareGetsAnotherPath`).
* A retry policy shadows endpoint failover, and a response that is lost, or has a status that is not listed, is never retried,
  whatever retries are left (`Replay.FailureExactly`): it can be passed on with all of them and the spare endpoint unused
  (`Replay.LostResponseIsPassedOn`).
* A route that allows any method is matched for seven methods only, so that a request with another, such as TRACE, has no rule
  at all (`Proxy.RuleExactly`).
* The published version is the configuration's hash only for a new codebase or by coincidence (`Publish.VersionExactly`,
  `Publish.NextPublish`); two refused reads record a configuration that was never uploaded (`Publish.EtagExactly`,
  `Publish.EtagWithoutCommit`), and another one dereferences nil (`Publish.CrashExactly`). A failed publication whose clean-up
  is carried out leaves no codebase, and going back to the configuration before then publishes nothing, however often
  (`Publish.RevertExactly`, `Publish.RevertIsSkipped`).
* A comment in the broker says a pod's update only goes to that pod's proxy; the code also broadcasts every update that leaves
  the pod's scrape annotation alone (`Broker.BroadcastExactly`), even one that changes nothing
  (`Broker.UnchangedPodBroadcasts`).

## Model

| member | source | states |
|---|---|---|
| `Words.SwappedLoadIsNetworkOrder` | bpf/ecnet_dnsproxy.c:325-363 | a little-endian load followed by a swap reads the network-order value |
| `Checksum.OnesSumResidue` | bpf/ecnet_dnsproxy.c:257-274 | the one's-complement sum of RFC 1071 is the plain sum modulo 65535, zero only for all-zero data |
| `Checksum.VerifiesInCpuOrder` | bpf/ecnet_dnsproxy.c:224-274 | byte-order independence (section 2(B) of RFC 1071): data verifies if and only if its sum in CPU order is a positive multiple of 65535 |
| `Checksum.CsumFoldHelper` | bpf/ecnet_dnsproxy.c:257-266 | four conditional folds suffice for every 64-bit input: the complement of the result is congruent to it and is zero only for zero |
| `Checksum.SignExtendKeepsResidue` | bpf/headers/helpers.h:101-102 | sign-extending the 32-bit difference to 64 bits keeps its residue and its being zero |
| `Checksum.Ipv4Csum` | bpf/ecnet_dnsproxy.c:268-274 | the stored checksum makes the header's sum a multiple of 65535 |
| `Checksum.CalUdpCsum` | bpf/ecnet_dnsproxy.c:224-255 | for every frame the 32-bit accumulator does not overflow and the result is the single fold of pseudo header and segment |
| `Checksum.SmallSegmentsAreSummedWhole` | bpf/ecnet_dnsproxy.c:238-249 | a segment within the cap of 1481 octets is summed whole |
| `Checksum.UdpChecksumExact` | bpf/ecnet_dnsproxy.c:224-255 | the datagram is accepted under RFC 768 if and only if the accumulator's halves add without a carry; otherwise the field is one too large |
| `DnsName.ParseQuery` | bpf/ecnet_dnsproxy.c:301-364 | the loop returns the question's length and key, or -1 when no terminator is met |
| `DnsName.KeyInjective` | bpf/headers/maps.h:32-36 | distinct names, types or classes never share a key |
| `DnsName.KeyAgreement` | pkg/ecnet/bridge/dataplane/helpers/map.go:72-93 | a packet parses to the key the Go side packed if and only if it holds that question octet for octet; a cut-off question never matches |
| `DnsName.OverlongNeverMatches` | bpf/ecnet_dnsproxy.c:325-363 | a packed name is ever matched only if it leaves room for its terminator |
| `DnsMessage.ReplyDecodes` | bpf/ecnet_dnsproxy.c:366-397 | the reply decodes by section 4.1 of RFC 1035 if and only if the three copied counts are 1, 0, 0, and then to the question and one A answer owned by its name through the pointer |
| `DnsResponder.CreateQueryResponse` | bpf/ecnet_dnsproxy.c:366-383 | the answer's octets: pointer, type, class, TTL, length and address |
| `DnsResponder.XdpContext.ModifyDnsHeaderResponse` | bpf/ecnet_dnsproxy.c:385-397 | only QR, RA and the answer count change |
| `DnsResponder.XdpContext.CopyToPacket` | bpf/ecnet_dnsproxy.c:402-429 | all octets are copied or, when they do not fit, none |
| `DnsResponder.XdpContext.SwapMac` | bpf/ecnet_dnsproxy.c:207-214 | the two MAC addresses change places and nothing else changes |
| `DnsResponder.XdpContext.SwapPorts` | bpf/ecnet_dnsproxy.c:216-222 | the two ports change places and nothing else changes |
| `DnsResponder.XdpContext.UpdateIpChecksum` | bpf/ecnet_dnsproxy.c:180-184 | the IPv4 header verifies afterwards, and only the checksum field changed |
| `DnsResponder.XdpContext.UpdateUdpChecksum` | bpf/ecnet_dnsproxy.c:186-188 | only the field changes, to the fold over the frame with the field blank |
| `DnsResponder.XdpContext.DnsProxy` | bpf/ecnet_dnsproxy.c:34-205 | a packet is sent back if and only if it hits and the tail can be adjusted, and then is the complete reply frame; a passed packet is unchanged unless the adjustment failed after the header was modified |
| `DnsResponder.StagedReply` | bpf/ecnet_dnsproxy.c:115-198 | the single steps together yield the reply frame: addresses, ports, lengths, DNS part and checksums |
| `DnsResponder.HitExactly` | bpf/ecnet_dnsproxy.c:34-113 | with records of packed names, a packet is answered if and only if it is IPv4, UDP, to port 53 of a DNS endpoint, a standard query, and holds a whole question of class IN for a recorded name and type; and by that record |
| `DnsResponder.ReplyLengthsAndChecksum` | bpf/ecnet_dnsproxy.c:161-188 | no reply exceeds 296 UDP octets, both length fields are exact, and the UDP checksum is accepted if and only if the fold does not carry |
| `ReplySum.AccumulatorIs` | bpf/ecnet_dnsproxy.c:224-255 | what is summed over the emitted frame, from the query, the record and the cluster address alone |
| `ReplySum.ReplyAcceptedExactly` | bpf/ecnet_dnsproxy.c:186-188 | the reply is accepted under RFC 768 if and only if the halves of that sum add without a carry |
| `ReplySum.EveryHitCanBeRefused` | bpf/ecnet_dnsproxy.c:251-252 | every query that is answered has a transaction id with which its reply is refused |
| `DnsResponder.HitReplyDecodes` | bpf/ecnet_dnsproxy.c:87-204 | a hit comes from a whole question for a stored name; its reply keeps the id and decodes to that question and the stored address and TTL if and only if the query's counts allow |
| `DnsResponder.AdditionalDoesNotDecode` | bpf/ecnet_dnsproxy.c:385-397 | for every query that is answered, the same one with an additional record announced is answered too, and no reply frame of it decodes |
| `Packing.WrittenIsRead` | pkg/ecnet/bridge/dataplane/helpers/map.go:72-93 | dots and octets are read back however they are written: plainly, after a backslash, or as three digits |
| `Packing.SamePacked` | pkg/ecnet/bridge/dataplane/helpers/map.go:72-93 | with escapes allowed, a packed name comes from one row of dots and octets only |
| `Packing.FullyQualifiedIsNotWritten` | pkg/ecnet/bridge/dataplane/helpers/map.go:79 | a hostname that is fully qualified already is never written |
| `Packing.DeletionExactly` | pkg/ecnet/bridge/dataplane/helpers/map.go:96-113 | deleting one hostname removes something that updating another wrote if and only if both are packed, and to the same labels |
| `Packing.DeletionNeedsTheDot` | pkg/ecnet/bridge/dataplane/helpers/map.go:96-113 | without escapes, that is if and only if the other is packed and this one is it with a final dot, or both are empty |
| `Packing.DeletionIsVoid` | pkg/ecnet/bridge/dataplane/helpers/map.go:96-113 | deleting a hostname, of any characters, removes something that updating it wrote if and only if it is empty |
| `DnsSync.DataPlane.UpdateDnsResolveEntry` | pkg/ecnet/bridge/dataplane/helpers/map.go:72-93 | exactly the A and AAAA keys of the packed name get the bridge address and the TTL |
| `DnsSync.DataPlane.DeleteDnsResolveEntry` | pkg/ecnet/bridge/dataplane/helpers/map.go:96-113 | exactly the keys of the undotted name are removed |
| `DnsSync.DataPlane.SyncDnsEndpoints` | pkg/ecnet/bridge/dataplane/server/jobs.go:40-87 | the endpoint map and the whole shadow map afterwards: what is written, refreshed and dropped |
| `DnsSync.DnsIpsExactly` | pkg/ecnet/bridge/dataplane/server/jobs.go:40-68 | the addresses are those of the DNS service's port that parse and have its subdomain, if it has one |
| `DnsSync.EndpointsArePointed` | pkg/ecnet/bridge/dataplane/server/jobs.go:70-83 | from an empty shadow map every current address leads to the cluster address, and the shadow map stays empty |
| `DnsSync.DataPlane.SyncDnsResolves` | pkg/ecnet/bridge/dataplane/server/jobs.go:89-123 | without route configs nothing changes; otherwise the shadow map becomes the policy's hostnames and the records change accordingly |
| `DnsSync.LatestHosts` | pkg/ecnet/bridge/dataplane/server/jobs.go:94-110 | the hostnames of all route configs, without those that carry a port |
| `DnsSync.SyncKeepsCovered` | pkg/ecnet/bridge/dataplane/server/jobs.go:111-122 | after a sync every shadow hostname is covered by both its records if and only if no hostname was dropped that packs to the labels of a present one |
| `DnsSync.SyncRemovesNothing` | pkg/ecnet/bridge/dataplane/server/jobs.go:117-122 | without final dots no record is ever removed |
| `Answers.HostnamesEndWell` | pkg/ecnet/k8s/util.go:27-62 | no hostname without port of a service in an ordinary namespace is empty or ends in a dot |
| `Answers.PolicyHostsAre` | pkg/ecnet/bridge/dataplane/server/jobs.go:94-110 | the hostnames to answer are those without port of the services that are not plain TCP |
| `Answers.OverlongHostname` | pkg/ecnet/k8s/util.go:48-59 | a name, a namespace and trust domain segments of 63, 63, 63 and 59 octets give a hostname that is written, and that no query matches |
| `Answers.EverySyncRun` | pkg/ecnet/bridge/dataplane/server/jobs.go:89-123 | after every run of syncs the shadow hostnames are covered, all records come from packed names, and no record was ever removed |
| `Answers.EveryRunAnswers` | pkg/ecnet/bridge/dataplane/server/jobs.go:89-123 | after every run a query of type A or AAAA for a hostname of the last mesh hits, and its reply frame decodes to the bridge address |
| `Answers.Run` | pkg/ecnet/bridge/dataplane/server/jobs.go:27-33 | one job syncs both tables and keeps the data plane in step |
| `Answers.MeshHostnameIsAnswered` | pkg/ecnet/bridge/dataplane/server/jobs.go:27-123 | end to end: both syncs, then a query of type A or AAAA to any DNS endpoint for any hostname of the mesh is sent back if the packet can be resized, and decodes to the bridge address with a TTL of 60 |
| `Redirect.BpfMaps.TcpConnect4` | bpf/ecnet_connect.c:7-57 | the session entry, the verdict and the dialled port, for every destination, user and update result |
| `Redirect.BpfMaps.SockOps4` | bpf/ecnet_sockops.c:6-55 | the session entry becomes a pair entry under the connection's key, and the socket is registered unless the key is taken |
| `Redirect.BpfMaps.SockOpt4` | bpf/ecnet_sockopt.c:9-57 | the option is rewritten if and only if the mirrored pair has an entry and the buffer is large enough; the length it reports in every case |
| `Redirect.BpfMaps.RedirMsg` | bpf/ecnet_redirmsg.c:5-35 | the message goes to the socket registered under the mirrored key |
| `Redirect.SocketPorts` | bpf/ecnet_sockops.c:15-20 | the hooks' different port encodings come back to one normal form |
| `Connections.EveryRun` | bpf/ecnet_sockops.c:13-46 | in every run: origins are on the bridge and not the proxy's port, registered sockets are open under their own key, addresses pair up, kept entries hold |
| `Connections.NeverTheProxyItself` | bpf/ecnet_connect.c:7-57 | whatever `getsockopt` reports is on the bridge address and never the proxy's own port |
| `Connections.SessionExactly` | bpf/ecnet_connect.c:36-54 | the session map holds a destination if and only if a socket of neither root nor user 1600 asked for it on the bridge address and another port than the proxy's, was taken, and was not evicted since |
| `Connections.DialingExactly` | bpf/ecnet_connect.c:7-57 | root, user 1600 and connections elsewhere dial what they asked for; all others dial the proxy if their entry was taken, and nothing if not |
| `Connections.OriginExactly` | bpf/ecnet_sockopt.c:21-53 | `getsockopt` reports a destination if and only if the last establishment on the mirrored key by a still remembered socket, not evicted since, had asked for it |
| `Connections.Transparent` | bpf/ecnet_sockopt.c:21-53 | the accepting end of a redirected connection learns what its own client asked for, whatever else happens, while neither entry is evicted |
| `Connections.StaleExactly` | bpf/ecnet_sockops.c:28-45 | for a client that was not remembered, its server is told a destination if and only if an earlier connection on the same addresses left one |
| `Connections.StaleAnswer` | bpf/ecnet_sockopt.c:21-53 | after any run such a wrong answer can be brought about by two connections |
| `Connections.KeyIsFree` | bpf/ecnet_sockops.c:46 | registration without overwriting never refuses a socket |
| `Connections.RegisteredExactly` | bpf/ecnet_sockops.c:46 | an open socket is registered under its own key if and only if its establishment registered it |
| `Connections.RedirectsToThePeer` | bpf/ecnet_redirmsg.c:7-31 | a message reaches a socket if and only if it is the registered open socket at the mirrored addresses, which is then the other end of the same connection |
| `Text.DecimalRoundTrip` | pkg/ecnet/pipy/repo/client/client.go:278-290 | a printed number parses back at every width that holds it |
| `Text.SplitExactly` | pkg/ecnet/k8s/util.go:48-59 | splitting cuts at every separator and nowhere else: no piece has one, and joined they are the text |
| `Text.EqualFoldExactly` | pkg/ecnet/service/multicluster/service_import.go:196-208 | names are equal under folding if and only if they have the same characters in the same places up to the case of a letter |
| `Services.ClusterNameRoundTrip` | pkg/ecnet/bridge/ctrlplane/server/util.go:228-251 | a printed cluster name parses back to its service if and only if its names are non-empty and free of the separators |
| `Services.ClusterNameInjective` | pkg/ecnet/service/types.go:83-85 | such cluster names determine namespace, name and target port |
| `Services.MatchNameRoundTrip` | pkg/ecnet/bridge/ctrlplane/server/util.go:180-203 | a printed traffic match name parses back if and only if both names are free of the separators and the protocol is one token |
| `Services.NamedPortInjective` | pkg/ecnet/bridge/ctrlplane/server/policy.go:123-143 | the `port=name` key of a traffic match determines both |
| `Services.GetHostnamesForService` | pkg/ecnet/k8s/util.go:27-62 | the list of hostnames, with and without port, for every segment of the trust domain |
| `Services.HostnamesExactly` | pkg/ecnet/k8s/util.go:27-62 | a hostname is one of these if and only if it is, with or without the port: name and namespace, alone or followed by `svc` and any number of the trust domain's non-empty segments, from the first |
| `Services.FqdnIsHostname` | pkg/ecnet/service/types.go:88-90 | a service's fully qualified name is one of its hostnames in the default trust domain |
| `Services.SubdomainExactly` | pkg/ecnet/service/types.go:43-63 | a dotted name is looked up under its last component and its subdomain is the first; a name without a dot has none |
| `Services.HostnameOwner` | pkg/ecnet/k8s/util.go:27-62 | two plain services that share a hostname have the same namespace and name |
| `Services.FqdnInjective` | pkg/ecnet/service/types.go:88-90 | a fully qualified name determines namespace and name |
| `Imports.GetServiceTrafficPolicy` | pkg/ecnet/service/multicluster/traffic_policy.go:27-45 | balancing type and the weight of each cluster key, the last target winning |
| `Imports.TargetWeightsAre` | pkg/ecnet/service/multicluster/traffic_policy.go:27-45 | exactly the keys of the targets have a weight, that of the last target of the key, zero if it gives none |
| `Imports.AnnotationKeyInjective` | pkg/ecnet/service/multicluster/types.go:15-25 | annotations of different kinds, addresses or ports never collide |
| `Imports.GetEndpoints` | pkg/ecnet/service/multicluster/service_import.go:180-242 | the endpoints of the first fitting port that pass the filters, with their annotations |
| `Imports.ListEndpointsForService` | pkg/ecnet/service/providers/fsm/client.go:41-82 | what the provider reads back from subsets and annotations |
| `Imports.ReadBack` | pkg/ecnet/service/providers/fsm/client.go:66-76 | an endpoint reads back with the attributes of the last one at its address and port |
| `Imports.AnnotationRoundTrip` | pkg/ecnet/service/providers/fsm/client.go:41-82 | listing returns the kept endpoints with their own attributes if and only if no later one at the same address and port differs |
| `Imports.TwinsLoseTheirKey` | pkg/ecnet/service/multicluster/service_import.go:216-219 | two clusters that export one address and port: both endpoints are listed with the key of the second |
| `Imports.DistinctTargetsRoundTrip` | pkg/ecnet/service/multicluster/service_import.go:180-242 | with distinct addresses and ports every endpoint keeps its own attributes, in order |
| `Imports.LocalityHasNoEndpoints` | pkg/ecnet/service/multicluster/traffic_policy.go:19-25 | under Locality or without a policy there is no endpoint |
| `Provider.ListImported` | pkg/ecnet/service/multicluster/service_import.go:70-120 | the services of all endpoints of the imports that are not kept local, in order |
| `Provider.ToMeshServices` | pkg/ecnet/service/providers/fsm/client.go:130-179 | one mesh service for each endpoint the policy lets through, in order, with its target port and announced protocol |
| `Provider.ProtocolExactly` | pkg/ecnet/service/providers/fsm/client.go:141-156 | what the port says itself, else the supported protocol its name begins with, else `http` |
| `Provider.ListServices` | pkg/ecnet/service/providers/fsm/client.go:120-126 | the mesh services of all imports, in order |
| `Provider.ListedExactly` | pkg/ecnet/service/providers/fsm/client.go:120-179 | a service is listed if and only if it comes from an endpoint of an import that is not kept local, for an endpoint let through |
| `Reach.ServicesExactly` | pkg/ecnet/service/multicluster/service_import.go:70-120 | spelled out on the imports: one service for each endpoint of each port of an import that is not kept local, and each accepted endpoint of the first port of the same number, at that one's port under the other's cluster |
| `Reach.ListedIsUndotted` | pkg/ecnet/service/types.go:43-63 | a dotted import is looked up under its last component and lists nothing |
| `Reach.FoundExactly` | pkg/ecnet/bridge/ctrlplane/server/util.go:220-225 | what is found for a listed service's cluster: the fitting endpoints of the import's first port with endpoints, each with the attributes of the last one kept at its address and port |
| `Reach.FoundAttributes` | pkg/ecnet/bridge/ctrlplane/server/util.go:220-225 | with distinct addresses and ports these are the fitting endpoints with their own type, weight, key and path |
| `Reach.LookupExactly` | pkg/ecnet/bridge/ctrlplane/server/util.go:220-225 | so the addresses found are those of the fitting endpoints |
| `Reach.ServedExactly` | pkg/ecnet/bridge/ctrlplane/server/util.go:220-225 | something is found if and only if such an endpoint is accepted, parses and is at the target port |
| `Reach.SinglePortIsServed` | pkg/ecnet/service/multicluster/service_import.go:196-237 | with a single port that has endpoints every listed service's cluster finds an endpoint |
| `Reach.SinglePortMeshIsReady` | pkg/ecnet/bridge/ctrlplane/server/util.go:130-160 | a mesh of the services listed for single-port imports is always ready |
| `Reach.SecondPortIsNotServed` | pkg/ecnet/service/multicluster/service_import.go:196-237 | a service whose target port the first port lacks finds no endpoint |
| `Reach.SecondPortIsListed` | pkg/ecnet/service/multicluster/service_import.go:70-120 | two-port imports with different target ports do list such a service |
| `Reach.ClusterReaches` | pkg/ecnet/bridge/ctrlplane/server/util.go:136-157 | the entry of a listed service's cluster holds exactly the endpoints that fit it, at the port they are reached on |
| `Reach.ReachedAtTargetPort` | pkg/ecnet/bridge/ctrlplane/server/util.go:149-154 | where all endpoints carry a cluster key, that is their address at the target port |
| `Reach.RequestReaches` | pkg/ecnet/bridge/ctrlplane/server/util.go:18-160 | a request for a hostname of a listed HTTP service finds its rule, the rule its cluster, and the cluster exactly those endpoints |
| `Catalog.GetLbWeightForService` | pkg/ecnet/service/multicluster/traffic_policy.go:48-84 | balancing flags and weight by policy type and targets; the keys are its own, if that is a target, or all targets for failover |
| `Catalog.MergeUpstreamClusters` | pkg/ecnet/catalog/outbound_traffic_policies.go:167-183 | the service's one weighted cluster |
| `Catalog.ClusterWeightExactly` | pkg/ecnet/catalog/outbound_traffic_policies.go:167-183 | its weight is 0 if and only if it is imported under a failover policy; what the first target for its cluster gives, if that is positive, under an active-active one; and 100 otherwise |
| `Catalog.ProtocolNames` | pkg/ecnet/constants/constants.go:70-86 | the names of the protocols |
| `Catalog.GetOutboundMeshTrafficPolicy` | pkg/ecnet/catalog/outbound_traffic_policies.go:26-129 | the loop over services builds the policy of those services |
| `Catalog.PolicyMatches` | pkg/ecnet/catalog/outbound_traffic_policies.go:60-87 | traffic matches and cluster configs are those of the services, one each, in order |
| `Catalog.PolicyRouteConfigs` | pkg/ecnet/catalog/outbound_traffic_policies.go:89-120 | a port's route configs are exactly those of the services on it that are not plain TCP |
| `Compiler.ArrayEqual` | pkg/ecnet/bridge/ctrlplane/server/util.go:253-288 | true if and only if the two have the same length and the same members |
| `Compiler.GetOutboundHttpRouteConfigs` | pkg/ecnet/bridge/ctrlplane/server/util.go:162-178 | exactly the port's configs of that name with a route to those clusters |
| `Compiler.NewMatchRule` | pkg/ecnet/bridge/ctrlplane/server/util.go:57-75 | a route's condition with its path, methods and headers |
| `Compiler.AddWeightedClusters` | pkg/ecnet/bridge/ctrlplane/server/policy.go:145-184 | the rule of a condition is found or appended, and gains the clusters |
| `Compiler.OutboundTrafficPolicy.NewTrafficMatch` | pkg/ecnet/bridge/ctrlplane/server/policy.go:123-143 | a match is found by name or made, indexed and listed under its port |
| `Compiler.SameObjects` | pkg/ecnet/bridge/ctrlplane/server/policy.go:123-143 | the name index and the per-port lists hold the same objects |
| `Compiler.EachListedOnce` | pkg/ecnet/bridge/ctrlplane/server/policy.go:123-143 | each match object is listed exactly once |
| `Compiler.OutboundTrafficPolicy.AddTrafficMatch` | pkg/ecnet/bridge/ctrlplane/server/util.go:26-125 | one round of the main loop on heap objects does what compilation of that match says on values |
| `Compiler.GenerateRoutePolicy` | pkg/ecnet/bridge/ctrlplane/server/util.go:18-128 | the heap structure built holds the compiled policy, with the clusters it depends on |
| `Routing.CompiledTargets` | pkg/ecnet/bridge/ctrlplane/server/util.go:38-88 | a rule routes a condition to a cluster if and only if a traffic match of that key brings a config with such a route |
| `Routing.CompiledHead` | pkg/ecnet/bridge/ctrlplane/server/util.go:26-36 | there is one compiled match for each key of a traffic match, with the port and protocol of the first |
| `Routing.CompiledHosts` | pkg/ecnet/bridge/ctrlplane/server/util.go:38-54 | a host is known if and only if a traffic match brings a config for it |
| `Routing.CompiledHostRule` | pkg/ecnet/bridge/ctrlplane/server/util.go:49-54 | a known host's rule is the name of such a config |
| `Routing.CompiledTcp` | pkg/ecnet/bridge/ctrlplane/server/util.go:89-124 | a TCP target is present if and only if a TCP or HTTPS match of that key mentions it |
| `Routing.DependsAreReferenced` | pkg/ecnet/bridge/ctrlplane/server/util.go:18-128 | the dependencies are exactly the clusters that some rule refers to |
| `Meaning.RulesMeanServices` | pkg/ecnet/catalog/outbound_traffic_policies.go:26-129 | a rule sends to a cluster if and only if they are the FQDN and cluster of an HTTP service on that port, and only by the wildcard |
| `Meaning.HostsMeanServices` | pkg/ecnet/k8s/util.go:27-62 | a host is known on a port if and only if it is a hostname of an HTTP service there, and leads to its rule and never another's |
| `Meaning.ServiceIsRouted` | pkg/ecnet/bridge/ctrlplane/server/util.go:18-128 | every hostname of an HTTP service leads through its rule's wildcard to its cluster |
| `Balance.GenerateBalancePolicy` | pkg/ecnet/bridge/ctrlplane/server/util.go:130-160 | ready if and only if every dependency is served; the entries are those of the dependencies with a config |
| `Balance.EntryKeyExactly` | pkg/ecnet/bridge/ctrlplane/server/policy.go:207-225 | an endpoint is keyed by its address, if that ends in a port; else by its address and the target port, or the service's own port where there is none or the endpoint has no cluster key |
| `Balance.EndpointMapHas` | pkg/ecnet/bridge/ctrlplane/server/policy.go:199-225 | an entry has exactly the keys of the endpoints' addresses and ports, each with the attributes of the last endpoint there |
| `Balance.ReferentialIntegrity` | pkg/ecnet/bridge/ctrlplane/server/util.go:130-160 | when ready, every cluster any rule refers to has a non-empty entry |
| `Balance.ReadyMeansEndpoints` | pkg/ecnet/bridge/ctrlplane/server/util.go:130-160 | not ready if and only if some service traffic can be sent to has no endpoint |
| `Balance.RebalanceEndpoints` | pkg/ecnet/bridge/ctrlplane/server/policy.go:32-71 | the loops rewrite weights as rebalancing says |
| `Balance.RebalanceExactly` | pkg/ecnet/bridge/ctrlplane/server/policy.go:32-71 | only weights change: a remote failover endpoint gets 0 beside a local one and 100 otherwise, a local or active-active one gets 100 if it had 0, and all others keep theirs |
| `Balance.RebalanceIdempotent` | pkg/ecnet/bridge/ctrlplane/server/policy.go:32-71 | rebalancing twice is rebalancing once |
| `Balance.RebalanceServes` | pkg/ecnet/bridge/ctrlplane/server/policy.go:32-71 | failover endpoints take traffic if and only if there is no local one; none takes traffic if and only if all are remote, of no known type and of weight zero |
| `Broker.TopicsAreDistinct` | pkg/ecnet/messaging/broker.go:305-307 | a proxy's topic is never the broadcast topic, and no two proxies share one |
| `Broker.DirectExactly` | pkg/ecnet/messaging/broker.go:229-302 | an update goes to one proxy if and only if a pod's scrape annotation changed, and then to the topic of that pod's UID |
| `Broker.BroadcastExactly` | pkg/ecnet/messaging/broker.go:229-302 | an update goes to every proxy if and only if it is one of ten kinds, named one by one, a proxy setting changed, or a pod with a UID was updated with its annotation as it was |
| `Broker.OthersAreSilent` | pkg/ecnet/messaging/broker.go:229-302 | every other kind updates no proxy, and an update carries its own message |
| `Broker.KindsAreDistinct` | pkg/ecnet/announcements/types.go:12-99 | the named kinds have different topics |
| `Broker.UnchangedPodBroadcasts` | pkg/ecnet/messaging/broker.go:275-297 | an update that changes nothing of a pod is broadcast |
| `Broker.Timer.Restart` | pkg/ecnet/messaging/broker.go:132-139 | stop, drain and reset never blocks on a timer that is running or has ticked |
| `Broker.Dispatcher.HandleUpdate` | pkg/ecnet/messaging/broker.go:121-151 | the new state of timers, batch and held event, or the end of the loop when the channel is closed |
| `Broker.Dispatcher.HandleSlidingExpiry` | pkg/ecnet/messaging/broker.go:153-165 | the held event is published and both timers go back to no timeout |
| `Broker.Dispatcher.HandleMaxExpiry` | pkg/ecnet/messaging/broker.go:167-179 | the same when the max window expires |
| `Broker.Dispatcher.ProcessEvent` | pkg/ecnet/messaging/broker.go:193-213 | a direct update is published and counted at once, a broadcast is counted and handed to the dispatcher, and every message but a broadcast is then published on its own topic |
| `Broker.Dispatcher.FinishEvent` | pkg/ecnet/messaging/broker.go:211-212 | a broadcast message is published on its own topic once it has been handed over |
| `Dispatch.EveryRun` | pkg/ecnet/messaging/broker.go:94-213 | in every run what was received is what was published in batches and what waits, the counters agree, every batch publishes its last event, and both timers are set for their deadlines |
| `Dispatch.OrderIsKept` | pkg/ecnet/messaging/broker.go:94-213 | in every run the dispatcher receives exactly the broadcasts of the messages processed, direct updates are published in order, and every message on its own topic, at most one being in hand |
| `Dispatch.DispatchesNeverExceedUpdates` | pkg/ecnet/messaging/broker.go:193-213 | dispatches and waiting events never exceed queued updates, apart from those of an idle decade |
| `Dispatch.NotEarly` | pkg/ecnet/messaging/broker.go:153-179 | no dispatch before the earlier deadline, and none without a batch before an idle decade |
| `Dispatch.MaxStaysEnabled` | pkg/ecnet/messaging/broker.go:167-179 | once the max window has ticked its case stays enabled until a dispatch |
| `Dispatch.EveryPunctualRun` | pkg/ecnet/messaging/broker.go:94-186 | with punctual timers the batches are the greedy ones, each published exactly when it falls due |
| `Dispatch.HeldAtMostTheMaxWindow` | pkg/ecnet/messaging/broker.go:25-27 | with punctual timers no update is held longer than ten seconds |
| `Proxy.MakeTree` | pkg/ecnet/pipy/repo/codebase/proxy/modules/outbound-http-routing.js:23-70 | the table holds, under each method, the rules that allow it, in order |
| `Proxy.ServiceHandler` | pkg/ecnet/pipy/repo/codebase/proxy/modules/outbound-http-routing.js:18-79 | the search in the table finds the first rule that allows the method and admits the request |
| `Proxy.PortHandler` | pkg/ecnet/pipy/repo/codebase/proxy/modules/outbound-http-routing.js:81-100 | the same for the service of the host header; an unknown host has no rule |
| `Proxy.MatchRuleMeans` | pkg/ecnet/pipy/repo/codebase/proxy/modules/outbound-http-routing.js:18-79 | what a compiled route asks of a request, from the route itself: a method, a path and its headers |
| `Proxy.RulesExactly` | pkg/ecnet/bridge/ctrlplane/server/util.go:38-88 | the rules of a name are one wildcard with the clusters and weights of the HTTP services of that name |
| `Proxy.RuleExactly` | pkg/ecnet/pipy/repo/codebase/proxy/modules/outbound-http-routing.js:18-100 | a request has a rule if and only if it asks, with one of seven methods, for a hostname of an HTTP service of the port, and its targets are exactly the clusters of the services with that hostname, each with the weight of its last service |
| `Proxy.AttemptsAreTargets` | pkg/ecnet/pipy/repo/codebase/proxy/modules/outbound-http-load-balancing.js:103-173 | every attempt of every served request goes to an endpoint of a cluster its rule targets, if anywhere |
| `Proxy.RequestGoesToItsService` | pkg/ecnet/pipy/repo/codebase/proxy/modules/outbound-http-routing.js:131-161 | every such attempt goes to the address of an imported endpoint that fits a service of the request's hostname |
| `Proxy.ServesIfItCan` | pkg/ecnet/pipy/repo/codebase/proxy/modules/outbound-http-load-balancing.js:18-29 | a cluster of which some endpoint can serve after rebalancing gives a target |
| `Breaker.CircuitBreaker.RecordSlow` | pkg/ecnet/pipy/repo/codebase/proxy/modules/outbound-circuit-breaker.js:57-68 | the new state after a slow check |
| `Breaker.CircuitBreaker.RecordError` | pkg/ecnet/pipy/repo/codebase/proxy/modules/outbound-circuit-breaker.js:70-81 | the new state after an error check |
| `Breaker.CircuitBreaker.RefreshTimer` | pkg/ecnet/pipy/repo/codebase/proxy/modules/outbound-circuit-breaker.js:83-96 | the new state after a tick; the closing tick is also the first of the next window |
| `Breaker.EveryRun` | pkg/ecnet/pipy/repo/codebase/proxy/modules/outbound-circuit-breaker.js:48-96 | in every run counts stay within the total, delay is zero while closed, opens and closes alternate |
| `Breaker.StaysOpen` | pkg/ecnet/pipy/repo/codebase/proxy/modules/outbound-circuit-breaker.js:83-96 | while open the delay counts ticks, whatever else happens |
| `Breaker.ClosesExactly` | pkg/ecnet/pipy/repo/codebase/proxy/modules/outbound-circuit-breaker.js:83-96 | it closes on exactly the tick after the degraded window, with empty counters |
| `Breaker.OpensExactly` | pkg/ecnet/pipy/repo/codebase/proxy/modules/outbound-circuit-breaker.js:57-81 | after every run a response opens it if and only if it is an error or slow and, counted over the run's events, reaches an amount threshold since that quota's last refill, or with the others of the window makes up the ratio of the window's requests |
| `Breaker.WindowCounts` | pkg/ecnet/pipy/repo/codebase/proxy/modules/outbound-circuit-breaker.js:49-96 | after every run the counters of a closed breaker are the requests, errors and slow responses of its present window |
| `Breaker.WindowBound` | pkg/ecnet/pipy/repo/codebase/proxy/modules/outbound-circuit-breaker.js:83-96 | a closed breaker counts only requests of its window |
| `Breaker.CountsAll` | pkg/ecnet/pipy/repo/codebase/proxy/modules/outbound-circuit-breaker.js:49-51 | within a window without a trip it counts all of them |
| `Breaker.WindowEnds` | pkg/ecnet/pipy/repo/codebase/proxy/modules/outbound-circuit-breaker.js:90-95 | a window lasts one tick more than configured, and exactly that after a close |
| `Breaker.RatioNeedsRecentRequests` | pkg/ecnet/pipy/repo/codebase/proxy/modules/outbound-circuit-breaker.js:62-64 | without amount thresholds it opens only on the minimum of requests within the last window |
| `Replay.Exchange.StartRoute` | pkg/ecnet/pipy/repo/codebase/proxy/modules/outbound-http-routing.js:135-148 | the path is restored and the failover cluster taken once, or a rule is matched |
| `Replay.Exchange.StartCluster` | pkg/ecnet/pipy/repo/codebase/proxy/modules/outbound-http-load-balancing.js:104-130 | the endpoints picked and the prefixed path |
| `Replay.Exchange.RetryLoop` | pkg/ecnet/pipy/repo/codebase/proxy/modules/outbound-http-load-balancing.js:67-82 | the same target is asked until a status is not to be retried or the retries are used up |
| `Replay.Exchange.FailoverLoop` | pkg/ecnet/pipy/repo/codebase/proxy/modules/outbound-http-load-balancing.js:148-168 | the spare endpoint is asked if and only if the first one failed |
| `Replay.Exchange.Serve` | pkg/ecnet/pipy/repo/codebase/proxy/modules/outbound-http-routing.js:131-161 | the replay ends, after a second pass if and only if the first ended in failure with a cluster to fail over to |
| `Replay.AttemptsAreBounded` | pkg/ecnet/pipy/repo/codebase/proxy/modules/outbound-http-load-balancing.js:132-173 | each pass makes at most its retries plus one attempts, or two |
| `Replay.PathExactly` | pkg/ecnet/pipy/repo/codebase/proxy/modules/outbound-http-routing.js:140 | the second pass asks for the original path if and only if that was not empty or the first target had no prefix |
| `Replay.EmptyPathGrows` | pkg/ecnet/pipy/repo/codebase/proxy/modules/outbound-http-routing.js:140 | a request for the empty path that fails over is asked for with the first prefix |
| `Replay.SparePathExactly` | pkg/ecnet/pipy/repo/codebase/proxy/modules/outbound-http-load-balancing.js:114-168 | in either pass a spare endpoint is asked for its own path if and only if its prefix is the failed one's, or in the second pass that and what an empty path has grown by |
| `Replay.SpareGetsAnotherPath` | pkg/ecnet/pipy/repo/codebase/proxy/modules/outbound-http-load-balancing.js:114-168 | a spare endpoint with another prefix is asked for a path that is not its own |
| `Replay.RepeatsExactly` | pkg/ecnet/pipy/repo/codebase/proxy/modules/outbound-http-load-balancing.js:132-173 | an attempt is made if and only if every answer of its pass before was one to repeat, and the retries left, or the spare endpoint, allow it |
| `Replay.FailoverExactly` | pkg/ecnet/pipy/repo/codebase/proxy/modules/outbound-http-load-balancing.js:148-168 | without retries the spare endpoint, and then the failover cluster, is asked if and only if there is one and the last answer is missing, 0 or at least 500 |
| `Replay.SecondExactly` | pkg/ecnet/pipy/repo/codebase/proxy/modules/outbound-http-load-balancing.js:104-173 | how often the second pass may ask again, and its spare endpoint, from what the first one used if variables are kept |
| `Replay.ServedIsUnique` | pkg/ecnet/pipy/repo/codebase/proxy/modules/outbound-http-routing.js:131-161 | the answers determine the attempts: their number, targets and paths |
| `Replay.FailureExactly` | pkg/ecnet/pipy/repo/codebase/proxy/modules/outbound-http-load-balancing.js:132-168 | a failure is passed on only after the failover cluster; a spare endpoint was tried if and only if there is no retry policy; retries are left if and only if one of the answers they would have repeated has a status not listed, or is lost |
| `Replay.LostResponseIsPassedOn` | pkg/ecnet/pipy/repo/codebase/proxy/modules/outbound-http-load-balancing.js:132-148 | under a retry policy a lost response is passed on after one attempt with all retries and the spare endpoint unused |
| `Publish.RepoClient.CommitCodebase` | pkg/ecnet/pipy/repo/client/client.go:278-303 | the version parsed, one more in 64 bits asked for, and the server's state after every network outcome |
| `Publish.RepoClient.DeriveCodebase` | pkg/ecnet/pipy/repo/client/client.go:361-391 | result, error and server after every combination of outcomes |
| `Publish.RepoClient.SubmitFiles` | pkg/ecnet/pipy/repo/client/client.go:311-354 | the same for one base path: its items, uploaded or deleted in order up to the first upload that fails, and the commit |
| `Publish.RepoClient.SubmitBatch` | pkg/ecnet/pipy/repo/client/client.go:306-358 | the same for any number of base paths, up to the first that does not commit |
| `Publish.LaterBatchesUntouched` | pkg/ecnet/pipy/repo/client/client.go:306-358 | the base paths after that one are neither created nor changed, even where it was no error |
| `Publish.RepoClient.PublishSidecarConf` | pkg/ecnet/bridge/ctrlplane/server/jobs.go:105-151 | server and ETag after every combination of outcomes; an unchanged hash does nothing |
| `Publish.FirstPublish` | pkg/ecnet/bridge/ctrlplane/server/jobs.go:124-141 | from no codebase a fault-free publication ends committed at exactly the hash, for every 64-bit hash |
| `Publish.NextPublish` | pkg/ecnet/pipy/repo/client/client.go:306-358 | over an existing codebase the version goes up by one, or a codebase without a numeric version is deleted |
| `Publish.VersionExactly` | pkg/ecnet/bridge/ctrlplane/server/jobs.go:124-141 | the version is the hash if and only if there was no codebase or it stood one below |
| `Publish.VersionChanges` | pkg/ecnet/pipy/repo/client/client.go:278-303 | every publication changes the version |
| `Publish.NextVersionExactly` | pkg/ecnet/pipy/repo/client/client.go:278-290 | a commit asks for one more than a number of 64 bits, and for nothing else |
| `Publish.RecordedExactly` | pkg/ecnet/bridge/ctrlplane/server/jobs.go:105-151 | over an existing codebase the hash is recorded if and only if derivation and batch both go on, said by the network outcomes and the version |
| `Publish.EtagExactly` | pkg/ecnet/bridge/ctrlplane/server/jobs.go:143-148 | a moved ETag names a committed configuration if and only if the batch did not overlook its codebase, or that held the configuration already; and where the ETag moves to then |
| `Publish.CrashExactly` | pkg/ecnet/pipy/repo/client/client.go:376-384 | a nil codebase is dereferenced if and only if a codebase just derived cannot be read back |
| `Publish.EtagWithoutCommit` | pkg/ecnet/pipy/repo/client/client.go:316-328 | two refused reads suffice to record what was never uploaded |
| `Publish.RevertExactly` | pkg/ecnet/bridge/ctrlplane/server/jobs.go:143-148 | for every codebase and network, none is left if and only if the publication failed and its clean-up was carried out; the configuration before is then never published again |
| `Publish.RevertIsSkipped` | pkg/ecnet/bridge/ctrlplane/server/jobs.go:143-148 | a refused upload is enough to lose the codebase published before |
| `Publish.Recovers` | pkg/ecnet/bridge/ctrlplane/server/jobs.go:105-151 | after any failed attempts that neither crash nor overlook, two fault-free ones leave the configuration committed and recorded |

## Left out

Assumptions about code that is not part of this model:

- The kernel: LRU maps take every pair update and may evict any entry at any time; a closed socket leaves the socket map; sockets
  connect at most once, no socket connects to itself, the client's end is established before the accepting one, and two
  live connections never share both addresses; the machine is little-endian.
- `bpf_csum_diff` returns some 32-bit value with the residue of the sum; `bpf_xdp_adjust_tail` zero-fills.
- Pipy: a replay sends the same message object again; a quota allows its amount between refills, which come at any time; both
  readings of whether a replay resets module variables are covered. Response times, statuses and the balancers' picks are inputs;
  a balancer picks one of its targets, of positive weight if there is one, and `.*` matches every path.
- Go timers before version 1.23; select cases take no time. `dns.PackDomainName`, with its escapes, is a function; `net.ParseIP`
  and the configuration hash are inputs; a character of a hostname stands for one octet; the repository server leaves an
  existing codebase as it is when asked to create it.

What the repository does and the model does not:

- Answers.MeshHostnameIsAnswered: covers hostnames that fit a DNS name, since no query carries a longer one, queries with one
  question of type A or AAAA and class IN, and namespaces that are not empty and do not end in a dot, as Kubernetes has them.
- Reach.SinglePortMeshIsReady: does not cover imports with several ports, for which it is false, nor addresses that do not parse.
- Which traffic match of a port a connection is given to (`outbound-main.js`), and the merging of matches in `config.js`: a
  request comes on the HTTP match.
- IPv4 headers with options, and IPv6 sockets and endpoints: every address is IPv4 and every header is 20 octets.
- Failed kernel map updates during a sync.
- Traffic splits: `getWildCardRouteUpstreamClusters`, `AddRoute` and the branches for them, since the catalog produces only
  wildcard routes.
- `GetService`, pods, namespaces, `ServicesResolvableSet` and `splitHostName`: easy members that no result here needs.
- Sorting of route rules: the comparison is no strict order, and all routes are wildcards.
- Other service providers: services and endpoints are those of the multi-cluster provider.
- Retry status lists such as `5xx` are given as a set of codes; delays and counters of retries are not modelled.
- The stop signals of the broker's loops and the wrap-around of its 64-bit counters.
- Kubernetes clients and informers, command line, worker pool, ticker, logging, metrics, tracing and TLS.
