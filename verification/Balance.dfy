/** From the clusters that the rules depend on to the endpoints that serve them. */
module Balance {
  import opened Words
  import opened Text
  import opened Services
  import opened Imports
  import opened Catalog
  import opened Routing
  import opened Meaning

  datatype ZoneEndpoint = ZoneEndpoint(weight: U32, cluster: string, lbType: string, path: string)

  type Endpoints = map<string, ZoneEndpoint>

  // ----- Endpoint entries -----

  predicate PortAfter(address: string, i: nat) {
    i < |address| - 1 && address[i] == ':' && IsDigits(address[i + 1..])
  }

  /** The regular expression `:\\d+$`. */
  predicate EndsWithPort(address: string) {
    exists i | 0 <= i < |address| :: PortAfter(address, i)
  }

  /** The first cluster config of that name (`getMeshClusterConfigs`). */
  function FirstConfig(configs: seq<ClusterConfig>, name: string): (r: Option<ClusterConfig>)
    ensures r.None? <==> forall c <- configs :: c.name != name
    ensures r.Some? ==> r.value in configs && r.value.name == name
  {
    if configs == [] then None
    else if configs[0].name == name then Some(configs[0])
    else FirstConfig(configs[1..], name)
  }

  /** Endpoints of other clusters are reached on the service's target port, if it has one. */
  function PortFor(svc: MeshService, ep: Endpoint): U16 {
    if ep.clusterKey != "" && svc.targetPort > 0 then svc.targetPort else svc.port
  }

  function EntryKey(svc: MeshService, ep: Endpoint): string {
    if EndsWithPort(ep.ip) then ep.ip else ep.ip + ":" + Decimal(PortFor(svc, ep))
  }

  predicate IsPortOf(address: string, host: string, port: string) {
    address == host + ":" + port && port != "" && IsDigits(port)
  }

  lemma SplitAt(address: string, i: nat)
    requires i < |address| && address[i] == ':'
    ensures address == address[..i] + ":" + address[i + 1..]
  {}

  lemma SplitBefore(address: string, host: string, port: string)
    requires address == host + ":" + port
    ensures address[|host|] == ':' && address[|host| + 1..] == port
  {}

  lemma EndsWithPortExactly(address: string)
    ensures EndsWithPort(address) <==> exists host, port :: IsPortOf(address, host, port)
  {
    if EndsWithPort(address) {
      var i: nat :| i < |address| && PortAfter(address, i);
      SplitAt(address, i);
      assert IsPortOf(address, address[..i], address[i + 1..]);
    }
    if host, port :| IsPortOf(address, host, port) {
      SplitBefore(address, host, port);
      assert PortAfter(address, |host|);
    }
  }

  /** The key of an endpoint: its address, if that has a port already; or else its address at the service's target port,
      or at the service's own where there is none or the endpoint is of this cluster. */
  lemma EntryKeyExactly(svc: MeshService, ep: Endpoint)
    ensures (exists host, port :: IsPortOf(ep.ip, host, port)) ==> EntryKey(svc, ep) == ep.ip
    ensures !(exists host, port :: IsPortOf(ep.ip, host, port)) ==>
              EntryKey(svc, ep) ==
              ep.ip + ":" + Decimal(if ep.clusterKey == "" || svc.targetPort == 0 then svc.port else svc.targetPort)
  {
    EndsWithPortExactly(ep.ip);
  }

  function EntryOf(ep: Endpoint): ZoneEndpoint {
    ZoneEndpoint(ep.weight, ep.clusterKey, ep.lbType, ep.path)
  }

  function EndpointMap(svc: MeshService, eps: seq<Endpoint>): (r: Endpoints)
    ensures eps != [] ==> r != map[]
  {
    if eps == [] then map[]
    else
      var ep := eps[|eps| - 1];
      var r := EndpointMap(svc, eps[..|eps| - 1])[EntryKey(svc, ep) := EntryOf(ep)];
      assert EntryKey(svc, ep) in r;
      r
  }

  predicate IsLastAt(svc: MeshService, eps: seq<Endpoint>, key: string, i: nat) {
    i < |eps| && key == EntryKey(svc, eps[i]) && forall ep <- eps[i + 1..] :: key != EntryKey(svc, ep)
  }

  lemma {:induction false} EndpointMapKeys(svc: MeshService, eps: seq<Endpoint>, key: string)
    ensures key in EndpointMap(svc, eps) <==> exists ep <- eps :: key == EntryKey(svc, ep)
    decreases |eps|
  {
    if eps != [] {
      var n := |eps| - 1;
      EndpointMapKeys(svc, eps[..n], key);
      AnySnoc(eps, ep => key == EntryKey(svc, ep));
    }
  }

  lemma {:induction false} LastEndpoint(svc: MeshService, eps: seq<Endpoint>, key: string) returns (i: nat)
    requires key in EndpointMap(svc, eps)
    ensures IsLastAt(svc, eps, key, i) && EndpointMap(svc, eps)[key] == EntryOf(eps[i])
    decreases |eps|
  {
    var n := |eps| - 1;
    if key == EntryKey(svc, eps[n]) {
      i := n;
    } else {
      i := LastEndpoint(svc, eps[..n], key);
      assert eps[i + 1..] == eps[..n][i + 1..] + [eps[n]];
    }
  }

  /** The entry has one key for each address and port, and under it the last endpoint there. */
  lemma EndpointMapHas(svc: MeshService, eps: seq<Endpoint>, key: string)
    ensures key in EndpointMap(svc, eps) <==> exists ep <- eps :: key == EntryKey(svc, ep)
    ensures key in EndpointMap(svc, eps) ==>
              exists i: nat :: IsLastAt(svc, eps, key, i) &&
                EndpointMap(svc, eps)[key]
                == ZoneEndpoint(eps[i].weight, eps[i].clusterKey, eps[i].lbType, eps[i].path)
  {
    EndpointMapKeys(svc, eps, key);
    if key in EndpointMap(svc, eps) {
      var i := LastEndpoint(svc, eps, key);
    }
  }

  /** The endpoints of a cluster: those of the service its name parses to. */
  function Upstream(lookup: (string, string, U16) -> seq<Endpoint>, cluster: string): seq<Endpoint> {
    match ClusterToMeshSvc(cluster)
    case None => []
    case Some((ns, name, port)) => lookup(ns, name, port)
  }

  method AddEndpoints(svc: MeshService, eps: seq<Endpoint>) returns (r: Endpoints)
    ensures r == EndpointMap(svc, eps)
  {
    r := map[];
    for i := 0 to |eps|
      invariant r == EndpointMap(svc, eps[..i])
    {
      var ep := eps[i];
      assert eps[..i + 1][..i] == eps[..i];
      var port := svc.port;
      if ep.clusterKey != "" {
        if svc.targetPort > 0 {
          port := svc.targetPort;
        }
      }
      var key := if EndsWithPort(ep.ip) then ep.ip else ep.ip + ":" + Decimal(port);
      r := r[key := ZoneEndpoint(ep.weight, ep.clusterKey, ep.lbType, ep.path)];
    }
    assert eps[..|eps|] == eps;
  }

  /** The entry of a cluster, if it has a config. */
  function EntryFor(configs: seq<ClusterConfig>, lookup: (string, string, U16) -> seq<Endpoint>,
                    cluster: string): Option<Endpoints> {
    match FirstConfig(configs, cluster)
    case None => None
    case Some(config) => Some(EndpointMap(config.svc, Upstream(lookup, cluster)))
  }

  predicate Served(configs: seq<ClusterConfig>, lookup: (string, string, U16) -> seq<Endpoint>, cluster: string) {
    FirstConfig(configs, cluster).Some? && Upstream(lookup, cluster) != []
  }

  method BalanceCluster(configs: seq<ClusterConfig>, lookup: (string, string, U16) -> seq<Endpoint>, cluster: string)
      returns (entry: Option<Endpoints>, served: bool)
    ensures entry == EntryFor(configs, lookup, cluster) && (served <==> Served(configs, lookup, cluster))
  {
    var config := FirstConfig(configs, cluster);
    if config.None? {
      return None, false;
    }
    var eps := Upstream(lookup, cluster);
    var added := AddEndpoints(config.value.svc, eps);
    return Some(added), eps != [];
  }

  /** The clusters' entries are those of the dependencies that have a config. */
  ghost predicate IsBalanced(clusters: map<string, Endpoints>, configs: seq<ClusterConfig>, depends: set<string>,
                       lookup: (string, string, U16) -> seq<Endpoint>) {
    && (forall n :: n in clusters <==> n in depends && EntryFor(configs, lookup, n).Some?)
    && (forall n <- clusters :: EntryFor(configs, lookup, n) == Some(clusters[n]))
  }

  /** `generatePipyOutboundTrafficBalancePolicy`, over the dependencies in any order. */
  method GenerateBalancePolicy(configs: seq<ClusterConfig>, depends: set<string>,
                               lookup: (string, string, U16) -> seq<Endpoint>)
      returns (ready: bool, clusters: map<string, Endpoints>)
    ensures ready <==> forall n <- depends :: Served(configs, lookup, n)
    ensures IsBalanced(clusters, configs, depends, lookup)
  {
    ready, clusters := true, map[];
    var todo := depends;
    while todo != {}
      invariant todo <= depends
      invariant ready <==> forall n <- depends - todo :: Served(configs, lookup, n)
      invariant IsBalanced(clusters, configs, depends - todo, lookup)
      decreases |todo|
    {
      var name :| name in todo;
      var entry, served := BalanceCluster(configs, lookup, name);
      ready := ready && served;
      if entry.Some? {
        clusters := clusters[name := entry.value];
      }
      assert depends - (todo - {name}) == depends - todo + {name};
      todo := todo - {name};
    }
    assert depends - todo == depends;
  }

  /** Referential integrity: when balance generation reports ready, every cluster that any rule sends traffic
      to has a non-empty entry. */
  lemma ReferentialIntegrity(policy: MeshPolicy, lookup: (string, string, U16) -> seq<Endpoint>,
                             clusters: map<string, Endpoints>, cluster: string)
    requires forall m <- policy.matches :: Parses(m)
    requires var depends := Depends(policy, policy.matches).Keys;
             && (forall n <- depends :: Served(policy.clusterConfigs, lookup, n))
             && IsBalanced(clusters, policy.clusterConfigs, depends, lookup)
    requires Referenced(Compile(policy, policy.matches), cluster)
    ensures cluster in clusters && clusters[cluster] != map[]
  {
    DependsAreReferenced(policy, policy.matches, cluster);
    assert Served(policy.clusterConfigs, lookup, cluster);
  }

  /** A cluster of a mesh service has a config, and its endpoints are those of the service. */
  lemma ServiceCluster(cache: Cache, trustDomain: string, services: seq<MeshService>, svc: MeshService,
                       lookup: (string, string, U16) -> seq<Endpoint>)
    requires PlainService(svc) && svc in services
    ensures Served(PolicyOf(cache, trustDomain, services).clusterConfigs, lookup, ClusterName(svc))
       <==> lookup(svc.ns, svc.name, svc.targetPort) != []
  {
    PolicyMatches(cache, trustDomain, services);
    ClusterNameRoundTrip(svc);
    var i :| 0 <= i < |services| && services[i] == svc;
    assert PolicyOf(cache, trustDomain, services).clusterConfigs[i].name == ClusterName(svc);
  }

  lemma RouteConfigNames(cache: Cache, trustDomain: string, services: seq<MeshService>, port: U16, config: RouteConfig,
                         cluster: string)
    requires config in ConfigsAt(PolicyOf(cache, trustDomain, services).routeConfigs, port)
    requires Names(RouteClusters(config.routes), cluster)
    ensures exists s <- services :: cluster == ClusterName(s)
  {
    PolicyRouteConfigs(cache, trustDomain, services, port, config);
    var s :| s in services && config == RouteConfigOf(cache, trustDomain, s);
    RouteClustersNames(config.routes, cluster);
  }

  /** A mesh depends on clusters of its own services only. */
  lemma DependsOnServices(cache: Cache, trustDomain: string, services: seq<MeshService>, cluster: string)
    requires forall m <- PolicyOf(cache, trustDomain, services).matches :: Parses(m)
    requires var policy := PolicyOf(cache, trustDomain, services); cluster in Depends(policy, policy.matches)
    ensures exists s <- services :: cluster == ClusterName(s)
  {
    var policy := PolicyOf(cache, trustDomain, services);
    DependsNames(policy, policy.matches, cluster);
    var m :| m in policy.matches && Names(Mentions(policy, m), cluster);
    assert Parses(m);
    if IsHttp(m) || IsHttps(m) {
      var configs := ConfigsFor(policy, m);
      ConfigClustersNames(configs, cluster);
      var config :| config in configs && Names(RouteClusters(config.routes), cluster);
      RouteConfigNames(cache, trustDomain, services, m.port, config, cluster);
    } else {
      MatchesAreOfServices(cache, trustDomain, services);
      var s :| s in services && m == MatchOf(cache, s);
      assert m.clusters == [ClusterOf(cache, s)];
    }
  }

  /** For the services of a mesh, not being ready means exactly that some service that traffic can be sent
      to has no endpoint. */
  lemma ReadyMeansEndpoints(cache: Cache, trustDomain: string, services: seq<MeshService>,
                            lookup: (string, string, U16) -> seq<Endpoint>)
    requires forall s <- services :: PlainService(s)
    ensures forall m <- PolicyOf(cache, trustDomain, services).matches :: Parses(m)
    ensures var policy := PolicyOf(cache, trustDomain, services);
            var depends := Depends(policy, policy.matches);
            ((forall n <- depends :: Served(policy.clusterConfigs, lookup, n))
             <==> forall s <- services :: ClusterName(s) in depends ==> lookup(s.ns, s.name, s.targetPort) != [])
  {
    ConfigParses(cache, trustDomain, services);
    var policy := PolicyOf(cache, trustDomain, services);
    var depends := Depends(policy, policy.matches);
    forall s | s in services
      ensures Served(policy.clusterConfigs, lookup, ClusterName(s)) <==> lookup(s.ns, s.name, s.targetPort) != []
    {
      ServiceCluster(cache, trustDomain, services, s, lookup);
    }
    forall n | n in depends
      ensures exists s <- services :: n == ClusterName(s)
    {
      DependsOnServices(cache, trustDomain, services, n);
    }
  }

  // ----- rebalancedOutboundClusters -----

  predicate HasLocal(eps: Endpoints) {
    exists k <- eps :: eps[k].cluster == ""
  }

  function Rebalance(ep: ZoneEndpoint, hasLocal: bool): ZoneEndpoint {
    if ep.cluster != "" && ep.lbType == FAIL_OVER then
      ep.(weight := if hasLocal then WEIGHT_FAIL_OVER else WEIGHT_ACCEPT_ALL)
    else if (ep.cluster == "" || ep.lbType == ACTIVE_ACTIVE) && ep.weight == 0 then ep.(weight := WEIGHT_ACCEPT_ALL)
    else ep
  }

  function Rebalanced(eps: Endpoints): Endpoints {
    map k | k in eps :: Rebalance(eps[k], HasLocal(eps))
  }

  method RebalanceEndpoints(eps: Endpoints) returns (out: Endpoints)
    ensures out == Rebalanced(eps)
  {
    out := eps;
    var hasLocal := false;
    var todo := eps.Keys;
    while todo != {}
      invariant todo <= eps.Keys && !hasLocal && forall k | k in eps && k !in todo :: eps[k].cluster != ""
      decreases |todo|
    {
      var k :| k in todo;
      if out[k].cluster == "" {
        hasLocal := true;
        break;
      }
      todo := todo - {k};
    }
    assert hasLocal == HasLocal(eps);
    todo := eps.Keys;
    while todo != {}
      invariant todo <= eps.Keys && out.Keys == eps.Keys
      invariant forall k <- eps :: out[k] == if k in todo then eps[k] else Rebalance(eps[k], hasLocal)
      decreases |todo|
    {
      var k :| k in todo;
      var wze := out[k];
      if wze.cluster != "" {
        if wze.lbType == FAIL_OVER {
          wze := wze.(weight := if hasLocal then WEIGHT_FAIL_OVER else WEIGHT_ACCEPT_ALL);
        } else if wze.lbType == ACTIVE_ACTIVE {
          if wze.weight == 0 {
            wze := wze.(weight := WEIGHT_ACCEPT_ALL);
          }
        }
      } else if wze.weight == 0 {
        wze := wze.(weight := WEIGHT_ACCEPT_ALL);
      }
      out := out[k := wze];
      todo := todo - {k};
    }
  }

  /** Rebalancing twice is rebalancing once. */
  lemma RebalanceIdempotent(eps: Endpoints)
    ensures Rebalanced(Rebalanced(eps)) == Rebalanced(eps)
  {
    assert HasLocal(Rebalanced(eps)) <==> HasLocal(eps) by {
      assert forall k <- eps :: Rebalanced(eps)[k].cluster == eps[k].cluster;
    }
  }

  /** Rebalancing changes weights only. A remote failover endpoint gets 0 beside a local endpoint and 100 otherwise; the
      weight of a local or an active-active endpoint becomes 100 if it was 0; and every other weight is kept. */
  lemma RebalanceExactly(eps: Endpoints, k: string)
    requires k in eps
    ensures Rebalanced(eps).Keys == eps.Keys
    ensures var old_, new_ := eps[k], Rebalanced(eps)[k];
            && new_ == old_.(weight := new_.weight)
            && (old_.cluster != "" && old_.lbType == "FailOver" ==>
                  new_.weight == if exists l <- eps :: eps[l].cluster == "" then 0 else 100)
            && (old_.cluster == "" || old_.lbType == "ActiveActive" ==>
                  (old_.weight != 0 ==> new_.weight == old_.weight) && (old_.weight == 0 ==> new_.weight == 100))
            && (old_.cluster != "" && old_.lbType !in {"FailOver", "ActiveActive"} ==> new_.weight == old_.weight)
  {}

  predicate CanServe(ep: ZoneEndpoint) {
    ep.cluster == "" || ep.lbType == FAIL_OVER || ep.lbType == ACTIVE_ACTIVE || ep.weight > 0
  }

  /** Fail-over endpoints take traffic exactly when there is no local endpoint. After rebalancing some
      endpoint takes traffic, unless all were remote, of no known balancing type and of weight zero. */
  lemma RebalanceServes(eps: Endpoints)
    ensures forall k <- eps :: eps[k].cluster != "" && eps[k].lbType == FAIL_OVER ==>
            (Rebalanced(eps)[k].weight > 0 <==> !HasLocal(eps))
    ensures (exists k <- Rebalanced(eps) :: Rebalanced(eps)[k].weight > 0)
       <==> exists k <- eps :: CanServe(eps[k])
  {
    if k :| k in eps && CanServe(eps[k]) {
      if HasLocal(eps) {
        var l :| l in eps && eps[l].cluster == "";
        assert Rebalanced(eps)[l].weight > 0;
      } else {
        assert Rebalanced(eps)[k].weight > 0;
      }
    }
  }
}
