/** The outbound mesh traffic policy: what the catalog derives from the services of the mesh. */
module Catalog {
  import opened Words
  import opened Services
  import opened Imports

  datatype WeightedCluster = WeightedCluster(name: string, weight: int)

  datatype PathMatchType = PathMatchRegex | PathMatchExact | PathMatchPrefix

  datatype RouteMatch = RouteMatch(path: string, kind: PathMatchType, methods: seq<string>,
                                   headers: map<string, string>)

  /** A route and its set of weighted clusters, in the order in which the set is iterated. */
  datatype Route = Route(cond: RouteMatch, clusters: seq<WeightedCluster>)

  /** `policy.OutboundTrafficPolicy`. */
  datatype RouteConfig = RouteConfig(name: string, hostnames: seq<string>, routes: seq<Route>)

  datatype TrafficMatch = TrafficMatch(name: string, port: U16, protocol: string, clusters: seq<WeightedCluster>)

  datatype ClusterConfig = ClusterConfig(name: string, svc: MeshService)

  datatype MeshPolicy = MeshPolicy(matches: seq<TrafficMatch>,
                                   routeConfigs: map<U16, seq<RouteConfig>>,
                                   clusterConfigs: seq<ClusterConfig>)

  const REGEX_MATCH_ALL := ".*"
  const PROTOCOL_HTTP := "http"
  const PROTOCOL_HTTPS := "https"
  const PROTOCOL_GRPC := "grpc"
  const PROTOCOL_TCP := "tcp"
  const PROTOCOL_TCP_SERVER_FIRST := "tcp-server-first"
  const WEIGHT_ACCEPT_ALL := 100
  const WEIGHT_FAIL_OVER := 0

  const WILDCARD_ROUTE_MATCH := RouteMatch(REGEX_MATCH_ALL, PathMatchRegex, ["*"], map[])

  /** The names that imports and annotations use. */
  lemma ProtocolNames()
    ensures PROTOCOL_HTTP == "http" && PROTOCOL_HTTPS == "https" && PROTOCOL_GRPC == "grpc" && PROTOCOL_TCP == "tcp"
    ensures PROTOCOL_TCP_SERVER_FIRST == "tcp-server-first" && REGEX_MATCH_ALL == ".*"
  {}

  // ----- Weights -----

  /** The weight of the first target for the service's own cluster, zero if it has none. */
  function ActiveWeight(targets: seq<LbTarget>, uid: string): int {
    if targets == [] then 0
    else if targets[0].clusterKey == uid then WeightOf(targets[0])
    else ActiveWeight(targets[1..], uid)
  }

  predicate Targets(policy: TrafficPolicy, key: string) {
    exists t <- policy.targets :: t.clusterKey == key
  }

  /** Load balancing type, weight and cluster keys of a service (`GetLbWeightForService`): its own key, if that is a
      target, for an active-active policy, and the keys of all targets for failover. */
  method GetLbWeightForService(cache: Cache, svc: MeshService)
      returns (aa: bool, fo: bool, lc: bool, weight: int, clusterKeys: map<string, int>)
    ensures var policy := ServicePolicy(cache, svc);
            && (aa <==> policy.lbType == ACTIVE_ACTIVE)
            && (fo <==> policy.lbType == FAIL_OVER)
            && (lc <==> !aa && !fo)
            && weight == (if !aa then 0
                          else if policy.targets == [] then WEIGHT_ACCEPT_ALL
                          else ActiveWeight(policy.targets, svc.importUid))
            && (forall k :: k in clusterKeys <==> (fo || (aa && k == svc.importUid)) && Targets(policy, k))
            && (forall k <- clusterKeys :: clusterKeys[k] == if aa then weight else WEIGHT_FAIL_OVER)
  {
    aa, fo, lc, weight, clusterKeys := false, false, false, 0, map[];
    if NamespacedKey(svc) in cache.policies {
      var policy := cache.policies[NamespacedKey(svc)];
      if policy.lbType == ACTIVE_ACTIVE {
        aa := true;
        if policy.targets == [] {
          weight := WEIGHT_ACCEPT_ALL;
        } else {
          weight, clusterKeys := OwnTarget(policy.targets, svc.importUid);
        }
        return;
      }
      if policy.lbType == FAIL_OVER {
        fo, weight := true, WEIGHT_FAIL_OVER;
        var targets := policy.targets;
        for i := 0 to |targets|
          invariant clusterKeys == map t <- targets[..i] :: t.clusterKey := WEIGHT_FAIL_OVER
        {
          assert targets[..i + 1] == targets[..i] + [targets[i]];
          clusterKeys := clusterKeys[targets[i].clusterKey := WEIGHT_FAIL_OVER];
        }
        assert targets[..|targets|] == targets;
        return;
      }
    }
    lc := true;
  }

  /** The loop over the targets of an active-active policy: the service's own target, if there is one. */
  method OwnTarget(targets: seq<LbTarget>, uid: string) returns (weight: int, clusterKeys: map<string, int>)
    ensures weight == ActiveWeight(targets, uid)
    ensures clusterKeys == if exists t <- targets :: t.clusterKey == uid then map[uid := weight] else map[]
  {
    for i := 0 to |targets|
      invariant forall j | 0 <= j < i :: targets[j].clusterKey != uid
      invariant ActiveWeight(targets, uid) == ActiveWeight(targets[i..], uid)
    {
      var lbt := targets[i];
      if lbt.clusterKey == uid {
        return WeightOf(lbt), map[lbt.clusterKey := WeightOf(lbt)];
      }
    }
    return 0, map[];
  }

  /** The weight of a service's cluster: all traffic, unless a global policy says otherwise. */
  function ClusterWeight(cache: Cache, svc: MeshService): int {
    var policy := ServicePolicy(cache, svc);
    if svc.importUid == "" then WEIGHT_ACCEPT_ALL
    else if policy.lbType == ACTIVE_ACTIVE then
      var w := if policy.targets == [] then WEIGHT_ACCEPT_ALL else ActiveWeight(policy.targets, svc.importUid);
      if w > 0 then w else WEIGHT_ACCEPT_ALL
    else if policy.lbType == FAIL_OVER then WEIGHT_FAIL_OVER
    else WEIGHT_ACCEPT_ALL
  }

  /** `i` is the first target for the cluster. */
  predicate IsFirstFor(targets: seq<LbTarget>, key: string, i: nat) {
    i < |targets| && targets[i].clusterKey == key && forall j | 0 <= j < i :: targets[j].clusterKey != key
  }

  lemma {:induction false} ActiveWeightIs(targets: seq<LbTarget>, key: string)
    ensures (forall t <- targets :: t.clusterKey != key) ==> ActiveWeight(targets, key) == 0
    ensures forall i: nat | IsFirstFor(targets, key, i) ::
              ActiveWeight(targets, key) == match targets[i].weight case Some(w) => w case None => 0
    decreases |targets|
  {
    if targets != [] && targets[0].clusterKey != key {
      ActiveWeightIs(targets[1..], key);
      forall i: nat | IsFirstFor(targets, key, i)
        ensures i > 0 && IsFirstFor(targets[1..], key, i - 1)
      {
        assert forall j | 0 <= j < i - 1 :: targets[1..][j] == targets[j + 1];
      }
    }
  }

  /** What a cluster weighs: nothing exactly when it is imported under a failover policy; what the first target for its
      cluster says if the policy is active-active and that is positive; and 100 otherwise. */
  lemma ClusterWeightExactly(cache: Cache, svc: MeshService)
    ensures ClusterWeight(cache, svc) == 0 <==>
            svc.importUid != "" && ServicePolicy(cache, svc).lbType == "FailOver"
    ensures ClusterWeight(cache, svc) !in {0, 100} ==>
              svc.importUid != "" && ServicePolicy(cache, svc).lbType == "ActiveActive"
    ensures svc.importUid != "" && ServicePolicy(cache, svc).lbType == "ActiveActive" ==>
              forall i: nat | IsFirstFor(ServicePolicy(cache, svc).targets, svc.importUid, i) ::
                ClusterWeight(cache, svc) == match ServicePolicy(cache, svc).targets[i].weight
                                             case Some(w) => if w > 0 then w else 100
                                             case None => 100
    ensures (forall t <- ServicePolicy(cache, svc).targets :: t.clusterKey != svc.importUid) ==>
              ClusterWeight(cache, svc) in {0, 100}
  {
    ActiveWeightIs(ServicePolicy(cache, svc).targets, svc.importUid);
  }

  method MergeUpstreamClusters(cache: Cache, svc: MeshService) returns (clusters: seq<WeightedCluster>)
    ensures clusters == [ClusterOf(cache, svc)]
  {
    var wc := WeightedCluster(ClusterName(svc), WEIGHT_ACCEPT_ALL);
    if svc.importUid != "" {
      var aa, fo, lc, weight, clusterKeys := GetLbWeightForService(cache, svc);
      if aa && weight > 0 {
        wc := wc.(weight := weight);
      } else if fo {
        wc := wc.(weight := WEIGHT_FAIL_OVER);
      }
    }
    clusters := [wc];
  }

  // ----- The policy of a list of services -----

  function ClusterOf(cache: Cache, svc: MeshService): WeightedCluster {
    WeightedCluster(ClusterName(svc), ClusterWeight(cache, svc))
  }

  function MatchOf(cache: Cache, svc: MeshService): TrafficMatch {
    TrafficMatch(OutboundTrafficMatchName(svc), svc.port, svc.protocol, [ClusterOf(cache, svc)])
  }

  function RouteConfigOf(cache: Cache, trustDomain: string, svc: MeshService): RouteConfig {
    RouteConfig(Fqdn(svc), Hostnames(svc, trustDomain), [Route(WILDCARD_ROUTE_MATCH, [ClusterOf(cache, svc)])])
  }

  predicate HasRouteConfig(svc: MeshService) {
    svc.protocol != PROTOCOL_TCP && svc.protocol != PROTOCOL_TCP_SERVER_FIRST
  }

  function ConfigsAt(configs: map<U16, seq<RouteConfig>>, port: U16): seq<RouteConfig> {
    if port in configs then configs[port] else []
  }

  function AddService(policy: MeshPolicy, cache: Cache, trustDomain: string, svc: MeshService): MeshPolicy {
    MeshPolicy(policy.matches + [MatchOf(cache, svc)],
               if !HasRouteConfig(svc) then policy.routeConfigs
               else
                 var configs := ConfigsAt(policy.routeConfigs, svc.port) + [RouteConfigOf(cache, trustDomain, svc)];
                 policy.routeConfigs[svc.port := configs],
               policy.clusterConfigs + [ClusterConfig(ClusterName(svc), svc)])
  }

  function PolicyOf(cache: Cache, trustDomain: string, services: seq<MeshService>): MeshPolicy {
    if services == [] then MeshPolicy([], map[], [])
    else
      var n := |services| - 1;
      AddService(PolicyOf(cache, trustDomain, services[..n]), cache, trustDomain, services[n])
  }

  /** `GetOutboundMeshTrafficPolicy` for the given outbound services. */
  method GetOutboundMeshTrafficPolicy(cache: Cache, trustDomain: string, services: seq<MeshService>)
      returns (policy: MeshPolicy)
    ensures policy == PolicyOf(cache, trustDomain, services)
  {
    var matches: seq<TrafficMatch> := [];
    var clusterConfigs: seq<ClusterConfig> := [];
    var routeConfigs: map<U16, seq<RouteConfig>> := map[];
    for i := 0 to |services|
      invariant MeshPolicy(matches, routeConfigs, clusterConfigs) == PolicyOf(cache, trustDomain, services[..i])
    {
      var svc := services[i];
      assert services[..i + 1][..i] == services[..i];
      clusterConfigs := clusterConfigs + [ClusterConfig(ClusterName(svc), svc)];
      var clusters := MergeUpstreamClusters(cache, svc);
      matches := matches + [TrafficMatch(OutboundTrafficMatchName(svc), svc.port, svc.protocol, clusters)];
      if svc.protocol == PROTOCOL_TCP || svc.protocol == PROTOCOL_TCP_SERVER_FIRST {
        continue;
      }
      var hostnames := GetHostnamesForService(svc, trustDomain);
      var config := RouteConfig(Fqdn(svc), hostnames, [Route(WILDCARD_ROUTE_MATCH, clusters)]);
      routeConfigs := routeConfigs[svc.port := ConfigsAt(routeConfigs, svc.port) + [config]];
    }
    assert services[..|services|] == services;
    policy := MeshPolicy(matches, routeConfigs, clusterConfigs);
  }

  // ----- What the policy holds -----

  /** Traffic matches and cluster configs are those of the services, one each. */
  lemma {:induction false} PolicyMatches(cache: Cache, trustDomain: string, services: seq<MeshService>)
    ensures var p := PolicyOf(cache, trustDomain, services);
            && |p.matches| == |p.clusterConfigs| == |services|
            && (forall i | 0 <= i < |services| ::
                  && p.matches[i] == MatchOf(cache, services[i])
                  && p.clusterConfigs[i] == ClusterConfig(ClusterName(services[i]), services[i]))
  {
    if services != [] {
      var n := |services| - 1;
      PolicyMatches(cache, trustDomain, services[..n]);
      var before := PolicyOf(cache, trustDomain, services[..n]);
      assert PolicyOf(cache, trustDomain, services) == AddService(before, cache, trustDomain, services[n]);
      assert forall i | 0 <= i < n :: services[..n][i] == services[i];
    }
  }

  lemma AddServiceConfigs(policy: MeshPolicy, cache: Cache, trustDomain: string, svc: MeshService, port: U16,
                          config: RouteConfig)
    ensures config in ConfigsAt(AddService(policy, cache, trustDomain, svc).routeConfigs, port) <==>
            || config in ConfigsAt(policy.routeConfigs, port)
            || GivesConfig(cache, trustDomain, svc, port, config)
  {}

  /** A service on the port that is not plain TCP, and its route config. */
  predicate GivesConfig(cache: Cache, trustDomain: string, s: MeshService, port: U16, config: RouteConfig) {
    && s.port == port && s.protocol != PROTOCOL_TCP && s.protocol != PROTOCOL_TCP_SERVER_FIRST
    && config == RouteConfigOf(cache, trustDomain, s)
  }

  /** The route configs of a port are exactly those of the services on that port that are not plain TCP. */
  lemma {:induction false} PolicyRouteConfigs(cache: Cache, trustDomain: string, services: seq<MeshService>, port: U16,
                                              config: RouteConfig)
    ensures config in ConfigsAt(PolicyOf(cache, trustDomain, services).routeConfigs, port)
       <==> exists s <- services :: GivesConfig(cache, trustDomain, s, port, config)
  {
    if services != [] {
      var n := |services| - 1;
      PolicyRouteConfigs(cache, trustDomain, services[..n], port, config);
      AddServiceConfigs(PolicyOf(cache, trustDomain, services[..n]), cache, trustDomain, services[n], port, config);
      AnySnoc(services, s => GivesConfig(cache, trustDomain, s, port, config));
    }
  }
}
