/** Compilation preserves meaning: what the proxy's routing configuration says about a service is what the
    catalog's list of services says. */
module Meaning {
  import opened Text
  import opened Services
  import opened Imports
  import opened Catalog
  import opened Routing

  /** Names without a dot or any separator of the generated names. */
  predicate Plain(s: string) {
    ClusterSafe(s) && MatchSafe(s) && HostSafe(s)
  }

  predicate PlainService(svc: MeshService) {
    Plain(svc.ns) && Plain(svc.name)
  }

  /** Whether the proxy serves the service through the shared HTTP match of its port. */
  predicate HttpService(svc: MeshService) {
    Lower(svc.protocol) == PROTOCOL_HTTP || Lower(svc.protocol) == PROTOCOL_GRPC
  }

  function HttpKey(svc: MeshService): string {
    NamedPort(svc.port, PROTOCOL_HTTP)
  }

  lemma LowerKeepsUnderscore(protocol: string, lowered: string)
    requires Lower(protocol) == lowered && Free(lowered, {'_'})
    ensures Free(protocol, {'_'})
  {
    assert forall i | 0 <= i < |protocol| :: lowered[i] == LowerChar(protocol[i]);
  }

  /** Every service of the mesh has a traffic match that parses, and back to itself. */
  lemma ServiceMatchParses(cache: Cache, svc: MeshService)
    requires PlainService(svc)
    ensures Parses(MatchOf(cache, svc))
    ensures IsHttp(MatchOf(cache, svc)) ==> UpstreamFqdn(MatchOf(cache, svc)) == Fqdn(svc)
  {
    var m := MatchOf(cache, svc);
    if IsHttp(m) || IsHttps(m) {
      LowerKeepsUnderscore(svc.protocol, Lower(svc.protocol));
      FieldsLast(svc.protocol, {'_'});
      MatchNameRoundTrip(svc);
    }
  }

  lemma BroughtIsOwn(cache: Cache, trustDomain: string, services: seq<MeshService>, svc: MeshService, key: string,
                     config: RouteConfig)
    requires (forall s <- services :: PlainService(s)) && svc in services && Parses(MatchOf(cache, svc))
    requires Brings(PolicyOf(cache, trustDomain, services), MatchOf(cache, svc), key, config)
    ensures HttpService(svc) && key == HttpKey(svc) && config == RouteConfigOf(cache, trustDomain, svc)
  {
    var m := MatchOf(cache, svc);
    assert IsHttp(m) && key == MatchKey(m) && Fits(config, UpstreamFqdn(m), m.clusters);
    ServiceMatchParses(cache, svc);
    assert config.name == Fqdn(svc);
    FittingIsOwn(cache, trustDomain, services, svc, config);
  }

  lemma FittingIsOwn(cache: Cache, trustDomain: string, services: seq<MeshService>, svc: MeshService,
                     config: RouteConfig)
    requires (forall s <- services :: PlainService(s)) && svc in services
    requires config in ConfigsAt(PolicyOf(cache, trustDomain, services).routeConfigs, svc.port)
    requires Fits(config, Fqdn(svc), MatchOf(cache, svc).clusters)
    ensures config == RouteConfigOf(cache, trustDomain, svc)
  {
    PolicyRouteConfigs(cache, trustDomain, services, svc.port, config);
    var s :| s in services && s.port == svc.port && config == RouteConfigOf(cache, trustDomain, s);
    OwnParts(cache, trustDomain, s);
    SameRouteConfig(cache, trustDomain, s, svc);
  }

  lemma OwnParts(cache: Cache, trustDomain: string, s: MeshService)
    ensures var config := RouteConfigOf(cache, trustDomain, s);
            config.name == Fqdn(s) && config.routes == [Route(WILDCARD_ROUTE_MATCH, [ClusterOf(cache, s)])]
  {}

  lemma SameRouteConfig(cache: Cache, trustDomain: string, s: MeshService, t: MeshService)
    requires PlainService(s) && PlainService(t) && s.port == t.port && Fqdn(s) == Fqdn(t)
    requires SameClusters([ClusterOf(cache, t)], [ClusterOf(cache, s)])
    ensures RouteConfigOf(cache, trustDomain, s) == RouteConfigOf(cache, trustDomain, t)
  {
    FqdnInjective(s, t);
    assert ClusterOf(cache, t) in [ClusterOf(cache, s)];
    SameHosts(s, t, trustDomain);
  }

  lemma BringsOwn(cache: Cache, trustDomain: string, services: seq<MeshService>, svc: MeshService)
    requires svc in services && HttpService(svc) && PlainService(svc) && Parses(MatchOf(cache, svc))
    ensures Brings(PolicyOf(cache, trustDomain, services), MatchOf(cache, svc), HttpKey(svc),
                   RouteConfigOf(cache, trustDomain, svc))
  {
    ServiceMatchParses(cache, svc);
    var m, config := MatchOf(cache, svc), RouteConfigOf(cache, trustDomain, svc);
    HttpIsNotTcp(svc);
    PolicyRouteConfigs(cache, trustDomain, services, svc.port, config);
    assert SameClusters(m.clusters, config.routes[0].clusters);
    assert config.routes[0] in config.routes;
    assert Fits(config, Fqdn(svc), m.clusters);
  }

  lemma HttpIsNotTcp(svc: MeshService)
    requires HttpService(svc)
    ensures svc.protocol != PROTOCOL_TCP && svc.protocol != PROTOCOL_TCP_SERVER_FIRST
  {
    assert |svc.protocol| == 4;
  }

  /** The one route config that the traffic match of an HTTP service selects is the service's own. */
  lemma ServiceBrings(cache: Cache, trustDomain: string, services: seq<MeshService>, svc: MeshService, key: string,
                      config: RouteConfig)
    requires (forall s <- services :: PlainService(s)) && svc in services
    ensures Parses(MatchOf(cache, svc))
    ensures Brings(PolicyOf(cache, trustDomain, services), MatchOf(cache, svc), key, config)
       <==> HttpService(svc) && key == HttpKey(svc) && config == RouteConfigOf(cache, trustDomain, svc)
  {
    ServiceMatchParses(cache, svc);
    if Brings(PolicyOf(cache, trustDomain, services), MatchOf(cache, svc), key, config) {
      BroughtIsOwn(cache, trustDomain, services, svc, key, config);
    }
    if HttpService(svc) && key == HttpKey(svc) && config == RouteConfigOf(cache, trustDomain, svc) {
      BringsOwn(cache, trustDomain, services, svc);
    }
  }

  lemma {:induction false} SameDomainHosts(a: MeshService, b: MeshService, host: string, segs: seq<string>)
    requires a.port == b.port
    ensures DomainHosts(a, host, segs) == DomainHosts(b, host, segs)
    decreases |segs|
  {
    if segs != [] {
      SameDomainHosts(a, b, if segs[0] == "" then host else host + "." + segs[0], segs[1..]);
    }
  }

  lemma SameHosts(a: MeshService, b: MeshService, trustDomain: string)
    requires a.name == b.name && a.ns == b.ns && a.port == b.port
    ensures Hostnames(a, trustDomain) == Hostnames(b, trustDomain)
  {
    SameDomainHosts(a, b, HostBase(a) + ".svc", Split(trustDomain, '.'));
  }

  lemma MatchesAreOfServices(cache: Cache, trustDomain: string, services: seq<MeshService>)
    ensures forall m :: m in PolicyOf(cache, trustDomain, services).matches <==>
            exists s <- services :: m == MatchOf(cache, s)
  {
    var ms := PolicyOf(cache, trustDomain, services).matches;
    PolicyMatches(cache, trustDomain, services);
    forall s | s in services
      ensures MatchOf(cache, s) in ms
    {
      var i :| 0 <= i < |services| && services[i] == s;
      assert ms[i] == MatchOf(cache, s);
    }
  }

  /** The compiled configuration of the mesh. */
  function Config(cache: Cache, trustDomain: string, services: seq<MeshService>): map<string, Match>
    requires forall s <- services :: PlainService(s)
  {
    ConfigParses(cache, trustDomain, services);
    var policy := PolicyOf(cache, trustDomain, services);
    Compile(policy, policy.matches)
  }

  lemma ConfigParses(cache: Cache, trustDomain: string, services: seq<MeshService>)
    requires forall s <- services :: PlainService(s)
    ensures forall m <- PolicyOf(cache, trustDomain, services).matches :: Parses(m)
  {
    MatchesAreOfServices(cache, trustDomain, services);
    forall s | s in services
      ensures Parses(MatchOf(cache, s))
    {
      ServiceMatchParses(cache, s);
    }
  }

  /** Key, rule and cluster are those of an HTTP service. */
  predicate RoutedTo(s: MeshService, key: string, rule: string, cluster: string) {
    HttpService(s) && key == HttpKey(s) && rule == Fqdn(s) && cluster == ClusterName(s)
  }

  /** Rules mean services: under a traffic match, a rule sends a request to a cluster exactly when they are
      the fully qualified name and the cluster of an HTTP service on that port, and only by the wildcard. */
  lemma RulesMeanServices(cache: Cache, trustDomain: string, services: seq<MeshService>, key: string, rule: string,
                          cond: MatchRule, cluster: string)
    requires forall s <- services :: PlainService(s)
    ensures var out := Config(cache, trustDomain, services);
            (key in out && HasTarget(RulesAt(out[key], rule), cond, cluster)) <==>
            cond == WILDCARD_RULE && exists s <- services :: RoutedTo(s, key, rule, cluster)
  {
    ConfigParses(cache, trustDomain, services);
    MatchesAreOfServices(cache, trustDomain, services);
    var policy := PolicyOf(cache, trustDomain, services);
    CompiledTargets(policy, policy.matches, key, rule, cond, cluster);
    var out := Config(cache, trustDomain, services);
    if key in out && HasTarget(RulesAt(out[key], rule), cond, cluster) {
      var m, config :| m in policy.matches && Brings(policy, m, key, config) && config.name == rule
          && ConfigGives(config, cond, cluster);
      var s :| s in services && m == MatchOf(cache, s);
      ServiceBrings(cache, trustDomain, services, s, key, config);
      WildcardGives(cache, trustDomain, s, cond, cluster);
    }
    if s :| s in services && cond == WILDCARD_RULE && RoutedTo(s, key, rule, cluster) {
      var config := RouteConfigOf(cache, trustDomain, s);
      ServiceBrings(cache, trustDomain, services, s, key, config);
      WildcardGives(cache, trustDomain, s, cond, cluster);
      assert MatchOf(cache, s) in policy.matches;
    }
  }

  lemma WildcardGives(cache: Cache, trustDomain: string, svc: MeshService, cond: MatchRule, cluster: string)
    ensures ConfigGives(RouteConfigOf(cache, trustDomain, svc), cond, cluster)
       <==> cond == WILDCARD_RULE && cluster == ClusterName(svc)
  {
    var config := RouteConfigOf(cache, trustDomain, svc);
    var r := config.routes[0];
    assert "*" in r.cond.methods;
    assert ToMatchRule(r.cond) == WILDCARD_RULE;
    assert ClusterOf(cache, svc) in r.clusters;
    assert RouteGives(r, cond, cluster) <==> cond == WILDCARD_RULE && cluster == ClusterName(svc);
  }

  /** Hosts mean services: a host known on a port is a hostname of HTTP services of one name and namespace
      on that port, and leads to their rule and never to another service's. */
  lemma HostsMeanServices(cache: Cache, trustDomain: string, services: seq<MeshService>, key: string, host: string)
    requires forall s <- services :: PlainService(s)
    ensures var out := Config(cache, trustDomain, services);
            && ((key in out && host in out[key].hosts) <==>
                exists s <- services :: HttpService(s) && key == HttpKey(s) && host in Hostnames(s, trustDomain))
            && (key in out && host in out[key].hosts ==>
                forall s <- services :: HttpService(s) && key == HttpKey(s) && host in Hostnames(s, trustDomain) ==>
                  out[key].hosts[host] == Fqdn(s))
  {
    ConfigParses(cache, trustDomain, services);
    MatchesAreOfServices(cache, trustDomain, services);
    var policy := PolicyOf(cache, trustDomain, services);
    CompiledHosts(policy, policy.matches, key, host);
    var out := Config(cache, trustDomain, services);
    if key in out && host in out[key].hosts {
      CompiledHostRule(policy, policy.matches, key, host);
      var m, config :| m in policy.matches && Brings(policy, m, key, config) && host in config.hostnames
          && out[key].hosts[host] == config.name;
      var s :| s in services && m == MatchOf(cache, s);
      ServiceBrings(cache, trustDomain, services, s, key, config);
      forall t | t in services && HttpService(t) && key == HttpKey(t) && host in Hostnames(t, trustDomain)
        ensures out[key].hosts[host] == Fqdn(t)
      {
        HostnameOwner(s, t, trustDomain, host);
      }
    }
    if s :| s in services && HttpService(s) && key == HttpKey(s) && host in Hostnames(s, trustDomain) {
      ServiceBrings(cache, trustDomain, services, s, key, RouteConfigOf(cache, trustDomain, s));
      assert MatchOf(cache, s) in policy.matches;
    }
  }

  /** End to end: a request for any hostname of an HTTP service, on its port, finds its rule, and the
      wildcard of that rule finds its cluster. */
  lemma ServiceIsRouted(cache: Cache, trustDomain: string, services: seq<MeshService>, svc: MeshService, host: string)
    requires (forall s <- services :: PlainService(s)) && svc in services && HttpService(svc)
    requires host in Hostnames(svc, trustDomain)
    ensures var out := Config(cache, trustDomain, services);
            && HttpKey(svc) in out && host in out[HttpKey(svc)].hosts
            && HasTarget(RulesAt(out[HttpKey(svc)], out[HttpKey(svc)].hosts[host]), WILDCARD_RULE, ClusterName(svc))
  {
    HostsMeanServices(cache, trustDomain, services, HttpKey(svc), host);
    RulesMeanServices(cache, trustDomain, services, HttpKey(svc), Fqdn(svc), WILDCARD_RULE, ClusterName(svc));
  }
}
