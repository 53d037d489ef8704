/** The routing configuration of the proxy, as a value: what compiling a mesh traffic policy yields. */
module Routing {
  import opened Words
  import opened Text
  import opened Services
  import opened Catalog

  datatype MatchRule = MatchRule(path: string, kind: PathMatchType, headers: map<string, string>, methods: seq<string>,
                                 anyMethod: bool)

  datatype RouteRule = RouteRule(cond: MatchRule, targets: map<string, U32>)

  /** An outbound traffic match: HTTP hosts and rules, or TCP targets. */
  datatype Match = Match(port: U16, protocol: string, hosts: map<string, string>,
                         rules: map<string, seq<RouteRule>>, tcp: Option<map<string, U32>>)

  // ----- Protocols -----

  predicate IsHttp(m: TrafficMatch) {
    Lower(m.protocol) == PROTOCOL_HTTP || Lower(m.protocol) == PROTOCOL_GRPC
  }

  predicate IsHttps(m: TrafficMatch) {
    Lower(m.protocol) == PROTOCOL_HTTPS
  }

  predicate IsTcp(m: TrafficMatch) {
    Lower(m.protocol) == PROTOCOL_TCP || Lower(m.protocol) == PROTOCOL_TCP_SERVER_FIRST
  }

  /** HTTP and gRPC share one traffic match per port. */
  function MatchName(m: TrafficMatch): string {
    if IsHttp(m) then PROTOCOL_HTTP else m.name
  }

  function MatchKey(m: TrafficMatch): string {
    NamedPort(m.port, MatchName(m))
  }

  function NewMatch(m: TrafficMatch): Match {
    var protocol := Lower(m.protocol);
    Match(m.port, if protocol == PROTOCOL_TCP_SERVER_FIRST then PROTOCOL_TCP else protocol, map[], map[], None)
  }

  // ----- Route configs of a traffic match -----

  /** `arrayEqual`: same length and the same members. */
  predicate SameClusters(a: seq<WeightedCluster>, b: seq<WeightedCluster>) {
    |a| == |b| && (forall x <- a :: x in b) && (forall x <- b :: x in a)
  }

  predicate Fits(config: RouteConfig, fqdn: string, clusters: seq<WeightedCluster>) {
    config.name == fqdn && exists r <- config.routes :: SameClusters(clusters, r.clusters)
  }

  function Selected(configs: seq<RouteConfig>, fqdn: string, clusters: seq<WeightedCluster>): (r: seq<RouteConfig>)
    ensures forall c :: c in r <==> c in configs && Fits(c, fqdn, clusters)
  {
    if configs == [] then []
    else
      var n := |configs| - 1;
      assert configs == configs[..n] + [configs[n]];
      Selected(configs[..n], fqdn, clusters) + if Fits(configs[n], fqdn, clusters) then [configs[n]] else []
  }

  /** The fully qualified name of the service named by a traffic match. Compiling an HTTP or HTTPS match
      whose name does not parse dereferences a nil service. */
  function UpstreamFqdn(m: TrafficMatch): string
    requires MatchNameToMeshSvc(m.name).Some?
  {
    var (ns, name) := MatchNameToMeshSvc(m.name).value;
    Fqdn(MeshService(ns, name, 0, m.port, Lower(m.protocol), ""))
  }

  predicate Parses(m: TrafficMatch) {
    IsHttp(m) || IsHttps(m) ==> MatchNameToMeshSvc(m.name).Some?
  }

  function ConfigsFor(policy: MeshPolicy, m: TrafficMatch): seq<RouteConfig>
    requires MatchNameToMeshSvc(m.name).Some?
  {
    Selected(ConfigsAt(policy.routeConfigs, m.port), UpstreamFqdn(m), m.clusters)
  }

  // ----- Rules -----

  function ToMatchRule(r: RouteMatch): MatchRule {
    var any := r.methods == [] || "*" in r.methods;
    MatchRule(if r.path == "" then REGEX_MATCH_ALL else r.path, r.kind, r.headers, if any then [] else r.methods, any)
  }

  const WILDCARD_RULE := MatchRule(REGEX_MATCH_ALL, PathMatchRegex, map[], [], true)

  predicate Names(clusters: seq<WeightedCluster>, name: string) {
    exists c <- clusters :: c.name == name
  }

  function AddTargets(targets: map<string, U32>, clusters: seq<WeightedCluster>): (r: map<string, U32>)
    ensures forall n :: n in r <==> n in targets || Names(clusters, n)
  {
    if clusters == [] then targets
    else
      var last := clusters[|clusters| - 1];
      assert clusters == clusters[..|clusters| - 1] + [last];
      AddTargets(targets, clusters[..|clusters| - 1])[last.name := last.weight % 0x1_0000_0000]
  }

  /** The clusters join the first rule with the same condition, or a new one. */
  function AddRule(rules: seq<RouteRule>, cond: MatchRule, clusters: seq<WeightedCluster>): seq<RouteRule> {
    if rules == [] then [RouteRule(cond, AddTargets(map[], clusters))]
    else if rules[0].cond == cond then [RouteRule(cond, AddTargets(rules[0].targets, clusters))] + rules[1..]
    else [rules[0]] + AddRule(rules[1..], cond, clusters)
  }

  function AddRoutes(rules: seq<RouteRule>, routes: seq<Route>): seq<RouteRule> {
    if routes == [] then rules
    else
      var last := routes[|routes| - 1];
      AddRule(AddRoutes(rules, routes[..|routes| - 1]), ToMatchRule(last.cond), last.clusters)
  }

  function AddHosts(hosts: map<string, string>, names: seq<string>, rule: string): (r: map<string, string>)
    ensures forall h :: h in r <==> h in hosts || h in names
    ensures forall h <- r :: r[h] == if h in names then rule else hosts[h]
  {
    if names == [] then hosts
    else
      var n := |names| - 1;
      assert names == names[..n] + [names[n]];
      AddHosts(hosts, names[..n], rule)[names[n] := rule]
  }

  function RulesAt(tm: Match, name: string): seq<RouteRule> {
    if name in tm.rules then tm.rules[name] else []
  }

  function AddConfig(tm: Match, config: RouteConfig): Match {
    tm.(hosts := AddHosts(tm.hosts, config.hostnames, config.name),
        rules := tm.rules[config.name := AddRoutes(RulesAt(tm, config.name), config.routes)])
  }

  function AddConfigs(tm: Match, configs: seq<RouteConfig>): Match {
    if configs == [] then tm
    else AddConfig(AddConfigs(tm, configs[..|configs| - 1]), configs[|configs| - 1])
  }

  // ----- TCP targets -----

  function RouteClusters(routes: seq<Route>): seq<WeightedCluster> {
    if routes == [] then [] else RouteClusters(routes[..|routes| - 1]) + routes[|routes| - 1].clusters
  }

  /** All the clusters that the routes of the configs name. */
  function ConfigClusters(configs: seq<RouteConfig>): seq<WeightedCluster> {
    if configs == [] then []
    else ConfigClusters(configs[..|configs| - 1]) + RouteClusters(configs[|configs| - 1].routes)
  }

  function AddTcp(tm: Match, clusters: seq<WeightedCluster>): Match {
    tm.(tcp := Some(AddTargets(if tm.tcp.Some? then tm.tcp.value else map[], clusters)))
  }

  // ----- Compilation -----

  function CompileMatch(tm: Match, policy: MeshPolicy, m: TrafficMatch): Match
    requires Parses(m)
  {
    if IsHttp(m) then AddConfigs(tm, ConfigsFor(policy, m))
    else if IsTcp(m) then AddTcp(tm, m.clusters)
    else if IsHttps(m) then
      var configs := ConfigsFor(policy, m);
      if configs == [] then tm else AddTcp(tm, ConfigClusters(configs))
    else tm
  }

  /** The clusters a traffic match makes the configuration depend on. */
  function Mentions(policy: MeshPolicy, m: TrafficMatch): seq<WeightedCluster>
    requires Parses(m)
  {
    if IsHttp(m) || IsHttps(m) then ConfigClusters(ConfigsFor(policy, m))
    else if IsTcp(m) then m.clusters
    else []
  }

  /** The traffic matches by name, after the given ones of the policy. */
  function Compile(policy: MeshPolicy, ms: seq<TrafficMatch>): map<string, Match>
    requires forall m <- ms :: Parses(m)
  {
    if ms == [] then map[]
    else
      CompileInto(Compile(policy, ms[..|ms| - 1]), policy, ms[|ms| - 1])
  }

  function CompileInto(before: map<string, Match>, policy: MeshPolicy, m: TrafficMatch): map<string, Match>
    requires Parses(m)
  {
    var tm := if MatchKey(m) in before then before[MatchKey(m)] else NewMatch(m);
    before[MatchKey(m) := CompileMatch(tm, policy, m)]
  }

  /** Clusters the configuration depends on; the first mention of a name is kept. */
  function AddDepends(depends: map<string, WeightedCluster>,
                      clusters: seq<WeightedCluster>): (r: map<string, WeightedCluster>)
    requires forall n <- depends :: depends[n].name == n
    ensures forall n :: n in r <==> n in depends || Names(clusters, n)
    ensures forall n <- r :: r[n].name == n
  {
    if clusters == [] then depends
    else
      var last := clusters[|clusters| - 1];
      assert clusters == clusters[..|clusters| - 1] + [last];
      var before := AddDepends(depends, clusters[..|clusters| - 1]);
      if last.name in before then before else before[last.name := last]
  }

  function Depends(policy: MeshPolicy, ms: seq<TrafficMatch>): (r: map<string, WeightedCluster>)
    requires forall m <- ms :: Parses(m)
    ensures forall n <- r :: r[n].name == n
  {
    if ms == [] then map[]
    else AddDepends(Depends(policy, ms[..|ms| - 1]), Mentions(policy, ms[|ms| - 1]))
  }

  lemma CompileSnoc(policy: MeshPolicy, ms: seq<TrafficMatch>, i: nat)
    requires (forall m <- ms :: Parses(m)) && i < |ms|
    ensures Parses(ms[i])
    ensures Compile(policy, ms[..i + 1]) == CompileInto(Compile(policy, ms[..i]), policy, ms[i])
    ensures Depends(policy, ms[..i + 1]) == AddDepends(Depends(policy, ms[..i]), Mentions(policy, ms[i]))
  {
    assert ms[..i + 1][..i] == ms[..i];
  }

  // ----- What the rules of a configuration hold -----

  /** Some rule with this condition targets the cluster. */
  predicate HasTarget(rules: seq<RouteRule>, cond: MatchRule, cluster: string) {
    exists r <- rules :: r.cond == cond && cluster in r.targets
  }

  predicate RouteGives(r: Route, cond: MatchRule, cluster: string) {
    ToMatchRule(r.cond) == cond && Names(r.clusters, cluster)
  }

  predicate ConfigGives(config: RouteConfig, cond: MatchRule, cluster: string) {
    exists r <- config.routes :: RouteGives(r, cond, cluster)
  }

  lemma {:induction false} AddRuleTargets(rules: seq<RouteRule>, cond: MatchRule, clusters: seq<WeightedCluster>,
                                          cond': MatchRule, cluster: string)
    ensures HasTarget(AddRule(rules, cond, clusters), cond', cluster)
       <==> HasTarget(rules, cond', cluster) || (cond' == cond && Names(clusters, cluster))
  {
    if rules != [] {
      assert rules == [rules[0]] + rules[1..];
      if rules[0].cond != cond {
        AddRuleTargets(rules[1..], cond, clusters, cond', cluster);
      }
    }
  }

  lemma {:induction false} AddRoutesTargets(rules: seq<RouteRule>, routes: seq<Route>, cond: MatchRule, cluster: string)
    ensures HasTarget(AddRoutes(rules, routes), cond, cluster)
       <==> HasTarget(rules, cond, cluster) || exists r <- routes :: RouteGives(r, cond, cluster)
  {
    if routes != [] {
      var n := |routes| - 1;
      assert routes == routes[..n] + [routes[n]];
      AddRoutesTargets(rules, routes[..n], cond, cluster);
      AddRuleTargets(AddRoutes(rules, routes[..n]), ToMatchRule(routes[n].cond), routes[n].clusters, cond, cluster);
      assert RouteGives(routes[n], cond, cluster) <==>
             cond == ToMatchRule(routes[n].cond) && Names(routes[n].clusters, cluster);
    }
  }

  lemma {:induction false} AddConfigsTargets(tm: Match, configs: seq<RouteConfig>, rule: string, cond: MatchRule,
                                             cluster: string)
    ensures HasTarget(RulesAt(AddConfigs(tm, configs), rule), cond, cluster)
       <==> || HasTarget(RulesAt(tm, rule), cond, cluster)
            || exists c <- configs :: c.name == rule && ConfigGives(c, cond, cluster)
  {
    if configs != [] {
      var n := |configs| - 1;
      assert configs == configs[..n] + [configs[n]];
      AddConfigsTargets(tm, configs[..n], rule, cond, cluster);
      AddRoutesTargets(RulesAt(AddConfigs(tm, configs[..n]), configs[n].name), configs[n].routes, cond, cluster);
    }
  }

  lemma {:induction false} AddConfigsHosts(tm: Match, configs: seq<RouteConfig>, host: string)
    ensures var hosts := AddConfigs(tm, configs).hosts;
            && (host in hosts <==> host in tm.hosts || exists c <- configs :: host in c.hostnames)
            && (host in hosts ==> (host in tm.hosts && hosts[host] == tm.hosts[host])
                                  || exists c <- configs :: host in c.hostnames && hosts[host] == c.name)
  {
    if configs != [] {
      var n := |configs| - 1;
      assert configs == configs[..n] + [configs[n]];
      AddConfigsHosts(tm, configs[..n], host);
    }
  }

  /** A route config that HTTP traffic match `m` of key `key` brings in. */
  predicate Brings(policy: MeshPolicy, m: TrafficMatch, key: string, config: RouteConfig)
    requires Parses(m)
  {
    IsHttp(m) && MatchKey(m) == key && config in ConfigsFor(policy, m)
  }

  /** The traffic match brings in a route config of that name with such a route. */
  ghost predicate GivesTarget(policy: MeshPolicy, m: TrafficMatch, key: string, rule: string, cond: MatchRule,
                              cluster: string)
    requires Parses(m)
  {
    exists config :: Brings(policy, m, key, config) && config.name == rule && ConfigGives(config, cond, cluster)
  }

  lemma CompileIntoTargets(before: map<string, Match>, policy: MeshPolicy, m: TrafficMatch, key: string, rule: string,
                           cond: MatchRule, cluster: string)
    requires Parses(m)
    ensures var after := CompileInto(before, policy, m);
            key in after && HasTarget(RulesAt(after[key], rule), cond, cluster) <==>
            || (key in before && HasTarget(RulesAt(before[key], rule), cond, cluster))
            || GivesTarget(policy, m, key, rule, cond, cluster)
  {
    if IsHttp(m) && key == MatchKey(m) {
      var tm, configs := if key in before then before[key] else NewMatch(m), ConfigsFor(policy, m);
      AddConfigsTargets(tm, configs, rule, cond, cluster);
      assert forall config :: config in configs <==> Brings(policy, m, key, config);
    }
  }

  lemma {:induction false} TargetsGiven(policy: MeshPolicy, ms: seq<TrafficMatch>, key: string, rule: string,
                                        cond: MatchRule, cluster: string)
    requires forall m <- ms :: Parses(m)
    ensures key in Compile(policy, ms) && HasTarget(RulesAt(Compile(policy, ms)[key], rule), cond, cluster)
       <==> exists m <- ms :: GivesTarget(policy, m, key, rule, cond, cluster)
    decreases |ms|
  {
    if ms != [] {
      var n := |ms| - 1;
      assert ms == ms[..n] + [ms[n]] && Parses(ms[n]);
      TargetsGiven(policy, ms[..n], key, rule, cond, cluster);
      CompileIntoTargets(Compile(policy, ms[..n]), policy, ms[n], key, rule, cond, cluster);
    }
  }

  /** Meaning of the compiled rules: under a match, a rule routes a condition to a cluster exactly when an
      HTTP traffic match of that key brings in a route config of that name with such a route. */
  lemma CompiledTargets(policy: MeshPolicy, ms: seq<TrafficMatch>, key: string, rule: string, cond: MatchRule,
                        cluster: string)
    requires forall m <- ms :: Parses(m)
    ensures key in Compile(policy, ms) && HasTarget(RulesAt(Compile(policy, ms)[key], rule), cond, cluster)
       <==> exists m <- ms, config ::
            Brings(policy, m, key, config) && config.name == rule && ConfigGives(config, cond, cluster)
  {
    TargetsGiven(policy, ms, key, rule, cond, cluster);
    assert forall m <- ms :: GivesTarget(policy, m, key, rule, cond, cluster) <==>
             exists config ::
               Brings(policy, m, key, config) && config.name == rule && ConfigGives(config, cond, cluster);
  }

  ghost predicate GivesHost(policy: MeshPolicy, m: TrafficMatch, key: string, host: string)
    requires Parses(m)
  {
    exists config :: Brings(policy, m, key, config) && host in config.hostnames
  }

  lemma CompileIntoHosts(before: map<string, Match>, policy: MeshPolicy, m: TrafficMatch, key: string, host: string)
    requires Parses(m)
    ensures var after := CompileInto(before, policy, m);
            key in after && host in after[key].hosts <==>
            (key in before && host in before[key].hosts) || GivesHost(policy, m, key, host)
  {
    if IsHttp(m) && key == MatchKey(m) {
      var tm, configs := if key in before then before[key] else NewMatch(m), ConfigsFor(policy, m);
      AddConfigsHosts(tm, configs, host);
      assert forall config :: config in configs <==> Brings(policy, m, key, config);
    }
  }

  lemma {:induction false} HostsGiven(policy: MeshPolicy, ms: seq<TrafficMatch>, key: string, host: string)
    requires forall m <- ms :: Parses(m)
    ensures key in Compile(policy, ms) && host in Compile(policy, ms)[key].hosts
       <==> exists m <- ms :: GivesHost(policy, m, key, host)
    decreases |ms|
  {
    if ms != [] {
      var n := |ms| - 1;
      assert ms == ms[..n] + [ms[n]] && Parses(ms[n]);
      HostsGiven(policy, ms[..n], key, host);
      CompileIntoHosts(Compile(policy, ms[..n]), policy, ms[n], key, host);
    }
  }

  /** Meaning of the compiled hosts: a host is known under a match exactly when an HTTP traffic match brings
      in a route config for it. */
  lemma CompiledHosts(policy: MeshPolicy, ms: seq<TrafficMatch>, key: string, host: string)
    requires forall m <- ms :: Parses(m)
    ensures key in Compile(policy, ms) && host in Compile(policy, ms)[key].hosts
       <==> exists m <- ms, config :: Brings(policy, m, key, config) && host in config.hostnames
  {
    HostsGiven(policy, ms, key, host);
    assert forall m <- ms :: GivesHost(policy, m, key, host) <==>
             exists config :: Brings(policy, m, key, config) && host in config.hostnames;
  }

  /** And the rule of a known host is the name of such a config. */
  lemma {:induction false} CompiledHostRule(policy: MeshPolicy, ms: seq<TrafficMatch>, key: string, host: string)
    requires (forall m <- ms :: Parses(m)) && key in Compile(policy, ms) && host in Compile(policy, ms)[key].hosts
    ensures exists m <- ms, config ::
              Brings(policy, m, key, config) && host in config.hostnames
                  && Compile(policy, ms)[key].hosts[host] == config.name
  {
    var n := |ms| - 1;
    var m := ms[n];
    assert ms == ms[..n] + [m] && Parses(m);
    var before := Compile(policy, ms[..n]);
    var tm := if MatchKey(m) in before then before[MatchKey(m)] else NewMatch(m);
    if key == MatchKey(m) && IsHttp(m) {
      AddConfigsHosts(tm, ConfigsFor(policy, m), host);
      assert forall config :: config in ConfigsFor(policy, m) ==> Brings(policy, m, key, config);
    }
    if key in before && host in before[key].hosts {
      CompiledHostRule(policy, ms[..n], key, host);
    }
  }

  /** `i` is the first traffic match of that key: its port, and `http` for HTTP and gRPC or else its name. */
  predicate IsFirstOf(ms: seq<TrafficMatch>, key: string, i: nat) {
    && i < |ms| && key == KeyFor(ms[i]) && forall j | 0 <= j < i :: key != KeyFor(ms[j])
  }

  function KeyFor(m: TrafficMatch): string {
    var protocol := Lower(m.protocol);
    Decimal(m.port) + "=" + if protocol == PROTOCOL_HTTP || protocol == PROTOCOL_GRPC then PROTOCOL_HTTP else m.name
  }

  lemma KeysAgree(m: TrafficMatch)
    ensures MatchKey(m) == KeyFor(m)
  {}

  function KeysOf(ms: seq<TrafficMatch>): (r: seq<string>)
    ensures |r| == |ms|
  {
    if ms == [] then [] else KeysOf(ms[..|ms| - 1]) + [MatchKey(ms[|ms| - 1])]
  }

  lemma {:induction false} KeysOfAt(ms: seq<TrafficMatch>, i: nat)
    requires i < |ms|
    ensures KeysOf(ms)[i] == KeyFor(ms[i])
    decreases |ms|
  {
    var n := |ms| - 1;
    if i < n {
      KeysOfAt(ms[..n], i);
    } else {
      KeysAgree(ms[n]);
    }
  }

  lemma CompileIntoKeys(before: map<string, Match>, policy: MeshPolicy, m: TrafficMatch)
    requires Parses(m)
    ensures CompileInto(before, policy, m).Keys == before.Keys + {MatchKey(m)}
  {}

  lemma {:induction false} CompiledKeys(policy: MeshPolicy, ms: seq<TrafficMatch>, key: string)
    requires forall m <- ms :: Parses(m)
    ensures key in Compile(policy, ms).Keys <==> key in KeysOf(ms)
    decreases |ms|
  {
    if ms != [] {
      var n := |ms| - 1;
      CompiledKeys(policy, ms[..n], key);
      assert Parses(ms[n]);
      CompileIntoKeys(Compile(policy, ms[..n]), policy, ms[n]);
    }
  }

  /** Port and protocol of a new match. */
  predicate Heads(m: TrafficMatch, tm: Match) {
    && tm.port == m.port
    && tm.protocol == if Lower(m.protocol) == PROTOCOL_TCP_SERVER_FIRST then PROTOCOL_TCP else Lower(m.protocol)
  }

  lemma CompileIntoHead(before: map<string, Match>, policy: MeshPolicy, m: TrafficMatch, key: string)
    requires Parses(m)
    ensures var after := CompileInto(before, policy, m);
            && (key in before ==> after[key].port == before[key].port && after[key].protocol == before[key].protocol)
            && (key !in before && key == MatchKey(m) ==> Heads(m, after[key]))
  {
    if key == MatchKey(m) {
      CompileMatchHead(if key in before then before[key] else NewMatch(m), policy, m);
    }
  }

  lemma {:induction false} FirstHead(policy: MeshPolicy, ms: seq<TrafficMatch>, key: string) returns (i: nat)
    requires (forall m <- ms :: Parses(m)) && key in Compile(policy, ms).Keys
    ensures i < |ms| && KeysOf(ms)[i] == key && key !in KeysOf(ms)[..i]
    ensures Heads(ms[i], Compile(policy, ms)[key])
    decreases |ms|
  {
    var n := |ms| - 1;
    var before, keys := Compile(policy, ms[..n]), KeysOf(ms[..n]);
    assert Parses(ms[n]) && KeysOf(ms) == keys + [MatchKey(ms[n])];
    CompileIntoHead(before, policy, ms[n], key);
    CompiledKeys(policy, ms[..n], key);
    if key in before.Keys {
      i := FirstHead(policy, ms[..n], key);
      assert KeysOf(ms)[..i] == keys[..i];
    } else {
      i := n;
      CompileIntoKeys(before, policy, ms[n]);
      assert KeysOf(ms)[..i] == keys;
    }
  }

  /** There is one compiled match for each key of a traffic match, with the port and the protocol of the first one. */
  lemma CompiledHead(policy: MeshPolicy, ms: seq<TrafficMatch>, key: string)
    requires forall m <- ms :: Parses(m)
    ensures key in Compile(policy, ms) <==> exists m <- ms :: key == KeyFor(m)
    ensures key in Compile(policy, ms) ==>
              exists i: nat :: IsFirstOf(ms, key, i) && Heads(ms[i], Compile(policy, ms)[key])
  {
    CompiledKeys(policy, ms, key);
    forall i: nat | i < |ms|
      ensures KeysOf(ms)[i] == KeyFor(ms[i])
    {
      KeysOfAt(ms, i);
    }
    if key in Compile(policy, ms) {
      var i := FirstHead(policy, ms, key);
      assert forall j | 0 <= j < i :: KeysOf(ms)[j] in KeysOf(ms)[..i];
      assert IsFirstOf(ms, key, i);
    }
    if m :| m in ms && key == KeyFor(m) {
      var i: nat :| i < |ms| && ms[i] == m;
      assert KeysOf(ms)[i] == key;
    }
  }

  lemma CompileMatchHead(tm: Match, policy: MeshPolicy, m: TrafficMatch)
    requires Parses(m)
    ensures CompileMatch(tm, policy, m).port == tm.port && CompileMatch(tm, policy, m).protocol == tm.protocol
  {
    if IsHttp(m) {
      AddConfigsHead(tm, ConfigsFor(policy, m));
    }
  }

  lemma {:induction false} AddConfigsHead(tm: Match, configs: seq<RouteConfig>)
    ensures AddConfigs(tm, configs).port == tm.port && AddConfigs(tm, configs).protocol == tm.protocol
  {
    if configs != [] {
      AddConfigsHead(tm, configs[..|configs| - 1]);
    }
  }

  // ----- TCP targets and dependencies -----

  predicate HasTcp(tm: Match, cluster: string) {
    tm.tcp.Some? && cluster in tm.tcp.value
  }

  /** A TCP match names the cluster, or the route configs of an HTTPS one do. */
  predicate TcpNames(policy: MeshPolicy, m: TrafficMatch, cluster: string)
    requires Parses(m)
  {
    var protocol := Lower(m.protocol);
    || (protocol in {PROTOCOL_TCP, PROTOCOL_TCP_SERVER_FIRST} && Names(m.clusters, cluster))
    || (protocol == PROTOCOL_HTTPS && Names(ConfigClusters(ConfigsFor(policy, m)), cluster))
  }

  lemma {:induction false} CompiledTcp(policy: MeshPolicy, ms: seq<TrafficMatch>, key: string, cluster: string)
    requires forall m <- ms :: Parses(m)
    ensures key in Compile(policy, ms) && HasTcp(Compile(policy, ms)[key], cluster)
       <==> exists m <- ms :: MatchKey(m) == key && TcpNames(policy, m, cluster)
  {
    if ms != [] {
      var n := |ms| - 1;
      var m := ms[n];
      assert ms == ms[..n] + [m] && Parses(m);
      CompiledTcp(policy, ms[..n], key, cluster);
      var before := Compile(policy, ms[..n]);
      CompileMatchTcp(if MatchKey(m) in before then before[MatchKey(m)] else NewMatch(m), policy, m, cluster);
    }
  }

  lemma CompileMatchTcp(tm: Match, policy: MeshPolicy, m: TrafficMatch, cluster: string)
    requires Parses(m)
    ensures HasTcp(CompileMatch(tm, policy, m), cluster) <==> HasTcp(tm, cluster) || TcpNames(policy, m, cluster)
  {
    if IsHttp(m) {
      AddConfigsKeepTcp(tm, ConfigsFor(policy, m));
    }
  }

  lemma {:induction false} AddConfigsKeepTcp(tm: Match, configs: seq<RouteConfig>)
    ensures AddConfigs(tm, configs).tcp == tm.tcp
  {
    if configs != [] {
      AddConfigsKeepTcp(tm, configs[..|configs| - 1]);
    }
  }

  lemma {:induction false} RouteClustersNames(routes: seq<Route>, cluster: string)
    ensures Names(RouteClusters(routes), cluster) <==> exists r <- routes :: Names(r.clusters, cluster)
  {
    if routes != [] {
      var n := |routes| - 1;
      assert routes == routes[..n] + [routes[n]];
      RouteClustersNames(routes[..n], cluster);
    }
  }

  lemma {:induction false} ConfigClustersNames(configs: seq<RouteConfig>, cluster: string)
    ensures Names(ConfigClusters(configs), cluster)
       <==> exists c <- configs :: Names(RouteClusters(c.routes), cluster)
  {
    if configs != [] {
      var n := |configs| - 1;
      assert configs == configs[..n] + [configs[n]];
      ConfigClustersNames(configs[..n], cluster);
    }
  }

  lemma {:induction false} DependsNames(policy: MeshPolicy, ms: seq<TrafficMatch>, cluster: string)
    requires forall m <- ms :: Parses(m)
    ensures cluster in Depends(policy, ms) <==> exists m <- ms :: Names(Mentions(policy, m), cluster)
  {
    if ms != [] {
      var n := |ms| - 1;
      assert ms == ms[..n] + [ms[n]] && Parses(ms[n]);
      DependsNames(policy, ms[..n], cluster);
    }
  }

  /** Some rule of some traffic match sends traffic to the cluster. */
  ghost predicate Referenced(out: map<string, Match>, cluster: string) {
    exists key <- out ::
      HasTcp(out[key], cluster) || exists rule, cond :: HasTarget(RulesAt(out[key], rule), cond, cluster)
  }

  lemma HttpMentions(policy: MeshPolicy, m: TrafficMatch, cluster: string)
    requires IsHttp(m) && Parses(m)
    ensures Names(Mentions(policy, m), cluster)
       <==> exists config, cond :: Brings(policy, m, MatchKey(m), config) && ConfigGives(config, cond, cluster)
  {
    var configs := ConfigsFor(policy, m);
    ConfigClustersNames(configs, cluster);
    if c :| c in configs && Names(RouteClusters(c.routes), cluster) {
      RouteClustersNames(c.routes, cluster);
      var r :| r in c.routes && Names(r.clusters, cluster);
      assert RouteGives(r, ToMatchRule(r.cond), cluster);
      assert Brings(policy, m, MatchKey(m), c) && ConfigGives(c, ToMatchRule(r.cond), cluster);
    }
    if c, cond :| Brings(policy, m, MatchKey(m), c) && ConfigGives(c, cond, cluster) {
      RouteClustersNames(c.routes, cluster);
    }
  }

  lemma TcpMentions(policy: MeshPolicy, m: TrafficMatch, cluster: string)
    requires Parses(m)
    ensures TcpNames(policy, m, cluster) <==> !IsHttp(m) && Names(Mentions(policy, m), cluster)
  {}

  lemma MentionedIsReferenced(policy: MeshPolicy, ms: seq<TrafficMatch>, m: TrafficMatch, cluster: string)
    requires (forall m <- ms :: Parses(m)) && m in ms && Names(Mentions(policy, m), cluster)
    ensures Referenced(Compile(policy, ms), cluster)
  {
    if IsHttp(m) {
      HttpMentions(policy, m, cluster);
      var config, cond :| Brings(policy, m, MatchKey(m), config) && ConfigGives(config, cond, cluster);
      CompiledTargets(policy, ms, MatchKey(m), config.name, cond, cluster);
      assert HasTarget(RulesAt(Compile(policy, ms)[MatchKey(m)], config.name), cond, cluster);
    } else {
      TcpMentions(policy, m, cluster);
      CompiledTcp(policy, ms, MatchKey(m), cluster);
    }
  }

  lemma ReferencedIsMentioned(policy: MeshPolicy, ms: seq<TrafficMatch>, cluster: string)
    requires (forall m <- ms :: Parses(m)) && Referenced(Compile(policy, ms), cluster)
    ensures exists m <- ms :: Names(Mentions(policy, m), cluster)
  {
    var out := Compile(policy, ms);
    var key :| key in out
        && (HasTcp(out[key], cluster) || exists rule, cond :: HasTarget(RulesAt(out[key], rule), cond, cluster));
    if HasTcp(out[key], cluster) {
      CompiledTcp(policy, ms, key, cluster);
      var m :| m in ms && MatchKey(m) == key && TcpNames(policy, m, cluster);
      TcpMentions(policy, m, cluster);
    } else {
      var rule, cond :| HasTarget(RulesAt(out[key], rule), cond, cluster);
      CompiledTargets(policy, ms, key, rule, cond, cluster);
      var m, config :| m in ms && Brings(policy, m, key, config) && config.name == rule
          && ConfigGives(config, cond, cluster);
      HttpMentions(policy, m, cluster);
    }
  }

  /** The dependencies are exactly the clusters that the rules send traffic to. */
  lemma DependsAreReferenced(policy: MeshPolicy, ms: seq<TrafficMatch>, cluster: string)
    requires forall m <- ms :: Parses(m)
    ensures cluster in Depends(policy, ms) <==> Referenced(Compile(policy, ms), cluster)
  {
    DependsNames(policy, ms, cluster);
    if m :| m in ms && Names(Mentions(policy, m), cluster) {
      MentionedIsReferenced(policy, ms, m, cluster);
    }
    if Referenced(Compile(policy, ms), cluster) {
      ReferencedIsMentioned(policy, ms, cluster);
    }
  }
}
