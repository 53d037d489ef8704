/** What the proxy does with a request: from its head to the rule, the clusters and the endpoints it is sent to. */
module Proxy {
  import opened Words
  import opened Services
  import opened Imports
  import opened Catalog
  import opened Routing
  import opened Meaning
  import opened Balance
  import opened Provider
  import opened Reach
  import Replay

  datatype Head = Head(host: string, method_: string, path: string, headers: map<string, string>)

  /** Whether a regular expression matches a text. */
  type Test = (string, string) -> bool

  const ALL_METHODS := ["GET", "HEAD", "POST", "PUT", "DELETE", "PATCH", "OPTIONS"]

  // ----- The rule of a request -----

  lemma SevenMethods(m: string)
    ensures m in ALL_METHODS <==> m in {"GET", "HEAD", "POST", "PUT", "DELETE", "PATCH", "OPTIONS"}
  {}

  function Allowed(cond: MatchRule): seq<string> {
    if cond.methods == [] then ALL_METHODS else cond.methods
  }

  predicate Admits(rule: RouteRule, head: Head, test: Test) {
    var cond := rule.cond;
    && (match cond.kind
        case PathMatchRegex => test(cond.path, head.path)
        case PathMatchExact => head.path == cond.path
        case PathMatchPrefix => cond.path <= head.path)
    && forall k <- cond.headers :: test(cond.headers[k], if k in head.headers then head.headers[k] else "")
  }

  /** The first rule that allows the method and admits the request. */
  function Select(rules: seq<RouteRule>, head: Head, test: Test): Option<RouteRule> {
    if rules == [] then None
    else if head.method_ in Allowed(rules[0].cond) && Admits(rules[0], head, test) then Some(rules[0])
    else Select(rules[1..], head, test)
  }

  function Find(rules: seq<RouteRule>, head: Head, test: Test): Option<RouteRule> {
    if rules == [] then None else if Admits(rules[0], head, test) then Some(rules[0]) else Find(rules[1..], head, test)
  }

  function Copies(methods: seq<string>, method_: string, rule: RouteRule): (r: seq<RouteRule>)
    ensures (forall x <- r :: x == rule) && (r != [] <==> method_ in methods)
  {
    if methods == [] then []
    else
      var n := |methods| - 1;
      assert methods == methods[..n] + [methods[n]];
      Copies(methods[..n], method_, rule) + if methods[n] == method_ then [rule] else []
  }

  /** The rules under a method in the method table. */
  function Table(rules: seq<RouteRule>, method_: string): seq<RouteRule> {
    if rules == [] then []
    else
      var last := rules[|rules| - 1];
      Table(rules[..|rules| - 1], method_) + Copies(Allowed(last.cond), method_, last)
  }

  function RulesUnder(tree: map<string, seq<RouteRule>>, method_: string): seq<RouteRule> {
    if method_ in tree then tree[method_] else []
  }

  lemma PushOne(before: seq<RouteRule>, after: seq<RouteRule>, methods: seq<string>, j: nat, m: string, rule: RouteRule)
    requires j < |methods|
    requires after == before + Copies(methods[..j], m, rule) + if methods[j] == m then [rule] else []
    ensures after == before + Copies(methods[..j + 1], m, rule)
  {
    assert methods[..j + 1][..j] == methods[..j];
  }

  /** A rule is pushed under each of its methods. */
  lemma PushRound(before: map<string, seq<RouteRule>>, last: map<string, seq<RouteRule>>, methods: seq<string>, j: nat,
                  m: string, rule: RouteRule)
    requires j < |methods| && RulesUnder(last, m) == RulesUnder(before, m) + Copies(methods[..j], m, rule)
    ensures RulesUnder(last[methods[j] := RulesUnder(last, methods[j]) + [rule]], m)
            == RulesUnder(before, m) + Copies(methods[..j + 1], m, rule)
  {
    var tree := last[methods[j] := RulesUnder(last, methods[j]) + [rule]];
    assert RulesUnder(tree, m) == RulesUnder(last, m) + if methods[j] == m then [rule] else [];
    PushOne(RulesUnder(before, m), RulesUnder(tree, m), methods, j, m, rule);
  }

  method Push(before: map<string, seq<RouteRule>>, methods: seq<string>, rule: RouteRule)
      returns (tree: map<string, seq<RouteRule>>)
    ensures forall m :: RulesUnder(tree, m) == RulesUnder(before, m) + Copies(methods, m, rule)
  {
    tree := before;
    for j := 0 to |methods|
      invariant forall m :: RulesUnder(tree, m) == RulesUnder(before, m) + Copies(methods[..j], m, rule)
    {
      ghost var last := tree;
      tree := tree[methods[j] := RulesUnder(tree, methods[j]) + [rule]];
      forall m
        ensures RulesUnder(tree, m) == RulesUnder(before, m) + Copies(methods[..j + 1], m, rule)
      {
        PushRound(before, last, methods, j, m, rule);
      }
    }
    assert methods[..|methods|] == methods;
  }

  /** The method table of a service's rules. */
  method MakeTree(rules: seq<RouteRule>) returns (tree: map<string, seq<RouteRule>>)
    ensures forall m :: RulesUnder(tree, m) == Table(rules, m)
  {
    tree := map[];
    for i := 0 to |rules|
      invariant forall m :: RulesUnder(tree, m) == Table(rules[..i], m)
    {
      assert rules[..i + 1][..i] == rules[..i];
      tree := Push(tree, Allowed(rules[i].cond), rules[i]);
    }
    assert rules[..|rules|] == rules;
  }

  lemma {:induction false} FindAppend(a: seq<RouteRule>, b: seq<RouteRule>, head: Head, test: Test)
    ensures Find(a + b, head, test) == if Find(a, head, test).Some? then Find(a, head, test) else Find(b, head, test)
  {
    if a == [] {
      assert a + b == b;
    } else {
      assert (a + b)[1..] == a[1..] + b;
      FindAppend(a[1..], b, head, test);
    }
  }

  lemma {:induction false} SelectAppend(a: seq<RouteRule>, b: seq<RouteRule>, head: Head, test: Test)
    ensures Select(a + b, head, test)
            == if Select(a, head, test).Some? then Select(a, head, test) else Select(b, head, test)
  {
    if a == [] {
      assert a + b == b;
    } else {
      assert (a + b)[1..] == a[1..] + b;
      SelectAppend(a[1..], b, head, test);
    }
  }

  lemma {:induction false} FindSame(rules: seq<RouteRule>, rule: RouteRule, head: Head, test: Test)
    requires forall x <- rules :: x == rule
    ensures Find(rules, head, test) == if rules != [] && Admits(rule, head, test) then Some(rule) else None
  {
    if rules != [] {
      assert rules[0] in rules && forall x <- rules[1..] :: x in rules;
      FindSame(rules[1..], rule, head, test);
    }
  }

  /** Looking a request up in the method table finds the first rule that allows its method and admits it. */
  lemma {:induction false} FindInTable(rules: seq<RouteRule>, head: Head, test: Test)
    ensures Find(Table(rules, head.method_), head, test) == Select(rules, head, test)
    decreases |rules|
  {
    if rules != [] {
      var n := |rules| - 1;
      var last := rules[n];
      var copies := Copies(Allowed(last.cond), head.method_, last);
      FindInTable(rules[..n], head, test);
      FindAppend(Table(rules[..n], head.method_), copies, head, test);
      FindSame(copies, last, head, test);
      assert rules == rules[..n] + [last];
      SelectAppend(rules[..n], [last], head, test);
      assert Select([last], head, test) == if head.method_ in Allowed(last.cond) && Admits(last, head, test) then
                                             Some(last) else None;
    }
  }

  /** The handler of a service: the method table, and the search in it. */
  method ServiceHandler(rules: seq<RouteRule>, head: Head, test: Test) returns (found: Option<RouteRule>)
    ensures found == Select(rules, head, test)
  {
    var tree := MakeTree(rules);
    FindInTable(rules, head, test);
    var list := RulesUnder(tree, head.method_);
    for i := 0 to |list|
      invariant Find(list, head, test) == Find(list[i..], head, test)
    {
      if Admits(list[i], head, test) {
        return Some(list[i]);
      }
    }
    return None;
  }

  /** The rule that a traffic match has for a request; a host it does not know has no rules. */
  function RuleFor(tm: Match, head: Head, test: Test): Option<RouteRule> {
    if head.host in tm.hosts then Select(RulesAt(tm, tm.hosts[head.host]), head, test) else None
  }

  method PortHandler(tm: Match, head: Head, test: Test) returns (found: Option<RouteRule>)
    ensures found == RuleFor(tm, head, test)
  {
    var rules := [];
    if head.host in tm.hosts {
      if tm.hosts[head.host] in tm.rules {
        rules := tm.rules[tm.hosts[head.host]];
      }
      found := ServiceHandler(rules, head, test);
    } else {
      found := None;
    }
  }

  /** What a compiled route asks of a request: one of its methods, or one of the seven if it names none or `*`; its
      path, or any path if it has none; and all its headers. */
  lemma MatchRuleMeans(route: RouteMatch, targets: map<string, U32>, head: Head, test: Test)
    ensures var rule := RouteRule(ToMatchRule(route), targets);
            Select([rule], head, test).Some? <==>
            && (if route.methods == [] || "*" in route.methods then head.method_ in ALL_METHODS
                else head.method_ in route.methods)
            && (var path := if route.path == "" then REGEX_MATCH_ALL else route.path;
                match route.kind
                case PathMatchRegex => test(path, head.path)
                case PathMatchExact => head.path == path
                case PathMatchPrefix => path <= head.path)
            && forall k <- route.headers :: test(route.headers[k], if k in head.headers then head.headers[k] else "")
  {
    var rule := RouteRule(ToMatchRule(route), targets);
    assert [rule][1..] == [];
  }

  // ----- One rule for each service -----

  /** What a service contributes to the rules of a key and name: its weighted cluster, if it is an HTTP service. */
  function Contribution(cache: Cache, s: MeshService, key: string, rule: string): Option<WeightedCluster> {
    if HttpService(s) && key == HttpKey(s) && rule == Fqdn(s) then Some(ClusterOf(cache, s)) else None
  }

  function Contributions(cache: Cache, services: seq<MeshService>, key: string,
                         rule: string): (r: seq<Option<WeightedCluster>>)
    ensures |r| == |services|
  {
    seq(|services|, i requires 0 <= i < |services| => Contribution(cache, services[i], key, rule))
  }

  /** The contributed clusters; of several contributions of one cluster the last decides the weight. */
  function Gathered(parts: seq<Option<WeightedCluster>>): map<string, U32> {
    if parts == [] then map[]
    else
      var before, last := Gathered(parts[..|parts| - 1]), parts[|parts| - 1];
      if last.Some? then before[last.value.name := last.value.weight % 0x1_0000_0000] else before
  }

  predicate IsOf(part: Option<WeightedCluster>, cluster: string) {
    part.Some? && part.value.name == cluster
  }

  predicate IsLastOf(parts: seq<Option<WeightedCluster>>, cluster: string, i: nat) {
    i < |parts| && IsOf(parts[i], cluster) && forall j | i < j < |parts| :: !IsOf(parts[j], cluster)
  }

  lemma {:induction false} GatheredHas(parts: seq<Option<WeightedCluster>>, cluster: string)
    ensures cluster in Gathered(parts) <==> exists i | 0 <= i < |parts| :: IsOf(parts[i], cluster)
    decreases |parts|
  {
    if parts != [] {
      var n := |parts| - 1;
      GatheredHas(parts[..n], cluster);
      assert forall i | 0 <= i < n :: parts[..n][i] == parts[i];
    }
  }

  lemma {:induction false} GatheredWeight(parts: seq<Option<WeightedCluster>>, cluster: string, i: nat)
    requires IsLastOf(parts, cluster, i)
    ensures cluster in Gathered(parts) && Gathered(parts)[cluster] == parts[i].value.weight % 0x1_0000_0000
    decreases |parts|
  {
    var n := |parts| - 1;
    if i < n {
      assert !IsOf(parts[n], cluster);
      GatheredWeight(parts[..n], cluster, i);
    }
  }

  /** One wildcard rule with these targets, or none if there are none. */
  function Ruled(targets: map<string, U32>): seq<RouteRule> {
    if targets == map[] then [] else [RouteRule(WILDCARD_RULE, targets)]
  }

  lemma AddOwn(targets: map<string, U32>, wc: WeightedCluster)
    ensures AddRoutes(Ruled(targets), [Route(WILDCARD_ROUTE_MATCH, [wc])])
            == Ruled(targets[wc.name := wc.weight % 0x1_0000_0000])
  {
    var route := Route(WILDCARD_ROUTE_MATCH, [wc]);
    var after := targets[wc.name := wc.weight % 0x1_0000_0000];
    assert [route][..0] == [] && [wc][..0] == [];
    assert "*" in WILDCARD_ROUTE_MATCH.methods;
    assert ToMatchRule(WILDCARD_ROUTE_MATCH) == WILDCARD_RULE;
    assert AddTargets(targets, [wc]) == after && wc.name in after;
    if targets != map[] {
      assert Ruled(targets)[1..] == [];
    }
  }

  /** Configs that leave their own rules as they are from the second time on. */
  lemma {:induction false} AddConfigsFixed(tm: Match, configs: seq<RouteConfig>, config: RouteConfig,
                                           fixed: seq<RouteRule>)
    requires configs != [] && forall i | 0 <= i < |configs| :: configs[i] == config
    requires AddRoutes(RulesAt(tm, config.name), config.routes) == AddRoutes(fixed, config.routes) == fixed
    ensures RulesAt(AddConfigs(tm, configs), config.name) == fixed
    decreases |configs|
  {
    var n := |configs| - 1;
    if n > 0 {
      AddConfigsFixed(tm, configs[..n], config, fixed);
    } else {
      assert configs[..n] == [];
    }
  }

  lemma AddConfigsRuled(tm: Match, configs: seq<RouteConfig>, config: RouteConfig, wc: WeightedCluster,
                        targets: map<string, U32>)
    requires configs != [] && forall i | 0 <= i < |configs| :: configs[i] == config
    requires config.routes == [Route(WILDCARD_ROUTE_MATCH, [wc])] && RulesAt(tm, config.name) == Ruled(targets)
    ensures RulesAt(AddConfigs(tm, configs), config.name) == Ruled(targets[wc.name := wc.weight % 0x1_0000_0000])
  {
    var after := targets[wc.name := wc.weight % 0x1_0000_0000];
    AddOwn(targets, wc);
    AddOwn(after, wc);
    assert after[wc.name := wc.weight % 0x1_0000_0000] == after;
    AddConfigsFixed(tm, configs, config, Ruled(after));
  }

  function RulesIn(out: map<string, Match>, key: string, rule: string): seq<RouteRule> {
    if key in out then RulesAt(out[key], rule) else []
  }

  lemma BroughtConfigs(cache: Cache, trustDomain: string, services: seq<MeshService>, s: MeshService)
    requires (forall t <- services :: PlainService(t)) && s in services && HttpService(s)
    ensures Parses(MatchOf(cache, s)) && IsHttp(MatchOf(cache, s)) && MatchKey(MatchOf(cache, s)) == HttpKey(s)
    ensures var configs := ConfigsFor(PolicyOf(cache, trustDomain, services), MatchOf(cache, s));
            configs != [] && forall i | 0 <= i < |configs| :: configs[i] == RouteConfigOf(cache, trustDomain, s)
  {
    var policy, m := PolicyOf(cache, trustDomain, services), MatchOf(cache, s);
    ServiceBrings(cache, trustDomain, services, s, HttpKey(s), RouteConfigOf(cache, trustDomain, s));
    var configs := ConfigsFor(policy, m);
    assert Brings(policy, m, HttpKey(s), RouteConfigOf(cache, trustDomain, s));
    forall i | 0 <= i < |configs|
      ensures configs[i] == RouteConfigOf(cache, trustDomain, s)
    {
      assert configs[i] in configs && Brings(policy, m, HttpKey(s), configs[i]);
      ServiceBrings(cache, trustDomain, services, s, HttpKey(s), configs[i]);
    }
  }

  /** What compiling the traffic match of a service does to the rules. */
  lemma CompileIntoRuled(before: map<string, Match>, cache: Cache, trustDomain: string, services: seq<MeshService>,
                         s: MeshService, key: string, rule: string, parts: seq<Option<WeightedCluster>>)
    requires (forall t <- services :: PlainService(t)) && s in services && Parses(MatchOf(cache, s))
    requires RulesIn(before, key, rule) == Ruled(Gathered(parts))
    ensures RulesIn(CompileInto(before, PolicyOf(cache, trustDomain, services), MatchOf(cache, s)), key, rule)
            == Ruled(Gathered(parts + [Contribution(cache, s, key, rule)]))
  {
    var policy, m := PolicyOf(cache, trustDomain, services), MatchOf(cache, s);
    assert (parts + [Contribution(cache, s, key, rule)])[..|parts|] == parts;
    if HttpService(s) && key == HttpKey(s) {
      var tm := if key in before then before[key] else NewMatch(m);
      var configs, config := ConfigsFor(policy, m), RouteConfigOf(cache, trustDomain, s);
      BroughtConfigs(cache, trustDomain, services, s);
      OwnParts(cache, trustDomain, s);
      if rule == Fqdn(s) {
        AddConfigsRuled(tm, configs, config, ClusterOf(cache, s), Gathered(parts));
      } else {
        OtherRules(tm, configs, Fqdn(s), rule);
      }
    }
  }

  lemma {:induction false} OtherRules(tm: Match, configs: seq<RouteConfig>, name: string, rule: string)
    requires rule != name && forall i | 0 <= i < |configs| :: configs[i].name == name
    ensures RulesAt(AddConfigs(tm, configs), rule) == RulesAt(tm, rule)
    decreases |configs|
  {
    if configs != [] {
      OtherRules(tm, configs[..|configs| - 1], name, rule);
    }
  }

  lemma PartsSnoc(cache: Cache, services: seq<MeshService>, key: string, rule: string, k: nat)
    requires k < |services|
    ensures var parts := Contributions(cache, services, key, rule);
            parts[..k + 1] == parts[..k] + [Contribution(cache, services[k], key, rule)]
  {}

  lemma {:induction false} RulesSoFar(cache: Cache, trustDomain: string, services: seq<MeshService>, policy: MeshPolicy,
                                      k: nat, key: string, rule: string)
    requires (forall t <- services :: PlainService(t)) && k <= |services| == |policy.matches|
    requires policy == PolicyOf(cache, trustDomain, services) && forall m <- policy.matches :: Parses(m)
    requires forall i | 0 <= i < |services| :: policy.matches[i] == MatchOf(cache, services[i])
    ensures RulesIn(Compile(policy, policy.matches[..k]), key, rule)
            == Ruled(Gathered(Contributions(cache, services, key, rule)[..k]))
    decreases k
  {
    var parts := Contributions(cache, services, key, rule);
    if k > 0 {
      var ms, s := policy.matches, services[k - 1];
      RulesSoFar(cache, trustDomain, services, policy, k - 1, key, rule);
      CompileSnoc(policy, ms, k - 1);
      PartsSnoc(cache, services, key, rule, k - 1);
      CompileIntoRuled(Compile(policy, ms[..k - 1]), cache, trustDomain, services, s, key, rule, parts[..k - 1]);
    }
  }

  /** The rules of a name are one wildcard with the clusters, and the weights, of the HTTP services of that name. */
  lemma RulesExactly(cache: Cache, trustDomain: string, services: seq<MeshService>, key: string, rule: string)
    requires forall s <- services :: PlainService(s)
    ensures RulesIn(Config(cache, trustDomain, services), key, rule)
            == Ruled(Gathered(Contributions(cache, services, key, rule)))
  {
    ConfigParses(cache, trustDomain, services);
    PolicyMatches(cache, trustDomain, services);
    var policy, parts := PolicyOf(cache, trustDomain, services), Contributions(cache, services, key, rule);
    RulesSoFar(cache, trustDomain, services, policy, |services|, key, rule);
    assert policy.matches[..|services|] == policy.matches && parts[..|services|] == parts;
  }

  // ----- What a request's rule is -----

  /** An HTTP service of the port with that hostname. */
  predicate ServesHost(s: MeshService, trustDomain: string, key: string, host: string) {
    HttpService(s) && key == HttpKey(s) && host in Hostnames(s, trustDomain)
  }

  lemma OneWildcard(cache: Cache, trustDomain: string, services: seq<MeshService>, s: MeshService)
      returns (rule: RouteRule)
    requires (forall t <- services :: PlainService(t)) && s in services && HttpService(s)
    ensures var out := Config(cache, trustDomain, services);
            HttpKey(s) in out && RulesAt(out[HttpKey(s)], Fqdn(s)) == [rule]
    ensures rule == RouteRule(WILDCARD_RULE, Gathered(Contributions(cache, services, HttpKey(s), Fqdn(s))))
  {
    var parts := Contributions(cache, services, HttpKey(s), Fqdn(s));
    RulesExactly(cache, trustDomain, services, HttpKey(s), Fqdn(s));
    var i :| 0 <= i < |services| && services[i] == s;
    assert IsOf(parts[i], ClusterName(s));
    GatheredHas(parts, ClusterName(s));
    rule := RouteRule(WILDCARD_RULE, Gathered(parts));
  }

  /** The last service of the cluster among those with the hostname. */
  predicate IsLastServing(services: seq<MeshService>, trustDomain: string, key: string, host: string, cluster: string,
                          i: nat) {
    && i < |services| && ServesHost(services[i], trustDomain, key, host) && ClusterName(services[i]) == cluster
    && forall j | i < j < |services| ::
         !(ServesHost(services[j], trustDomain, key, host) && ClusterName(services[j]) == cluster)
  }

  lemma SameServers(cache: Cache, s: MeshService, t: MeshService, trustDomain: string, host: string, n: string)
    requires PlainService(s) && PlainService(t) && HttpService(s) && host in Hostnames(s, trustDomain)
    ensures IsOf(Contribution(cache, t, HttpKey(s), Fqdn(s)), n) <==>
            ServesHost(t, trustDomain, HttpKey(s), host) && n == ClusterName(t)
  {
    if IsOf(Contribution(cache, t, HttpKey(s), Fqdn(s)), n) {
      FqdnInjective(s, t);
      NamedPortInjective(s.port, t.port, PROTOCOL_HTTP, PROTOCOL_HTTP);
      SameHosts(s, t, trustDomain);
    }
    if ServesHost(t, trustDomain, HttpKey(s), host) {
      HostnameOwner(s, t, trustDomain, host);
    }
  }

  /** The gathered clusters are those of the services with the hostname. */
  lemma GatheredServe(cache: Cache, trustDomain: string, services: seq<MeshService>, s: MeshService, host: string,
                      n: string)
    requires (forall t <- services :: PlainService(t)) && HttpService(s) && host in Hostnames(s, trustDomain)
    requires PlainService(s)
    ensures var targets := Gathered(Contributions(cache, services, HttpKey(s), Fqdn(s)));
            && (n in targets <==>
                exists t <- services :: ServesHost(t, trustDomain, HttpKey(s), host) && n == ClusterName(t))
            && forall i: nat | IsLastServing(services, trustDomain, HttpKey(s), host, n, i) ::
                 n in targets && targets[n] == ClusterWeight(cache, services[i]) % 0x1_0000_0000
  {
    var parts := Contributions(cache, services, HttpKey(s), Fqdn(s));
    forall i | 0 <= i < |services|
      ensures IsOf(parts[i], n) <==>
              ServesHost(services[i], trustDomain, HttpKey(s), host) && n == ClusterName(services[i])
    {
      SameServers(cache, s, services[i], trustDomain, host, n);
    }
    GatheredHas(parts, n);
    forall i: nat | IsLastServing(services, trustDomain, HttpKey(s), host, n, i)
      ensures n in Gathered(parts) && Gathered(parts)[n] == ClusterWeight(cache, services[i]) % 0x1_0000_0000
    {
      GatheredWeight(parts, n, i);
    }
  }

  lemma RuleOf(cache: Cache, trustDomain: string, services: seq<MeshService>, s: MeshService, head: Head, test: Test)
    requires (forall t <- services :: PlainService(t)) && s in services && forall text :: test(REGEX_MATCH_ALL, text)
    requires HttpService(s) && head.host in Hostnames(s, trustDomain)
    ensures HttpKey(s) in Config(cache, trustDomain, services)
    ensures RuleFor(Config(cache, trustDomain, services)[HttpKey(s)], head, test) ==
            if head.method_ in ALL_METHODS then
              Some(RouteRule(WILDCARD_RULE, Gathered(Contributions(cache, services, HttpKey(s), Fqdn(s)))))
            else None
  {
    HostsMeanServices(cache, trustDomain, services, HttpKey(s), head.host);
    var rule := OneWildcard(cache, trustDomain, services, s);
    assert Select([rule], head, test) == if head.method_ in ALL_METHODS then Some(rule) else None;
  }

  /** The targets are the clusters of the services with that hostname, each with the weight of its last service. */
  ghost predicate TargetsServe(cache: Cache, trustDomain: string, services: seq<MeshService>, key: string, host: string,
                               targets: map<string, U32>) {
    && (forall n :: n in targets <==>
                    exists t <- services :: ServesHost(t, trustDomain, key, host) && n == ClusterName(t))
    && forall n, i: nat | IsLastServing(services, trustDomain, key, host, n, i) ::
         n in targets && targets[n] == ClusterWeight(cache, services[i]) % 0x1_0000_0000
  }

  /** Route selection: on the HTTP match of a port a request has a rule exactly when it asks, with one of the seven
      methods, for a hostname of an HTTP service there, whatever its path and headers; and the rule's targets are
      exactly the clusters of the services with that hostname, each with the weight of its last service. Other
      methods, such as TRACE, never have a rule, although every route allows any method. */
  lemma RuleExactly(cache: Cache, trustDomain: string, services: seq<MeshService>, key: string, head: Head, test: Test)
    requires (forall s <- services :: PlainService(s)) && key in Config(cache, trustDomain, services)
    requires forall text :: test(REGEX_MATCH_ALL, text)
    ensures var rule := RuleFor(Config(cache, trustDomain, services)[key], head, test);
            && (rule.Some? <==>
                head.method_ in ALL_METHODS && exists s <- services :: ServesHost(s, trustDomain, key, head.host))
            && (rule.Some? ==>
                TargetsServe(cache, trustDomain, services, key, head.host, rule.value.targets))
  {
    HostsMeanServices(cache, trustDomain, services, key, head.host);
    if s :| s in services && ServesHost(s, trustDomain, key, head.host) {
      RuleOf(cache, trustDomain, services, s, head, test);
      forall n
        ensures var targets := Gathered(Contributions(cache, services, key, Fqdn(s)));
                && (n in targets <==>
                    exists t <- services :: ServesHost(t, trustDomain, key, head.host) && n == ClusterName(t))
                && forall i: nat | IsLastServing(services, trustDomain, key, head.host, n, i) ::
                     n in targets && targets[n] == ClusterWeight(cache, services[i]) % 0x1_0000_0000
      {
        GatheredServe(cache, trustDomain, services, s, head.host, n);
      }
    }
  }

  // ----- What the balancers may pick -----

  /** A round-robin balancer returns a target of positive weight if there is one, and never anything else than one of
      its targets. */
  ghost predicate Picks(weights: map<string, U32>, pick: Option<string>) {
    && (pick.Some? ==> pick.value in weights)
    && ((exists n <- weights :: weights[n] > 0) ==> pick.Some? && weights[pick.value] > 0)
  }

  /** The failover balancer is made of the targets of weight zero. */
  ghost predicate Spares(weights: map<string, U32>, pick: Option<string>) {
    && (pick.Some? <==> exists n <- weights :: weights[n] == 0)
    && (pick.Some? ==> pick.value in weights && weights[pick.value] == 0)
  }

  function Weights(eps: Endpoints): map<string, U32> {
    map k <- eps :: eps[k].weight
  }

  function EndpointAt(eps: Endpoints, pick: Option<string>): Option<Replay.Endpoint> {
    if pick.Some? && pick.value in eps then Some(Replay.Endpoint(pick.value, eps[pick.value].path)) else None
  }

  /** What the balancers of a generated cluster may give for a request. It has no retry policy. */
  ghost predicate MayGive(eps: Endpoints, c: Replay.Cluster) {
    c.numRetries == 0 && exists pick, spare ::
      Picks(Weights(eps), pick) && Spares(Weights(eps), spare)
      && c.target == EndpointAt(eps, pick) && c.failover == EndpointAt(eps, spare)
  }

  ghost predicate IsClusterOf(clusters: map<string, Endpoints>, name: Option<string>, c: Option<Replay.Cluster>) {
    if name.Some? && name.value in clusters then c.Some? && MayGive(clusters[name.value], c.value) else c.None?
  }

  /** What a rule may give for a request: a cluster, and one to fail over to. */
  ghost predicate MayRoute(rule: RouteRule, clusters: map<string, Endpoints>, route: Replay.Route) {
    exists pick, spare ::
      Picks(rule.targets, pick) && Spares(rule.targets, spare)
      && IsClusterOf(clusters, pick, route.cluster) && IsClusterOf(clusters, spare, route.failover)
  }

  /** The clusters as the control plane publishes them. */
  function RebalancedAll(clusters: map<string, Endpoints>): map<string, Endpoints> {
    map n <- clusters :: Rebalanced(clusters[n])
  }

  // ----- Where a request goes -----

  /** An endpoint of a cluster that the rule targets. */
  ghost predicate Targets(rule: RouteRule, clusters: map<string, Endpoints>, t: Replay.Endpoint) {
    exists n <- rule.targets ::
      n in clusters && t.id in clusters[n] && t.prefix == clusters[n][t.id].path
  }

  lemma ClusterTargets(rule: RouteRule, clusters: map<string, Endpoints>, name: Option<string>,
                       c: Option<Replay.Cluster>)
    requires IsClusterOf(clusters, name, c) && (name.Some? ==> name.value in rule.targets)
    ensures c.Some? && c.value.target.Some? ==> Targets(rule, clusters, c.value.target.value)
    ensures c.Some? && c.value.failover.Some? ==> Targets(rule, clusters, c.value.failover.value)
  {}

  /** Every attempt at a request, over retries, spare endpoints and the failover cluster, goes to an endpoint of a
      cluster its rule targets, if it goes anywhere. */
  lemma AttemptsAreTargets(rule: RouteRule, clusters: map<string, Endpoints>, route: Replay.Route,
                           run1: seq<Replay.Attempt>, run2: seq<Replay.Attempt>, path: string, anew: bool,
                           reply: Replay.Replies)
    requires MayRoute(rule, clusters, route) && Replay.Served(run1, run2, route, path, anew, reply)
    ensures forall a <- run1 + run2 :: a.target.Some? ==> Targets(rule, clusters, a.target.value)
  {
    var pick, spare :| Picks(rule.targets, pick) && Spares(rule.targets, spare)
        && IsClusterOf(clusters, pick, route.cluster) && IsClusterOf(clusters, spare, route.failover);
    ClusterTargets(rule, clusters, pick, route.cluster);
    ClusterTargets(rule, clusters, spare, route.failover);
    PassTargets(run1, route.cluster, Replay.FirstTarget(route), Replay.Spare(route.cluster, None), 0);
    if run2 != [] {
      PassTargets(run2, route.failover, route.failover.value.target, Replay.SecondSpare(route, anew, |run1|),
                  Replay.SecondUsed(route, anew, |run1|));
    }
  }

  lemma PassTargets(run: seq<Replay.Attempt>, c: Option<Replay.Cluster>, target: Option<Replay.Endpoint>,
                    spare: Option<Replay.Endpoint>, used: nat)
    requires Replay.Pass(run, c, target, spare, used)
    ensures forall a <- run :: a.target == target || a.target == spare
  {}

  /** The address of an imported endpoint that fits a service with that hostname. */
  ghost predicate BelongsTo(cache: Cache, trustDomain: string, imports: seq<ServiceImport>, services: seq<MeshService>,
                            validIp: string -> bool, key: string, host: string, address: string) {
    exists s <- services, imported <- imports ::
      && ServesHost(s, trustDomain, key, host) && Comes(cache, imported, s) && FirstOpen(imported.ports).Some?
      && exists e <- FirstOpen(imported.ports).value.endpoints ::
           IsReached(cache, services, imported, s, validIp, e, address)
  }

  lemma AddressBelongs(cache: Cache, trustDomain: string, imports: seq<ServiceImport>, services: seq<MeshService>,
                       balanced: map<string, Endpoints>, validIp: string -> bool, key: string, host: string,
                       s: MeshService, address: string)
    requires Keyed(cache) && (forall imported <- imports :: Held(cache, imported))
    requires services == AllMeshServices(cache, OfImports(cache, imports)) && forall t <- services :: PlainService(t)
    requires IsBalancedMesh(cache, trustDomain, services, balanced, validIp)
    requires s in services && ServesHost(s, trustDomain, key, host)
    requires ClusterName(s) in balanced && address in balanced[ClusterName(s)]
    ensures BelongsTo(cache, trustDomain, imports, services, validIp, key, host, address)
  {
    ListedExactly(cache, imports, s);
    var imported :| imported in imports && Comes(cache, imported, s);
    RequestReaches(cache, trustDomain, services, balanced, imported, s, host, validIp, address);
  }

  /** From a request to addresses: every attempt at a request for `head.host` goes to an imported endpoint that fits a
      service of that hostname. */
  lemma RequestGoesToItsService(cache: Cache, trustDomain: string, imports: seq<ServiceImport>,
                                services: seq<MeshService>, balanced: map<string, Endpoints>, validIp: string -> bool,
                                key: string, head: Head, test: Test, rule: RouteRule, route: Replay.Route,
                                run1: seq<Replay.Attempt>, run2: seq<Replay.Attempt>, anew: bool,
                                reply: Replay.Replies, a: Replay.Attempt)
    requires Keyed(cache) && (forall imported <- imports :: Held(cache, imported))
    requires services == AllMeshServices(cache, OfImports(cache, imports)) && forall s <- services :: PlainService(s)
    requires IsBalancedMesh(cache, trustDomain, services, balanced, validIp)
    requires key in Config(cache, trustDomain, services) && forall text :: test(REGEX_MATCH_ALL, text)
    requires RuleFor(Config(cache, trustDomain, services)[key], head, test) == Some(rule)
    requires MayRoute(rule, RebalancedAll(balanced), route)
    requires Replay.Served(run1, run2, route, head.path, anew, reply) && a in run1 + run2 && a.target.Some?
    ensures BelongsTo(cache, trustDomain, imports, services, validIp, key, head.host, a.target.value.id)
  {
    var address := a.target.value.id;
    AttemptsAreTargets(rule, RebalancedAll(balanced), route, run1, run2, head.path, anew, reply);
    var n :| n in rule.targets && n in balanced && address in Rebalanced(balanced[n]);
    RuleExactly(cache, trustDomain, services, key, head, test);
    var s :| s in services && ServesHost(s, trustDomain, key, head.host) && n == ClusterName(s);
    AddressBelongs(cache, trustDomain, imports, services, balanced, validIp, key, head.host, s, address);
  }

  /** And a pass over a cluster of which some endpoint can serve does go somewhere. */
  lemma ServesIfItCan(balanced: map<string, Endpoints>, name: string, c: Replay.Cluster)
    requires name in balanced && MayGive(RebalancedAll(balanced)[name], c)
    ensures (exists k <- balanced[name] :: CanServe(balanced[name][k])) ==> c.target.Some?
  {
    var eps := Rebalanced(balanced[name]);
    RebalanceServes(balanced[name]);
    if k :| k in eps && eps[k].weight > 0 {
      assert Weights(eps)[k] > 0;
    }
  }
}
