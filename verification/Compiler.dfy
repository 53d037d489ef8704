/** The compiler from the mesh traffic policy to the proxy's routing configuration, as it updates its objects. */
module Compiler {
  import opened Words
  import opened Text
  import opened Services
  import opened Catalog
  import opened Routing

  // ----- Selecting route configs -----

  method Contains(clusters: seq<WeightedCluster>, c: WeightedCluster) returns (found: bool)
    ensures found <==> c in clusters
  {
    for i := 0 to |clusters|
      invariant c !in clusters[..i]
    {
      if c.name == clusters[i].name && c.weight == clusters[i].weight {
        return true;
      }
    }
    assert clusters[..|clusters|] == clusters;
    return false;
  }

  method ArrayEqual(a: seq<WeightedCluster>, b: seq<WeightedCluster>) returns (equal: bool)
    ensures equal <==> SameClusters(a, b)
  {
    if |a| == |b| {
      for i := 0 to |a|
        invariant forall j | 0 <= j < i :: a[j] in b
      {
        var found := Contains(b, a[i]);
        if !found {
          return false;
        }
      }
      for i := 0 to |b|
        invariant forall j | 0 <= j < i :: b[j] in a
      {
        var found := Contains(a, b[i]);
        if !found {
          return false;
        }
      }
      return true;
    }
    return false;
  }

  method GetOutboundHttpRouteConfigs(routeConfigs: map<U16, seq<RouteConfig>>, port: U16, fqdn: string,
                                     clusters: seq<WeightedCluster>)
      returns (selected: seq<RouteConfig>)
    ensures selected == Selected(ConfigsAt(routeConfigs, port), fqdn, clusters)
  {
    selected := [];
    if port in routeConfigs {
      var configs := routeConfigs[port];
      for i := 0 to |configs|
        invariant selected == Selected(configs[..i], fqdn, clusters)
      {
        assert configs[..i + 1][..i] == configs[..i];
        if configs[i].name == fqdn {
          var routes := configs[i].routes;
          var fits := false;
          for j := 0 to |routes|
            invariant !fits && forall k | 0 <= k < j :: !SameClusters(clusters, routes[k].clusters)
          {
            fits := ArrayEqual(clusters, routes[j].clusters);
            if fits {
              break;
            }
          }
          if fits {
            selected := selected + [configs[i]];
          }
        }
      }
      assert configs[..|configs|] == configs;
    }
  }

  // ----- Traffic match objects -----

  const BLANK := Match(0, "", map[], map[], None)

  class OutboundTrafficMatch {
    var port: U16
    var protocol: string
    var hosts: map<string, string>
    var rules: map<string, seq<RouteRule>>
    var tcp: Option<map<string, U32>>

    ghost function Value(): Match
      reads this
    {
      Match(port, protocol, hosts, rules, tcp)
    }

    constructor ()
      ensures Value() == BLANK
    {
      port, protocol, hosts, rules, tcp := 0, "", map[], map[], None;
    }

    method SetProtocol(p: string)
      modifies this
      ensures var lowered := if Lower(p) == PROTOCOL_TCP_SERVER_FIRST then PROTOCOL_TCP else Lower(p);
              Value() == old(Value()).(protocol := lowered)
    {
      var lowered := Lower(p);
      if PROTOCOL_TCP_SERVER_FIRST == lowered {
        protocol := PROTOCOL_TCP;
      } else {
        protocol := lowered;
      }
    }

    /** Port and protocol of a new traffic match. */
    method Initialise(m: TrafficMatch)
      requires Value() == BLANK
      modifies this
      ensures Value() == NewMatch(m)
    {
      LowerTwice(m.protocol);
      SetProtocol(Lower(m.protocol));
      port := m.port;
    }

    method AddHostnames(names: seq<string>, rule: string)
      modifies this
      ensures Value() == old(Value()).(hosts := AddHosts(old(hosts), names, rule))
    {
      for i := 0 to |names|
        invariant Value() == old(Value()).(hosts := AddHosts(old(hosts), names[..i], rule))
      {
        assert names[..i + 1][..i] == names[..i];
        hosts := hosts[names[i] := rule];
      }
      assert names[..|names|] == names;
    }

    /** Hosts of a route config, then its routes. */
    method AddRouteConfig(config: RouteConfig)
      modifies this
      ensures Value() == AddConfig(old(Value()), config)
    {
      var mine := if config.name in rules then rules[config.name] else [];
      AddHostnames(config.hostnames, config.name);
      mine := AddEachRoute(mine, config.routes);
      rules := rules[config.name := mine];
    }

    method AddTcpClusters(clusters: seq<WeightedCluster>)
      modifies this
      ensures Value() == AddTcp(old(Value()), clusters)
    {
      var targets := if tcp.Some? then tcp.value else map[];
      targets := AddEach(targets, clusters);
      tcp := Some(targets);
    }
  }

  /** A route's condition: an absent path matches everything, and no method or `*` means any method. */
  method NewMatchRule(r: RouteMatch) returns (rule: MatchRule)
    ensures rule == ToMatchRule(r)
  {
    var path := if r.path == "" then REGEX_MATCH_ALL else r.path;
    rule := MatchRule(path, r.kind, r.headers, [], false);
    if r.methods == [] {
      rule := rule.(anyMethod := true);
    } else {
      for i := 0 to |r.methods|
        invariant rule.anyMethod <==> "*" in r.methods[..i]
        invariant var methods := if rule.anyMethod then [] else r.methods[..i];
                  rule == MatchRule(path, r.kind, r.headers, methods, rule.anyMethod)
      {
        if !rule.anyMethod {
          if r.methods[i] == "*" {
            rule := rule.(anyMethod := true, methods := []);
          } else {
            rule := rule.(methods := rule.methods + [r.methods[i]]);
          }
        }
      }
      assert r.methods[..|r.methods|] == r.methods;
    }
  }

  method AddEachRoute(before: seq<RouteRule>, routes: seq<Route>) returns (rules: seq<RouteRule>)
    ensures rules == AddRoutes(before, routes)
  {
    rules := before;
    for i := 0 to |routes|
      invariant rules == AddRoutes(before, routes[..i])
    {
      assert routes[..i + 1][..i] == routes[..i];
      var cond := NewMatchRule(routes[i].cond);
      rules := AddWeightedClusters(rules, cond, routes[i].clusters);
    }
    assert routes[..|routes|] == routes;
  }

  method AddEach(before: map<string, U32>, clusters: seq<WeightedCluster>) returns (targets: map<string, U32>)
    ensures targets == AddTargets(before, clusters)
  {
    targets := before;
    for i := 0 to |clusters|
      invariant targets == AddTargets(before, clusters[..i])
    {
      assert clusters[..i + 1][..i] == clusters[..i];
      targets := targets[clusters[i].name := clusters[i].weight % 0x1_0000_0000];
    }
    assert clusters[..|clusters|] == clusters;
  }

  lemma AddRuleFrom(rules: seq<RouteRule>, i: nat, cond: MatchRule, clusters: seq<WeightedCluster>)
    requires i < |rules|
    ensures rules[..i] + AddRule(rules[i..], cond, clusters) ==
            if rules[i].cond == cond then rules[i := RouteRule(cond, AddTargets(rules[i].targets, clusters))]
            else rules[..i + 1] + AddRule(rules[i + 1..], cond, clusters)
  {
    var rest := rules[i..];
    assert rest[0] == rules[i] && rest[1..] == rules[i + 1..];
  }

  /** `newHTTPServiceRouteRule` finds or appends the rule, and the clusters are added to it. */
  method AddWeightedClusters(rules: seq<RouteRule>, cond: MatchRule, clusters: seq<WeightedCluster>)
      returns (out: seq<RouteRule>)
    ensures out == AddRule(rules, cond, clusters)
  {
    assert rules[..0] + AddRule(rules[0..], cond, clusters) == AddRule(rules, cond, clusters);
    for i := 0 to |rules|
      invariant AddRule(rules, cond, clusters) == rules[..i] + AddRule(rules[i..], cond, clusters)
    {
      AddRuleFrom(rules, i, cond, clusters);
      if rules[i].cond == cond {
        var targets := AddEach(rules[i].targets, clusters);
        return rules[i := RouteRule(cond, targets)];
      }
    }
    var targets := AddEach(map[], clusters);
    out := rules + [RouteRule(cond, targets)];
  }

  // ----- The index of traffic matches -----

  /** A traffic match object as it was entered into both views. */
  datatype Entry<T> = Entry(port: U16, key: string, obj: T)

  /** The name index and the per-port lists after the given entries. */
  ghost function NamedOf<T>(log: seq<Entry<T>>): map<string, T> {
    if log == [] then map[] else var e := log[|log| - 1]; NamedOf(log[..|log| - 1])[e.key := e.obj]
  }

  function ListedAt<T>(lists: map<U16, seq<T>>, port: U16): seq<T> {
    if port in lists then lists[port] else []
  }

  ghost function ListsOf<T>(log: seq<Entry<T>>): map<U16, seq<T>> {
    if log == [] then map[]
    else
      var e, lists := log[|log| - 1], ListsOf(log[..|log| - 1]);
      lists[e.port := ListedAt(lists, e.port) + [e.obj]]
  }

  /** Every entry brought a new name and a new object. */
  ghost predicate EachNew<T>(log: seq<Entry<T>>) {
    log == [] ||
    var e, named := log[|log| - 1], NamedOf(log[..|log| - 1]);
    EachNew(log[..|log| - 1]) && e.key !in named && e.obj !in named.Values
  }

  lemma NamedSnoc<T>(log: seq<Entry<T>>, e: Entry<T>)
    ensures NamedOf(log + [e]) == NamedOf(log)[e.key := e.obj]
    ensures ListsOf(log + [e]) == ListsOf(log)[e.port := ListedAt(ListsOf(log), e.port) + [e.obj]]
    ensures EachNew(log + [e]) <==> EachNew(log) && e.key !in NamedOf(log) && e.obj !in NamedOf(log).Values
  {
    assert (log + [e])[..|log|] == log;
  }

  lemma {:induction false} NamedInjective<T>(log: seq<Entry<T>>)
    requires EachNew(log)
    ensures forall k, l | k in NamedOf(log) && l in NamedOf(log) && k != l :: NamedOf(log)[k] != NamedOf(log)[l]
  {
    if log != [] {
      NamedInjective(log[..|log| - 1]);
    }
  }

  predicate Listed<T(==)>(lists: map<U16, seq<T>>, x: T) {
    exists p <- lists :: x in lists[p]
  }

  lemma ValuesAdd<T>(m: map<string, T>, k: string, v: T)
    requires k !in m
    ensures m[k := v].Values == m.Values + {v}
  {
    assert forall l <- m :: m[k := v][l] == m[l];
    assert m[k := v][k] == v;
  }

  lemma ListedAdd<T>(lists: map<U16, seq<T>>, port: U16, v: T, x: T)
    ensures Listed(lists[port := ListedAt(lists, port) + [v]], x) <==> Listed(lists, x) || x == v
  {
    var after := lists[port := ListedAt(lists, port) + [v]];
    assert v in after[port];
    assert forall p <- lists :: p in after && (x in lists[p] ==> x in after[p]);
  }

  /** Both views of the traffic matches hold the same objects ... */
  lemma {:induction false} SameObjects<T>(log: seq<Entry<T>>, x: T)
    requires EachNew(log)
    ensures x in NamedOf(log).Values <==> Listed(ListsOf(log), x)
  {
    if log != [] {
      var e, init := log[|log| - 1], log[..|log| - 1];
      SameObjects(init, x);
      ValuesAdd(NamedOf(init), e.key, e.obj);
      ListedAdd(ListsOf(init), e.port, e.obj, x);
    }
  }

  /** ... and hold each of them once. */
  lemma {:induction false} EachListedOnce<T>(log: seq<Entry<T>>, p: U16, i: nat, q: U16, j: nat)
    requires EachNew(log)
    requires var lists := ListsOf(log);
             && p in lists && i < |lists[p]| && q in lists && j < |lists[q]| && lists[p][i] == lists[q][j]
    ensures p == q && i == j
  {
    var e, init := log[|log| - 1], log[..|log| - 1];
    var lists, before := ListsOf(log), ListsOf(init);
    assert lists[e.port] == ListedAt(before, e.port) + [e.obj];
    SameObjects(init, e.obj);
    assert forall r, k | r in before && 0 <= k < |before[r]| :: before[r][k] in before[r];
    var pNew, qNew := p == e.port && i == |ListedAt(before, p)|, q == e.port && j == |ListedAt(before, q)|;
    assert !pNew ==> p in before && i < |before[p]| && lists[p][i] == before[p][i];
    assert !qNew ==> q in before && j < |before[q]| && lists[q][j] == before[q][j];
    if !pNew && !qNew {
      EachListedOnce(init, p, i, q, j);
    }
  }

  class OutboundTrafficPolicy {
    /** Traffic matches by name. */
    var named: map<string, OutboundTrafficMatch>
    /** The same objects, listed by port. */
    var matches: map<U16, seq<OutboundTrafficMatch>>

    /** The traffic matches in the order they were made. */
    ghost var log: seq<Entry<OutboundTrafficMatch>>

    ghost function Objects(): set<OutboundTrafficMatch>
      reads this
    {
      set k | k in named :: named[k]
    }

    ghost predicate Valid()
      reads this
    {
      EachNew(log) && named == NamedOf(log) && matches == ListsOf(log)
    }

    /** The traffic matches as values. */
    ghost function Abs(): map<string, Match>
      reads this, Objects()
    {
      map k | k in named :: named[k].Value()
    }

    constructor ()
      ensures Valid() && named == map[] && fresh(Objects())
    {
      named, matches, log := map[], map[], [];
    }

    /** A traffic match of a new name, in both views. */
    method MakeTrafficMatch(port: U16, key: string) returns (tm: OutboundTrafficMatch)
      requires Valid() && key !in named
      modifies this
      ensures Valid() && fresh(tm) && tm.Value() == BLANK && named == old(named)[key := tm]
      ensures matches == old(matches)[port := ListedAt(old(matches), port) + [tm]]
    {
      tm := new OutboundTrafficMatch();
      assert tm !in named.Values;
      NamedSnoc(log, Entry(port, key, tm));
      named := named[key := tm];
      matches := matches[port := ListedAt(matches, port) + [tm]];
      log := log + [Entry(port, key, tm)];
    }

    method NewTrafficMatch(port: U16, name: string) returns (tm: OutboundTrafficMatch, exists_: bool)
      requires Valid()
      modifies this
      ensures Valid() && NamedPort(port, name) in named && tm == named[NamedPort(port, name)]
      ensures exists_ <==> NamedPort(port, name) in old(named)
      ensures exists_ ==> named == old(named) && matches == old(matches) && Abs() == old(Abs())
      ensures !exists_ ==>
                && fresh(tm) && named == old(named)[NamedPort(port, name) := tm]
                && fresh(Objects() - old(Objects())) && Abs() == old(Abs())[NamedPort(port, name) := BLANK]
                && matches == old(matches)[port := ListedAt(old(matches), port) + [tm]]
    {
      var namedPort := NamedPort(port, name);
      if namedPort in named {
        return named[namedPort], true;
      }
      ghost var before := Abs();
      tm := MakeTrafficMatch(port, namedPort);
      UpdatedAt(before, Abs(), namedPort, BLANK);
      exists_ := false;
    }

    /** A new traffic match is given its port and protocol; the others stay as they are. */
    method InitialiseNamed(key: string, m: TrafficMatch)
      requires Valid() && key in named && named[key].Value() == BLANK
      modifies named[key]
      ensures Abs() == old(Abs())[key := NewMatch(m)]
    {
      ghost var before := Abs();
      NamedInjective(log);
      named[key].Initialise(m);
      UpdatedAt(before, Abs(), key, NewMatch(m));
    }

    /** The traffic match for `m`, found by its name or made new. */
    method FindOrMake(m: TrafficMatch) returns (tm: OutboundTrafficMatch)
      requires Valid()
      modifies this
      ensures Valid() && MatchKey(m) in named && named[MatchKey(m)] == tm && fresh(Objects() - old(Objects()))
      ensures var mine := if MatchKey(m) in old(named) then old(Abs())[MatchKey(m)] else NewMatch(m);
              Abs() == old(Abs())[MatchKey(m) := mine]
    {
      ghost var before := Abs();
      var found;
      tm, found := NewTrafficMatch(m.port, MatchName(m));
      if !found {
        assert Abs()[MatchKey(m)] == BLANK;
        InitialiseNamed(MatchKey(m), m);
        UpdatedTwice(before, BLANK, NewMatch(m), MatchKey(m));
      }
    }

    /** Filling the traffic match of one name leaves the others as they are. */
    method FillNamed(key: string, policy: MeshPolicy, m: TrafficMatch, depends: map<string, WeightedCluster>)
        returns (depends': map<string, WeightedCluster>)
      requires Valid() && Parses(m) && key in named && forall n <- depends :: depends[n].name == n
      modifies named[key]
      ensures Abs() == old(Abs())[key := CompileMatch(old(Abs())[key], policy, m)]
      ensures depends' == AddDepends(depends, Mentions(policy, m))
    {
      ghost var before := Abs();
      NamedInjective(log);
      depends' := Fill(named[key], policy, m, depends);
      UpdatedAt(before, Abs(), key, CompileMatch(before[key], policy, m));
    }

    /** One round of the main loop: the traffic match is found or made, and filled according to its protocol. */
    method AddTrafficMatch(policy: MeshPolicy, m: TrafficMatch, depends: map<string, WeightedCluster>)
        returns (depends': map<string, WeightedCluster>)
      requires Valid() && Parses(m) && forall n <- depends :: depends[n].name == n
      modifies this, Objects()
      ensures Valid() && fresh(Objects() - old(Objects()))
      ensures Abs() == CompileInto(old(Abs()), policy, m)
      ensures depends' == AddDepends(depends, Mentions(policy, m))
    {
      ghost var key, before := MatchKey(m), Abs();
      var tm := FindOrMake(m);
      ghost var found := Abs();
      depends' := FillNamed(MatchKey(m), policy, m, depends);
      UpdatedTwice(before, found[key], CompileMatch(found[key], policy, m), key);
    }
  }

  lemma UpdatedTwice(before: map<string, Match>, first: Match, second: Match, key: string)
    ensures before[key := first][key := second] == before[key := second]
  {}

  lemma UpdatedAt(before: map<string, Match>, after: map<string, Match>, key: string, value: Match)
    requires after.Keys == before.Keys + {key} && after[key] == value
    requires forall k <- before | k != key :: after[k] == before[k]
    ensures after == before[key := value]
  {}

  lemma LowerTwice(s: string)
    ensures Lower(Lower(s)) == Lower(s)
  {}

  method AddDependsEach(before: map<string, WeightedCluster>, clusters: seq<WeightedCluster>)
      returns (depends: map<string, WeightedCluster>)
    requires forall n <- before :: before[n].name == n
    ensures depends == AddDepends(before, clusters)
  {
    depends := before;
    for i := 0 to |clusters|
      invariant depends == AddDepends(before, clusters[..i])
    {
      assert clusters[..i + 1][..i] == clusters[..i];
      if clusters[i].name !in depends {
        depends := depends[clusters[i].name := clusters[i]];
      }
    }
    assert clusters[..|clusters|] == clusters;
  }

  method AddRouteConfigs(tm: OutboundTrafficMatch, configs: seq<RouteConfig>)
    modifies tm
    ensures tm.Value() == AddConfigs(old(tm.Value()), configs)
  {
    for i := 0 to |configs|
      invariant tm.Value() == AddConfigs(old(tm.Value()), configs[..i])
    {
      assert configs[..i + 1][..i] == configs[..i];
      tm.AddRouteConfig(configs[i]);
    }
    assert configs[..|configs|] == configs;
  }

  /** The protocol branches: hosts and rules for HTTP, targets for TCP and HTTPS. */
  method Fill(tm: OutboundTrafficMatch, policy: MeshPolicy, m: TrafficMatch, depends: map<string, WeightedCluster>)
      returns (depends': map<string, WeightedCluster>)
    requires Parses(m) && forall n <- depends :: depends[n].name == n
    modifies tm
    ensures tm.Value() == CompileMatch(old(tm.Value()), policy, m)
    ensures depends' == AddDepends(depends, Mentions(policy, m))
  {
    if IsHttp(m) || IsHttps(m) {
      var configs := GetOutboundHttpRouteConfigs(policy.routeConfigs, m.port, UpstreamFqdn(m), m.clusters);
      if configs == [] {
        return depends;
      }
      if IsHttp(m) {
        AddRouteConfigs(tm, configs);
      } else {
        tm.AddTcpClusters(ConfigClusters(configs));
      }
      depends' := AddDependsEach(depends, ConfigClusters(configs));
    } else if IsTcp(m) {
      tm.AddTcpClusters(m.clusters);
      depends' := AddDependsEach(depends, m.clusters);
    } else {
      depends' := depends;
    }
  }

  /** `generatePipyOutboundTrafficRoutePolicy`: no traffic match, no policy; otherwise the compiled matches
      and the clusters they depend on. */
  method GenerateRoutePolicy(policy: MeshPolicy)
      returns (otp: OutboundTrafficPolicy?, depends: map<string, WeightedCluster>)
    requires forall m <- policy.matches :: Parses(m)
    ensures otp == null <==> policy.matches == []
    ensures otp != null ==> fresh(otp) && otp.Valid() && otp.Abs() == Compile(policy, policy.matches)
    ensures depends == Depends(policy, policy.matches)
  {
    depends := map[];
    if policy.matches == [] {
      return null, depends;
    }
    otp := new OutboundTrafficPolicy();
    var out: OutboundTrafficPolicy := otp;
    var ms := policy.matches;
    for i := 0 to |ms|
      invariant out.Valid() && fresh(out) && fresh(out.Objects())
      invariant out.Abs() == Compile(policy, ms[..i])
      invariant depends == Depends(policy, ms[..i])
    {
      CompileSnoc(policy, ms, i);
      depends := out.AddTrafficMatch(policy, ms[i], depends);
    }
    assert ms[..|ms|] == ms;
  }
}
