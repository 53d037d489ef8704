/** Mesh services and the names derived from them: cluster names, traffic match names, hostnames. */
module Services {
  import opened Words
  import opened Text

  datatype MeshService = MeshService(ns: string, name: string, port: U16, targetPort: U16, protocol: string,
                                     importUid: string)

  function ProviderKey(svc: MeshService): string {
    var parts := Split(svc.name, '.');
    parts[|parts| - 1]
  }

  function Subdomain(svc: MeshService): string {
    var parts := Split(svc.name, '.');
    if |parts| == 1 then "" else parts[0]
  }

  function NamespacedKey(svc: MeshService): string {
    svc.ns + "/" + ProviderKey(svc)
  }

  /** A name without a dot is its own key and has no subdomain; of a dotted one the last component is the key, and the
      first the subdomain. */
  lemma SubdomainExactly(svc: MeshService, first: string, middle: string, last: string)
    requires '.' !in first && '.' !in last
    ensures svc.name == last ==> NamespacedKey(svc) == svc.ns + "/" + last && Subdomain(svc) == ""
    ensures svc.name == first + "." + last || svc.name == first + "." + middle + "." + last ==>
              NamespacedKey(svc) == svc.ns + "/" + last && Subdomain(svc) == first
  {
    SplitLast(last, '.');
    SplitCons(first, '.', last);
    if svc.name == first + "." + middle + "." + last {
      assert svc.name == first + ['.'] + (middle + "." + last);
      SplitCons(first, '.', middle + "." + last);
      LastOfSplit(middle, '.', last);
    }
  }

  lemma {:induction false} LastOfSplit(s: string, sep: char, last: string)
    requires sep !in last
    ensures var pieces := Split(s + [sep] + last, sep); |pieces| > 1 && pieces[|pieces| - 1] == last
    decreases |s|
  {
    var n := TokenLength(s, {sep});
    if n == |s| {
      SplitCons(s, sep, last);
      SplitLast(last, sep);
    } else {
      assert s + [sep] + last == s[..n] + [sep] + (s[n + 1..] + [sep] + last);
      SplitCons(s[..n], sep, s[n + 1..] + [sep] + last);
      LastOfSplit(s[n + 1..], sep, last);
    }
  }

  function ClusterName(svc: MeshService): string {
    svc.ns + "/" + svc.name + "|" + Decimal(svc.targetPort)
  }

  function Fqdn(svc: MeshService): string {
    svc.name + "." + svc.ns + ".svc.cluster.local"
  }

  function OutboundTrafficMatchName(svc: MeshService): string {
    "outbound_" + (svc.ns + "/" + svc.name) + "_" + Decimal(svc.port) + "_" + svc.protocol
  }

  // ----- Cluster names -----

  /** Namespace, name and target port of a cluster name (`clusterToMeshSvc`). */
  function ClusterToMeshSvc(cluster: string): Option<(string, string, U16)> {
    var chunks := Fields(cluster, {'/', '|'});
    if |chunks| != 3 then None
    else match ParseUint(chunks[2], 0xffff)
      case Uint(port) => Some((chunks[0], chunks[1], port))
      case _ => None
  }

  predicate ClusterSafe(s: string) {
    s != "" && Free(s, {'/', '|'})
  }

  lemma ClusterNameFields(svc: MeshService)
    requires ClusterSafe(svc.ns) && ClusterSafe(svc.name)
    ensures Fields(ClusterName(svc), {'/', '|'}) == [svc.ns, svc.name, Decimal(svc.targetPort)]
  {
    var seps := {'/', '|'};
    var port := Decimal(svc.targetPort);
    DecimalFree(svc.targetPort, seps);
    FieldsLast(port, seps);
    FieldsCons(svc.name, '|', port, seps);
    FieldsCons(svc.ns, '/', svc.name + ['|'] + port, seps);
    assert ClusterName(svc) == svc.ns + ['/'] + (svc.name + ['|'] + port);
  }

  /** A cluster name parses back to what it was printed from exactly when both names are non-empty and
      free of the two separators. */
  lemma ClusterNameRoundTrip(svc: MeshService)
    ensures ClusterToMeshSvc(ClusterName(svc)) == Some((svc.ns, svc.name, svc.targetPort))
       <==> ClusterSafe(svc.ns) && ClusterSafe(svc.name)
  {
    FieldsAreTokens(ClusterName(svc), {'/', '|'});
    var chunks := Fields(ClusterName(svc), {'/', '|'});
    assert |chunks| == 3 ==> chunks[0] in chunks && chunks[1] in chunks;
    if ClusterSafe(svc.ns) && ClusterSafe(svc.name) {
      ClusterNameFields(svc);
      DecimalRoundTrip(svc.targetPort, 0xffff);
    }
  }

  lemma ClusterNameInjective(a: MeshService, b: MeshService)
    requires ClusterSafe(a.ns) && ClusterSafe(a.name) && ClusterSafe(b.ns) && ClusterSafe(b.name)
    requires ClusterName(a) == ClusterName(b)
    ensures a.ns == b.ns && a.name == b.name && a.targetPort == b.targetPort
  {
    ClusterNameRoundTrip(a);
    ClusterNameRoundTrip(b);
  }

  // ----- Traffic match names -----

  /** `k8s.NamespacedNameFrom`. */
  function NamespacedNameFrom(s: string): Option<(string, string)> {
    var chunks := Split(s, '/');
    if |chunks| != 2 then None else Some((chunks[0], chunks[1]))
  }

  /** Namespace and name of the service a traffic match was made for (`trafficMatchToMeshSvc`). */
  function MatchNameToMeshSvc(name: string): Option<(string, string)> {
    var chunks := Fields(name, {'_'});
    if |chunks| != 4 then None else NamespacedNameFrom(chunks[1])
  }

  predicate MatchSafe(s: string) {
    Free(s, {'_', '/'})
  }

  lemma Flat(a: string, b: string, c: string, d: string, sep: char)
    ensures a + [sep] + (b + [sep] + (c + [sep] + d)) == (a + [sep]) + b + [sep] + c + [sep] + d
  {}

  /** Three tokens come off a name whole, whatever follows. */
  lemma FieldsThree(a: string, b: string, c: string, rest: string, sep: char, seps: set<char>)
    requires a != "" && b != "" && c != "" && sep in seps && Free(a, seps) && Free(b, seps) && Free(c, seps)
    ensures Fields(a + [sep] + (b + [sep] + (c + [sep] + rest)), seps) == [a, b, c] + Fields(rest, seps)
  {
    FieldsCons(c, sep, rest, seps);
    FieldsCons(b, sep, c + [sep] + rest, seps);
    FieldsCons(a, sep, b + [sep] + (c + [sep] + rest), seps);
  }

  lemma NameFields(full: string, port: string, protocol: string)
    requires full != "" && port != "" && Free(full, {'_'}) && Free(port, {'_'})
    ensures Fields("outbound_" + full + "_" + port + "_" + protocol, {'_'})
            == ["outbound", full, port] + Fields(protocol, {'_'})
  {
    var head := "outbound";
    FieldsThree(head, full, port, protocol, '_', {'_'});
    Flat(head, full, port, protocol, '_');
    assert head + ['_'] == "outbound_";
  }

  lemma MatchNameFields(svc: MeshService)
    requires MatchSafe(svc.ns) && MatchSafe(svc.name)
    ensures Fields(OutboundTrafficMatchName(svc), {'_'})
         == ["outbound", svc.ns + "/" + svc.name, Decimal(svc.port)] + Fields(svc.protocol, {'_'})
  {
    DecimalFree(svc.port, {'_'});
    NameFields(svc.ns + "/" + svc.name, Decimal(svc.port), svc.protocol);
  }

  /** A traffic match name parses back to its service exactly when both names are free of the separators and the
      protocol is one token. */
  lemma MatchNameRoundTrip(svc: MeshService)
    ensures MatchNameToMeshSvc(OutboundTrafficMatchName(svc)) == Some((svc.ns, svc.name))
       <==> MatchSafe(svc.ns) && MatchSafe(svc.name) && |Fields(svc.protocol, {'_'})| == 1
  {
    var m := OutboundTrafficMatchName(svc);
    FieldsAreTokens(m, {'_'});
    var chunks := Fields(m, {'_'});
    if |chunks| == 4 {
      SplitPiecesFree(chunks[1], '/', {'_'});
      assert {'_'} + {'/'} == {'_', '/'};
    }
    if MatchSafe(svc.ns) && MatchSafe(svc.name) {
      MatchNameFields(svc);
      SplitLast(svc.name, '/');
      SplitCons(svc.ns, '/', svc.name);
      assert svc.ns + "/" + svc.name == svc.ns + ['/'] + svc.name;
    }
  }

  /** The key of a traffic match in the name index. */
  function NamedPort(port: U16, name: string): string {
    Decimal(port) + "=" + name
  }

  /** A text splits in one way at the first separator. */
  lemma SplitsOnce(x: string, a: string, y: string, b: string, sep: char)
    requires Free(x, {sep}) && Free(y, {sep}) && x + [sep] + a == y + [sep] + b
    ensures x == y && a == b
  {
    var s := x + [sep] + a;
    assert s == x + ([sep] + a) == y + ([sep] + b);
    TokenLengthIs(x, [sep] + a, {sep});
    TokenLengthIs(y, [sep] + b, {sep});
    assert x == s[..|x|] && y == s[..|y|];
    assert a == s[|x| + 1..] && b == s[|y| + 1..];
  }

  lemma NamedPortInjective(p: U16, q: U16, a: string, b: string)
    requires NamedPort(p, a) == NamedPort(q, b)
    ensures p == q && a == b
  {
    DecimalFree(p, {'='});
    DecimalFree(q, {'='});
    SplitsOnce(Decimal(p), a, Decimal(q), b, '=');
    DecimalInjective(p, q);
  }

  // ----- Hostnames -----

  function HostBase(svc: MeshService): string {
    svc.name + "." + svc.ns
  }

  function WithPort(host: string, svc: MeshService): string {
    host + ":" + Decimal(svc.port)
  }

  /** The hostnames added by each non-empty segment of the trust domain, on top of `host`. */
  function DomainHosts(svc: MeshService, host: string, segs: seq<string>): seq<string>
    decreases |segs|
  {
    if segs == [] then []
    else if segs[0] == "" then DomainHosts(svc, host, segs[1..])
    else
      var longer := host + "." + segs[0];
      [longer, WithPort(longer, svc)] + DomainHosts(svc, longer, segs[1..])
  }

  /** The hostname reached after all the segments. */
  function DomainHost(host: string, segs: seq<string>): string
    decreases |segs|
  {
    if segs == [] then host
    else DomainHost(if segs[0] == "" then host else host + "." + segs[0], segs[1..])
  }

  function Hostnames(svc: MeshService, trustDomain: string): seq<string> {
    var base := HostBase(svc);
    [base, WithPort(base, svc), base + ".svc", WithPort(base + ".svc", svc)]
    + DomainHosts(svc, base + ".svc", Split(trustDomain, '.'))
  }

  lemma {:induction false} DomainHostsSnoc(svc: MeshService, host: string, segs: seq<string>, seg: string)
    ensures var longer := DomainHost(host, segs);
            DomainHost(host, segs + [seg]) == if seg == "" then longer else longer + "." + seg
    ensures DomainHosts(svc, host, segs + [seg]) ==
            DomainHosts(svc, host, segs)
            + if seg == "" then []
              else [DomainHost(host, segs) + "." + seg, WithPort(DomainHost(host, segs) + "." + seg, svc)]
    decreases |segs|
  {
    if segs == [] {
      assert [seg][1..] == [];
      assert [] + [seg] == [seg];
    } else {
      assert (segs + [seg])[1..] == segs[1..] + [seg];
      DomainHostsSnoc(svc, if segs[0] == "" then host else host + "." + segs[0], segs[1..], seg);
    }
  }

  /** `GetHostnamesForService` with `localNamespace` false, as the catalog calls it. */
  method GetHostnamesForService(svc: MeshService, trustDomain: string) returns (hostnames: seq<string>)
    ensures hostnames == Hostnames(svc, trustDomain)
  {
    var base := svc.name + "." + svc.ns;
    hostnames := [base, WithPort(base, svc), base + ".svc", WithPort(base + ".svc", svc)];
    var segs := Split(trustDomain, '.');
    var hostname := base + ".svc";
    for i := 0 to |segs|
      invariant hostname == DomainHost(base + ".svc", segs[..i])
      invariant hostnames == [base, WithPort(base, svc), base + ".svc", WithPort(base + ".svc", svc)]
                             + DomainHosts(svc, base + ".svc", segs[..i])
    {
      DomainHostsSnoc(svc, base + ".svc", segs[..i], segs[i]);
      assert segs[..i + 1] == segs[..i] + [segs[i]];
      if segs[i] != "" {
        hostname := hostname + "." + segs[i];
        hostnames := hostnames + [hostname];
        hostnames := hostnames + [WithPort(hostname, svc)];
      }
    }
    assert segs[..|segs|] == segs;
  }

  // ----- Which hostnames there are -----

  /** The segments of a domain that are not empty. */
  function Segments(segs: seq<string>): seq<string> {
    if segs == [] then [] else (if segs[0] == "" then [] else [segs[0]]) + Segments(segs[1..])
  }

  /** The host continued by the segments, each after a dot. */
  function Under(host: string, segs: seq<string>): string
    decreases |segs|
  {
    if segs == [] then host else Under(host + "." + segs[0], segs[1..])
  }

  predicate WithOrWithoutPort(svc: MeshService, host: string, h: string) {
    h == host || h == host + ":" + Decimal(svc.port)
  }

  /** The service's name in its namespace, alone, or followed by `svc` and the first segments of the trust domain. */
  ghost predicate IsHostOf(svc: MeshService, trustDomain: string, host: string) {
    || host == svc.name + "." + svc.ns
    || exists j: nat | j <= |Segments(Split(trustDomain, '.'))| ::
         host == Under(svc.name + "." + svc.ns + ".svc", Segments(Split(trustDomain, '.'))[..j])
  }

  lemma {:induction false} DomainHostsHas(svc: MeshService, host: string, segs: seq<string>, h: string)
    ensures h in DomainHosts(svc, host, segs) <==>
            exists j: nat | 0 < j <= |Segments(segs)| :: WithOrWithoutPort(svc, Under(host, Segments(segs)[..j]), h)
    decreases |segs|
  {
    if segs != [] && segs[0] == "" {
      DomainHostsHas(svc, host, segs[1..], h);
      assert Segments(segs) == Segments(segs[1..]);
    } else if segs != [] {
      var longer, all, rest := host + "." + segs[0], Segments(segs), Segments(segs[1..]);
      DomainHostsHas(svc, longer, segs[1..], h);
      assert all == [segs[0]] + rest;
      forall j: nat | 0 < j <= |all|
        ensures Under(host, all[..j]) == Under(longer, rest[..j - 1])
      {
        assert all[..j][0] == segs[0] && all[..j][1..] == rest[..j - 1];
      }
      assert rest[..0] == [] && Under(longer, rest[..0]) == longer;
      if j: nat :| 0 < j <= |rest| && WithOrWithoutPort(svc, Under(longer, rest[..j]), h) {
        assert Under(host, all[..j + 1]) == Under(longer, rest[..j]);
      }
      if WithOrWithoutPort(svc, longer, h) {
        assert Under(host, all[..1]) == longer;
      }
    }
  }

  lemma HostnamesHas(svc: MeshService, trustDomain: string, h: string)
    ensures var base := svc.name + "." + svc.ns;
            h in Hostnames(svc, trustDomain) <==>
            || WithOrWithoutPort(svc, base, h) || WithOrWithoutPort(svc, base + ".svc", h)
            || h in DomainHosts(svc, base + ".svc", Split(trustDomain, '.'))
  {}

  /** The hostnames of a service are exactly these, each with and without the port. */
  lemma HostnamesExactly(svc: MeshService, trustDomain: string, h: string)
    ensures h in Hostnames(svc, trustDomain) <==>
            exists host :: IsHostOf(svc, trustDomain, host) && WithOrWithoutPort(svc, host, h)
  {
    var base := svc.name + "." + svc.ns;
    var all := Segments(Split(trustDomain, '.'));
    HostnamesHas(svc, trustDomain, h);
    DomainHostsHas(svc, base + ".svc", Split(trustDomain, '.'), h);
    assert all[..0] == [] && Under(base + ".svc", all[..0]) == base + ".svc";
    assert IsHostOf(svc, trustDomain, base) && IsHostOf(svc, trustDomain, base + ".svc");
    if h in DomainHosts(svc, base + ".svc", Split(trustDomain, '.')) {
      var j: nat :| 0 < j <= |all| && WithOrWithoutPort(svc, Under(base + ".svc", all[..j]), h);
      assert IsHostOf(svc, trustDomain, Under(base + ".svc", all[..j]));
    }
    if host :| IsHostOf(svc, trustDomain, host) && WithOrWithoutPort(svc, host, h) {
      if host != base {
        var j: nat :| j <= |all| && host == Under(base + ".svc", all[..j]);
        assert j > 0 ==> 0 < j <= |all| && WithOrWithoutPort(svc, Under(base + ".svc", all[..j]), h);
      }
    }
  }

  /** Both segments of a trust domain are used. */
  lemma TwoSegments(svc: MeshService, one: string, two: string)
    requires '.' !in one && '.' !in two && one != "" && two != ""
    ensures HostBase(svc) + ".svc" + "." + one + "." + two in Hostnames(svc, one + "." + two)
  {
    var base := HostBase(svc) + ".svc";
    SplitLast(two, '.');
    SplitCons(one, '.', two);
    assert Split(one + "." + two, '.') == [one, two];
    assert [one, two][1..] == [two];
    assert base + "." + one + "." + two in DomainHosts(svc, base + "." + one, [two]);
    assert base + "." + one + "." + two in DomainHosts(svc, base, [one, two]);
  }

  /** A service is known by its fully qualified name in the default trust domain. */
  lemma FqdnIsHostname(svc: MeshService)
    ensures Fqdn(svc) in Hostnames(svc, "cluster" + "." + "local")
  {
    TwoSegments(svc, "cluster", "local");
    assert Fqdn(svc) == HostBase(svc) + ".svc" + "." + "cluster" + "." + "local";
  }

  // ----- Which service a hostname belongs to -----

  /** `h` is the base name of the service, alone or continued by a dot or a colon. */
  predicate HostContinues(h: string, base: string) {
    |base| <= |h| && h[..|base|] == base && (|h| == |base| || h[|base|] in {'.', ':'})
  }

  lemma HostContinuesMore(h: string, base: string, tail: string)
    requires HostContinues(h, base) && (tail != "" ==> tail[0] in {'.', ':'})
    ensures HostContinues(h + tail, base)
  {
    assert (h + tail)[..|base|] == h[..|base|];
  }

  lemma {:induction false} DomainHostsContinue(svc: MeshService, host: string, segs: seq<string>, base: string)
    requires HostContinues(host, base)
    ensures forall h <- DomainHosts(svc, host, segs) :: HostContinues(h, base)
    decreases |segs|
  {
    if segs != [] {
      if segs[0] == "" {
        DomainHostsContinue(svc, host, segs[1..], base);
      } else {
        var longer := host + "." + segs[0];
        assert longer == host + ("." + segs[0]);
        HostContinuesMore(host, base, "." + segs[0]);
        assert WithPort(longer, svc) == longer + (":" + Decimal(svc.port));
        HostContinuesMore(longer, base, ":" + Decimal(svc.port));
        DomainHostsContinue(svc, longer, segs[1..], base);
      }
    }
  }

  lemma HostnamesContinue(svc: MeshService, trustDomain: string)
    ensures forall h <- Hostnames(svc, trustDomain) :: HostContinues(h, HostBase(svc))
  {
    var base := HostBase(svc);
    var port := ":" + Decimal(svc.port);
    assert HostContinues(base, base);
    HostContinuesMore(base, base, port);
    HostContinuesMore(base, base, ".svc");
    HostContinuesMore(base + ".svc", base, port);
    assert WithPort(base, svc) == base + port && WithPort(base + ".svc", svc) == base + ".svc" + port;
    DomainHostsContinue(svc, base + ".svc", Split(trustDomain, '.'), base);
  }

  /** Names that Kubernetes allows for services (without a subdomain) and namespaces, as far as hostnames care. */
  predicate HostSafe(s: string) {
    Free(s, {'.', ':'})
  }

  /** Name and namespace as read off the front of a hostname. */
  function Owner(h: string): (string, string) {
    var n := TokenLength(h, {'.'});
    var rest := if n < |h| then h[n + 1..] else "";
    (h[..n], rest[..TokenLength(rest, {'.', ':'})])
  }

  lemma OwnerIs(name: string, ns: string, tail: string)
    requires HostSafe(name) && HostSafe(ns) && (tail == "" || tail[0] in {'.', ':'})
    ensures Owner(name + (['.'] + (ns + tail))) == (name, ns)
  {
    var rest := ['.'] + (ns + tail);
    TokenLengthIs(name, rest, {'.'});
    assert (name + rest)[|name| + 1..] == ns + tail;
    assert (name + rest)[..|name|] == name;
    TokenLengthIs(ns, tail, {'.', ':'});
  }

  lemma ContinuedOwner(h: string, name: string, ns: string)
    requires HostSafe(name) && HostSafe(ns) && HostContinues(h, name + "." + ns)
    ensures Owner(h) == (name, ns)
  {
    var base := name + "." + ns;
    var tail := h[|base|..];
    assert h == base + tail;
    assert base + tail == name + (['.'] + (ns + tail));
    OwnerIs(name, ns, tail);
  }

  /** A hostname belongs to one service name in one namespace, whatever the trust domain. */
  lemma HostnameOwner(a: MeshService, b: MeshService, trustDomain: string, h: string)
    requires HostSafe(a.name) && HostSafe(a.ns) && HostSafe(b.name) && HostSafe(b.ns)
    requires h in Hostnames(a, trustDomain) && h in Hostnames(b, trustDomain)
    ensures a.name == b.name && a.ns == b.ns
  {
    HostnamesContinue(a, trustDomain);
    HostnamesContinue(b, trustDomain);
    ContinuedOwner(h, a.name, a.ns);
    ContinuedOwner(h, b.name, b.ns);
  }

  /** The fully qualified name determines the service too. */
  lemma FqdnInjective(a: MeshService, b: MeshService)
    requires HostSafe(a.name) && HostSafe(a.ns) && HostSafe(b.name) && HostSafe(b.ns)
    requires Fqdn(a) == Fqdn(b)
    ensures a.name == b.name && a.ns == b.ns
  {
    assert Fqdn(a) == HostBase(a) + ".svc.cluster.local" && Fqdn(b) == HostBase(b) + ".svc.cluster.local";
    HostContinuesMore(HostBase(a), HostBase(a), ".svc.cluster.local");
    HostContinuesMore(HostBase(b), HostBase(b), ".svc.cluster.local");
    ContinuedOwner(Fqdn(a), a.name, a.ns);
    ContinuedOwner(Fqdn(b), b.name, b.ns);
  }
}
