/** From the services of the mesh, over any number of syncs, to the answer on the wire. */
module Answers {
  import opened Words
  import opened Text
  import opened Services
  import opened Imports
  import opened Catalog
  import opened DnsName
  import opened DnsMessage
  import opened DnsResponder
  import opened Packing
  import opened DnsSync

  datatype Mesh = Mesh(cache: Cache, trustDomain: string, services: seq<MeshService>)

  function Configs(mesh: Mesh): map<U16, seq<RouteConfig>> {
    PolicyOf(mesh.cache, mesh.trustDomain, mesh.services).routeConfigs
  }

  // ----- The hostnames of a mesh -----

  /** Octets without escapes, and no dot at the end. */
  predicate EndsWell(h: string) {
    IsHost(h) && h != "" && h[|h| - 1] != '.'
  }

  predicate OrdinaryService(svc: MeshService) {
    IsHost(svc.name) && EndsWell(svc.ns)
  }

  /** Names as Kubernetes has them: a namespace is not empty and does not end in a dot. */
  predicate Ordinary(mesh: Mesh) {
    IsHost(mesh.trustDomain) && forall s <- mesh.services :: OrdinaryService(s)
  }

  lemma {:induction false} SplitPieces(s: string, sep: char)
    requires IsHost(s)
    ensures forall p <- Split(s, sep) :: IsHost(p) && sep !in p
    decreases |s|
  {
    var n := TokenLength(s, {sep});
    if n < |s| {
      SplitPieces(s[n + 1..], sep);
    }
  }

  lemma LongerEndsWell(host: string, seg: string)
    requires IsHost(host) && IsHost(seg) && seg != "" && seg[|seg| - 1] != '.'
    ensures EndsWell(host + "." + seg)
  {
    var h := host + "." + seg;
    assert h[|h| - 1] == seg[|seg| - 1];
  }

  lemma PortHasColon(host: string, svc: MeshService)
    ensures ':' in WithPort(host, svc)
  {
    assert WithPort(host, svc)[|host|] == ':';
  }

  lemma {:induction false} DomainHostsEndWell(svc: MeshService, host: string, segs: seq<string>)
    requires EndsWell(host) && forall p <- segs :: IsHost(p) && '.' !in p
    ensures forall h <- DomainHosts(svc, host, segs) :: ':' in h || EndsWell(h)
    decreases |segs|
  {
    if segs != [] {
      var longer := host + "." + segs[0];
      if segs[0] != "" {
        LongerEndsWell(host, segs[0]);
        PortHasColon(longer, svc);
      }
      DomainHostsEndWell(svc, if segs[0] == "" then host else longer, segs[1..]);
    }
  }

  lemma HostnamesEndWell(svc: MeshService, trustDomain: string, h: string)
    requires OrdinaryService(svc) && IsHost(trustDomain) && h in Hostnames(svc, trustDomain) && ':' !in h
    ensures EndsWell(h)
  {
    var base := HostBase(svc);
    LongerEndsWell(svc.name, svc.ns);
    LongerEndsWell(base, "svc");
    assert base + ".svc" == base + "." + "svc";
    PortHasColon(base, svc);
    PortHasColon(base + ".svc", svc);
    SplitPieces(trustDomain, '.');
    DomainHostsEndWell(svc, base + ".svc", Split(trustDomain, '.'));
  }

  /** Hostnames of plain TCP services are not answered. */
  predicate Answerable(svc: MeshService) {
    svc.protocol != PROTOCOL_TCP && svc.protocol != PROTOCOL_TCP_SERVER_FIRST
  }

  /** The hostnames to be answered are those without a port of the services that are not plain TCP. */
  lemma PolicyHostsAre(mesh: Mesh, h: string)
    ensures h in PolicyHosts(Configs(mesh)) <==>
            exists s <- mesh.services :: Answerable(s) && h in Hostnames(s, mesh.trustDomain) && ':' !in h
  {
    var configs := Configs(mesh);
    if h in PolicyHosts(configs) {
      var port :| port in configs && h in ListHosts(configs[port]);
      ListHostsHas(configs[port], h);
      var config: RouteConfig :| config in configs[port] && h in config.hostnames && ':' !in h;
      PolicyRouteConfigs(mesh.cache, mesh.trustDomain, mesh.services, port, config);
    }
    if s :| s in mesh.services && Answerable(s) && h in Hostnames(s, mesh.trustDomain) && ':' !in h {
      var config := RouteConfigOf(mesh.cache, mesh.trustDomain, s);
      PolicyRouteConfigs(mesh.cache, mesh.trustDomain, mesh.services, s.port, config);
      ListHostsHas(configs[s.port], h);
    }
  }

  lemma MeshHostsEndWell(mesh: Mesh)
    requires Ordinary(mesh)
    ensures forall h <- PolicyHosts(Configs(mesh)) :: IsHost(h) && EndsWell(h)
  {
    forall h | h in PolicyHosts(Configs(mesh))
      ensures IsHost(h) && EndsWell(h)
    {
      PolicyHostsAre(mesh, h);
      var s :| s in mesh.services && h in Hostnames(s, mesh.trustDomain) && ':' !in h;
      HostnamesEndWell(s, mesh.trustDomain, h);
    }
  }

  // ----- Hostnames too long to be matched -----

  lemma GrownAppend(p: Name, q: Name, x: Symbol)
    requires q != []
    ensures Grown(p + q, x) == p + Grown(q, x)
  {}

  lemma {:induction false} PiecesAppend(a: seq<Symbol>, b: seq<Symbol>)
    ensures Pieces(a + [Dot] + b) == Pieces(a) + Pieces(b)
    decreases |b|
  {
    var s, n := a + [Dot] + b, |b| - 1;
    if b == [] {
      assert s[..|s| - 1] == a && s[|s| - 1] == Dot;
    } else {
      assert s[..|s| - 1] == a + [Dot] + b[..n] && s[|s| - 1] == b[n];
      PiecesAppend(a, b[..n]);
      GrownAppend(Pieces(a), Pieces(b[..n]), b[n]);
    }
  }

  lemma {:induction false} PiecesOfWord(syms: seq<Symbol>)
    requires Dot !in syms
    ensures |Pieces(syms)| == 1 && |Pieces(syms)[0]| == |syms|
    decreases |syms|
  {
    if syms != [] {
      PiecesOfWord(syms[..|syms| - 1]);
    }
  }

  /** A label of a hostname: octets without a dot. */
  predicate IsWord(s: string) {
    IsHost(s) && '.' !in s && ':' !in s && s != ""
  }

  lemma LabelsOfWord(s: string)
    requires IsWord(s)
    ensures |Labels(s)| == 1 && |Labels(s)[0]| == |s|
  {
    SymbolsOf(s);
    PiecesOfWord(Symbols(s));
  }

  lemma LabelsAppend(s: string, word: string)
    requires IsHost(s) && IsWord(word)
    ensures IsHost(s + "." + word) && Labels(s + "." + word) == Labels(s) + Labels(word)
  {
    SymbolsOf(s);
    SymbolsOf(word);
    SymbolsOf(s + "." + word);
    assert Symbols(s + "." + word) == Symbols(s) + [Dot] + Symbols(word);
    PiecesAppend(Symbols(s), Symbols(word));
  }

  lemma {:induction false} WireAppend(a: Name, b: Name)
    requires FitLabels(a) && FitLabels(b)
    ensures FitLabels(a + b) && |Wire(a + b)| == |Wire(a)| + |Wire(b)|
  {
    if a == [] {
      assert a + b == b;
    } else {
      assert (a + b)[1..] == a[1..] + b;
      WireAppend(a[1..], b);
      assert a[0] in a;
    }
  }

  /** Appending a word of at most 63 octets to a name makes its packed form longer by one more than that. */
  lemma Lengthens(s: string, word: string)
    requires IsHost(s) && IsWord(word) && |word| <= 63 && FitLabels(Labels(s))
    ensures IsHost(s + "." + word) && FitLabels(Labels(s + "." + word))
    ensures |Wire(Labels(s + "." + word))| == |Wire(Labels(s))| + |word| + 1
  {
    LabelsAppend(s, word);
    LabelsOfWord(word);
    assert Labels(word)[1..] == [];
    WireAppend(Labels(s), Labels(word));
  }

  /** A service and a trust domain with names of the greatest lengths, 63 octets and 59 in the last segment, have a
      hostname that is written to the tables and that no query ever matches. */
  lemma OverlongHostname(svc: MeshService, one: string, two: string) returns (host: string)
    requires IsWord(svc.name) && IsWord(svc.ns) && IsWord(one) && IsWord(two)
    requires |svc.name| == |svc.ns| == |one| == 63 && |two| == 59
    ensures host in Hostnames(svc, one + "." + two) && ':' !in host && WrittenKeys(host) != {}
    ensures forall req, qtype: U16 | Parse(req, 54).Question? ::
              Packable(Labels(host)) && Parse(req, 54).key != GoKey(Labels(host), qtype, DNS_CLASS_IN)
  {
    var base := HostBase(svc) + ".svc";
    TwoSegments(svc, one, two);
    LabelsOfWord(svc.name);
    assert Labels(svc.name)[1..] == [];
    Lengthens(svc.name, svc.ns);
    assert base == HostBase(svc) + "." + "svc";
    Lengthens(HostBase(svc), "svc");
    Lengthens(base, one);
    Lengthens(base + "." + one, two);
    host := base + "." + one + "." + two;
    PackedHost(host);
    assert GoKey(Labels(host), 1, DNS_CLASS_IN) in WrittenKeys(host);
    PackedHostIsValid(host);
    forall req, qtype: U16 | Parse(req, 54).Question?
      ensures Parse(req, 54).key != GoKey(Labels(host), qtype, DNS_CLASS_IN)
    {
      if Parse(req, 54).key == GoKey(Labels(host), qtype, DNS_CLASS_IN) {
        OverlongNeverMatches(req, 54, Labels(host), qtype, DNS_CLASS_IN);
      }
    }
  }

  // ----- Every run of syncs -----

  /** What a sync with a mesh does to the tables. */
  ghost predicate SyncStep(s: Tables, t: Tables, mesh: Mesh, bridge: Ip4) {
    if Configs(mesh) == map[] then t == s
    else t.shadow == PolicyHosts(Configs(mesh)) && Resolved(s, t, bridge, WrittenKeys, DeletedKeys)
  }

  ghost predicate Synced(t: Tables, bridge: Ip4) {
    Covered(t, bridge, WrittenKeys) && GoWritten(t.records) && forall h <- t.shadow :: EndsWell(h)
  }

  lemma SyncStepKeeps(s: Tables, t: Tables, mesh: Mesh, bridge: Ip4)
    requires Synced(s, bridge) && Ordinary(mesh) && SyncStep(s, t, mesh, bridge)
    ensures Synced(t, bridge) && s.records.Keys <= t.records.Keys
  {
    if Configs(mesh) != map[] {
      MeshHostsEndWell(mesh);
      SyncKeepsCovered(s, t, bridge);
      SyncKeepsGoWritten(s, t, bridge);
      SyncRemovesNothing(s, t, bridge);
      forall h | h in s.shadow
        ensures PackDomainName(h).None?
      {
        NotPacked(h);
      }
    }
  }

  lemma StartIsSynced(bridge: Ip4)
    ensures Synced(Tables({}, map[]), bridge)
  {}

  /** Syncs with one mesh after another, from empty tables. */
  ghost predicate SyncRun(run: seq<Tables>, meshes: seq<Mesh>, bridge: Ip4) {
    var n := |meshes|;
    && |run| == n + 1
    && if n == 0 then run[0] == Tables({}, map[])
       else
         && SyncRun(run[..n], meshes[..n - 1], bridge)
         && Ordinary(meshes[n - 1])
         && SyncStep(run[n - 1], run[n], meshes[n - 1], bridge)
  }

  lemma {:induction false} RunIsSynced(run: seq<Tables>, meshes: seq<Mesh>, bridge: Ip4)
    requires SyncRun(run, meshes, bridge)
    ensures Synced(run[|meshes|], bridge)
    decreases |meshes|
  {
    var n := |meshes|;
    if n == 0 {
      StartIsSynced(bridge);
    } else {
      RunIsSynced(run[..n], meshes[..n - 1], bridge);
      SyncStepKeeps(run[n - 1], run[n], meshes[n - 1], bridge);
    }
  }

  lemma LastSyncKeepsRecords(run: seq<Tables>, meshes: seq<Mesh>, bridge: Ip4)
    requires SyncRun(run, meshes, bridge) && meshes != []
    ensures run[|meshes| - 1].records.Keys <= run[|meshes|].records.Keys
  {
    var n := |meshes|;
    RunIsSynced(run[..n], meshes[..n - 1], bridge);
    SyncStepKeeps(run[n - 1], run[n], meshes[n - 1], bridge);
  }

  lemma {:induction false} RunKeepsRecords(run: seq<Tables>, meshes: seq<Mesh>, bridge: Ip4, j: nat)
    requires SyncRun(run, meshes, bridge) && j <= |meshes|
    ensures run[j].records.Keys <= run[|meshes|].records.Keys
    decreases |meshes|
  {
    var n := |meshes|;
    if j < n {
      LastSyncKeepsRecords(run, meshes, bridge);
      RunKeepsRecords(run[..n], meshes[..n - 1], bridge, j);
    }
  }

  /** After every run the shadow hostnames are answered and all records come from packed names; and a record
      once written is never removed, so hostnames that left the mesh are answered still. */
  lemma EverySyncRun(run: seq<Tables>, meshes: seq<Mesh>, bridge: Ip4)
    requires SyncRun(run, meshes, bridge)
    ensures Synced(run[|meshes|], bridge)
    ensures forall j | 0 <= j <= |meshes| :: run[j].records.Keys <= run[|meshes|].records.Keys
  {
    RunIsSynced(run, meshes, bridge);
    forall j | 0 <= j <= |meshes|
      ensures run[j].records.Keys <= run[|meshes|].records.Keys
    {
      RunKeepsRecords(run, meshes, bridge, j);
    }
  }

  // ----- The answer -----

  lemma PackedHost(host: string)
    requires host != "" && IsHost(host)
    ensures PackDomainName(Dotted(host)) == if Packable(Labels(host)) then Some(Labels(host)) else None
  {
    SymbolsOf(host);
    DottedSymbols(host);
    var syms := Symbols(host);
    assert (syms + [Dot])[..|syms|] == syms && |syms + [Dot]| > 1;
  }

  /** A lookup of a covered hostname hits its record. */
  lemma CoveredHostHits(t: Tables, bridge: Ip4, host: string, qtype: U16, req: seq<Byte>, endpoints: map<Ip4, Ip4>)
    requires Covered(t, bridge, WrittenKeys) && host in t.shadow && EndsWell(host) && ValidName(Labels(host))
    requires qtype in {1, 28}
    requires IsStandardQuery(req, endpoints) && HasQuestion(req, 54, Labels(host), qtype, DNS_CLASS_IN)
    ensures Lookup(req, endpoints, t.records)
            == Hit(|QuestionOctets(Labels(host), qtype, DNS_CLASS_IN)|, ARecord(bridge, 60))
  {
    PackedHost(host);
    assert GoKey(Labels(host), qtype, DNS_CLASS_IN) in WrittenKeys(host);
    KeyAgreement(req, 54, Labels(host), qtype, DNS_CLASS_IN);
  }

  /** The message that answers a query for `host`: an A record, whichever of the two types was asked for. */
  function AnswerFor(req: seq<Byte>, host: string, qtype: U16, bridge: Ip4): Message
    requires |req| >= 54
  {
    Message(LoadBe16(req, 42), 0x100 * (SetTopBit(req[44]) as int) + SetTopBit(req[45]),
            [Query(Labels(host), qtype, 1)], [Record(Labels(host), 1, 1, 60, bridge)], [], [])
  }

  /** Once the tables are in step, a query with the one question A or AAAA for a shadow hostname is a hit, and the
      frame emitted for it decodes to the bridge address for that very name, with a lifetime of 60. */
  lemma CoveredHostIsAnswered(t: Tables, bridge: Ip4, host: string, qtype: U16, req: seq<Byte>,
                              endpoints: map<Ip4, Ip4>, out: seq<Byte>)
    requires Synced(t, bridge) && host in t.shadow && ValidName(Labels(host)) && qtype in {1, 28}
    requires IsStandardQuery(req, endpoints) && HasQuestion(req, 54, Labels(host), qtype, DNS_CLASS_IN)
    requires LoadBe16(req, 46) == 1 && LoadBe32(req, 50) == 0
    ensures Lookup(req, endpoints, t.records)
            == Hit(|QuestionOctets(Labels(host), qtype, DNS_CLASS_IN)|, ARecord(bridge, 60))
    ensures var hit := Lookup(req, endpoints, t.records);
            IsReplyFrame(req, out, hit.length, endpoints[req[30..34]], ARecord(bridge, 60)) ==>
              Decode(out[42..]) == Some(AnswerFor(req, host, qtype, bridge))
  {
    CoveredHostHits(t, bridge, host, qtype, req, endpoints);
    if IsReplyFrame(req, out, Lookup(req, endpoints, t.records).length, endpoints[req[30..34]], ARecord(bridge, 60)) {
      var labels, asked := HitReplyDecodes(req, out, endpoints, t.records);
      KeyAgreement(req, 54, labels, asked, DNS_CLASS_IN);
      KeyAgreement(req, 54, Labels(host), qtype, DNS_CLASS_IN);
      KeyInjective(labels, Labels(host), asked, qtype, DNS_CLASS_IN, DNS_CLASS_IN);
    }
  }

  /** After every run of syncs that ends with a mesh, its hostnames are so answered. */
  lemma EveryRunAnswers(run: seq<Tables>, meshes: seq<Mesh>, bridge: Ip4, svc: MeshService, host: string, qtype: U16,
                        req: seq<Byte>, endpoints: map<Ip4, Ip4>, out: seq<Byte>)
    requires SyncRun(run, meshes, bridge) && meshes != [] && ValidName(Labels(host)) && qtype in {1, 28}
    requires var mesh := meshes[|meshes| - 1];
             svc in mesh.services && Answerable(svc) && host in Hostnames(svc, mesh.trustDomain) && ':' !in host
    requires IsStandardQuery(req, endpoints) && HasQuestion(req, 54, Labels(host), qtype, DNS_CLASS_IN)
    requires LoadBe16(req, 46) == 1 && LoadBe32(req, 50) == 0
    ensures var records := run[|meshes|].records;
            && Lookup(req, endpoints, records).Hit?
            && var length := Lookup(req, endpoints, records).length;
               (IsReplyFrame(req, out, length, endpoints[req[30..34]], ARecord(bridge, 60)) ==>
                  Decode(out[42..]) == Some(AnswerFor(req, host, qtype, bridge)))
  {
    RunIsSynced(run, meshes, bridge);
    PolicyHostsAre(meshes[|meshes| - 1], host);
    assert host in run[|meshes|].shadow;
    CoveredHostIsAnswered(run[|meshes|], bridge, host, qtype, req, endpoints, out);
  }

  // ----- End to end -----

  /** The DNS service as the data plane sees it, and the routines that read addresses. */
  datatype Dns = Dns(svc: MeshService, clusterIp: string, addresses: seq<DnsAddress>, validIp: string -> bool,
                     ip4: string -> Ip4)

  function Ips(dns: Dns): set<string> {
    DnsIps(dns.svc, dns.addresses, dns.validIp)
  }

  /** What holds of the data plane from its construction on, between any two syncs. */
  ghost predicate InStep(plane: DataPlane)
    reads plane
  {
    Synced(plane.Value(), plane.bridge) && plane.dnsEndpoints == map[]
  }

  method NewDataPlane(bridge: Ip4) returns (plane: DataPlane)
    ensures fresh(plane) && plane.bridge == bridge && InStep(plane)
  {
    plane := new DataPlane(bridge);
    StartIsSynced(bridge);
  }

  ghost predicate PointsTo(plane: DataPlane, dns: Dns)
    reads plane
  {
    forall a <- Ips(dns) :: dns.ip4(a) in plane.endpoints && plane.endpoints[dns.ip4(a)] == dns.ip4(dns.clusterIp)
  }

  method PointEndpoints(plane: DataPlane, dns: Dns)
    requires plane.dnsEndpoints == map[]
    modifies plane`endpoints, plane`dnsEndpoints
    ensures plane.dnsEndpoints == map[] && PointsTo(plane, dns)
  {
    ghost var before, shadow := plane.endpoints, plane.dnsEndpoints;
    plane.SyncDnsEndpoints(dns.svc, dns.clusterIp, dns.addresses, dns.validIp, dns.ip4);
    ghost var written :|
      && Pointed(before, written, StaleOf(shadow, Ips(dns), dns.clusterIp), dns.clusterIp, dns.ip4)
      && plane.endpoints == written - Images(shadow.Keys - Ips(dns), dns.ip4);
    EndpointsArePointed(before, written, plane.endpoints, shadow, Ips(dns), dns.clusterIp, dns.ip4);
  }

  method ResolveHosts(plane: DataPlane, mesh: Mesh)
    requires Ordinary(mesh)
    modifies plane`records, plane`dnsResolves
    ensures SyncStep(old(plane.Value()), plane.Value(), mesh, plane.bridge)
  {
    var policy := GetOutboundMeshTrafficPolicy(mesh.cache, mesh.trustDomain, mesh.services);
    MeshHostsEndWell(mesh);
    plane.SyncDnsResolves(policy.routeConfigs);
  }

  /** The job of the data plane: one sync of both tables. */
  method Run(plane: DataPlane, mesh: Mesh, dns: Dns)
    requires InStep(plane) && Ordinary(mesh)
    modifies plane
    ensures InStep(plane) && SyncStep(old(plane.Value()), plane.Value(), mesh, plane.bridge) && PointsTo(plane, dns)
  {
    PointEndpoints(plane, dns);
    ResolveHosts(plane, mesh);
    SyncStepKeeps(old(plane.Value()), plane.Value(), mesh, plane.bridge);
  }

  /** A UDP datagram for port 53 of `eip` with a standard query, and in it the one question A or AAAA for `host`. */
  predicate AsksFor(req: seq<Byte>, eip: Ip4, host: string, qtype: U16) {
    && |req| >= 54 && LoadBe16(req, 12) == 0x0800 && req[23] == 17 && req[30..34] == eip
    && LoadBe16(req, 36) == 53 && req[44] < 8
    && LoadBe16(req, 46) == 1 && LoadBe32(req, 50) == 0
    && ValidName(Labels(host)) && qtype in {1, 28} && HasQuestion(req, 54, Labels(host), qtype, 1)
  }

  /** End to end: after any number of syncs and one with the present mesh, a query to any DNS endpoint for any
      hostname without port of a service that is not plain TCP is sent back, if the packet can be resized, from
      the DNS service's cluster address, and decodes to the bridge address for that name with a lifetime of 60. */
  method MeshHostnameIsAnswered(plane: DataPlane, x: XdpContext, mesh: Mesh, dns: Dns, tailOk: bool,
                                ghost svc: MeshService, ghost host: string, ghost qtype: U16, ghost eip: string)
      returns (action: Action)
    requires InStep(plane) && Ordinary(mesh)
    requires svc in mesh.services && Answerable(svc) && host in Hostnames(svc, mesh.trustDomain) && ':' !in host
    requires eip in Ips(dns) && AsksFor(x.pkt, dns.ip4(eip), host, qtype)
    modifies plane, x
    ensures InStep(plane)
    ensures action == XDP_TX <==> tailOk
    ensures tailOk ==>
              && |x.pkt| > 42 && x.pkt[26..30] == dns.ip4(dns.clusterIp) && x.pkt[30..34] == old(x.pkt)[26..30]
              && Decode(x.pkt[42..]) == Some(AnswerFor(old(x.pkt), host, qtype, plane.bridge))
  {
    ghost var req := x.pkt;
    Run(plane, mesh, dns);
    PolicyHostsAre(mesh, host);
    assert Configs(mesh) != map[] && host in plane.dnsResolves;
    action := x.DnsProxy(plane.endpoints, plane.records, tailOk);
    CoveredHostIsAnswered(plane.Value(), plane.bridge, host, qtype, req, plane.endpoints, x.pkt);
  }
}
