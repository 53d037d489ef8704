/** What the cluster of a listed service reaches: from a hostname of the mesh to the addresses of an import. */
module Reach {
  import opened Words
  import opened Text
  import opened Services
  import opened Imports
  import opened Catalog
  import opened Routing
  import opened Meaning
  import opened Balance
  import opened Provider

  // ----- The informer's keys -----

  /** Imports are cached under namespace and name, neither of which holds a slash. */
  predicate Keyed(cache: Cache) {
    forall k <- cache.imports :: k == cache.imports[k].ns + "/" + cache.imports[k].name && '/' !in cache.imports[k].name
  }

  predicate Held(cache: Cache, imported: ServiceImport) {
    var k := imported.ns + "/" + imported.name;
    k in cache.imports && cache.imports[k] == imported
  }

  lemma {:induction false} LastPiece(s: string, sep: char)
    ensures var pieces := Split(s, sep);
            var last := pieces[|pieces| - 1];
            && (if sep in s then |last| < |s| else last == s)
            && forall c <- last :: c in s
    decreases |s|
  {
    var n := TokenLength(s, {sep});
    if n < |s| {
      LastPiece(s[n + 1..], sep);
      assert forall c <- s[n + 1..] :: c in s;
      assert s[n] == sep;
    }
  }

  lemma UndottedKey(svc: MeshService)
    requires '.' !in svc.name
    ensures NamespacedKey(svc) == svc.ns + "/" + svc.name && Subdomain(svc) == ""
  {
    SplitLast(svc.name, '.');
  }

  lemma {:induction false} FirstPortMatches(imported: ServiceImport, svc: MeshService, ports: seq<ImportedPort>)
    ensures var r := FirstPort(imported, svc, ports);
            r.Some? ==>
              && EqualFold(imported.name, svc.name)
              && exists p <- ports :: p.endpoints == r.value && r.value != []
    decreases |ports|
  {
    if ports != [] {
      FirstPortMatches(imported, svc, ports[1..]);
    }
  }

  /** A dotted import is looked up under its last component and so lists nothing. */
  lemma ListedIsUndotted(cache: Cache, imported: ServiceImport, k: KubeService, c: Chosen)
    requires Keyed(cache) && Held(cache, imported) && k.ns == imported.ns && k.name == imported.name
    requires c in ChosenFor(cache, Untargeted(k))
    ensures '.' !in imported.name
  {
    var svc := Untargeted(k);
    var found := cache.imports[NamespacedKey(svc)];
    LastPiece(svc.name, '.');
    FirstPortMatches(found, svc, found.ports);
    assert found.ns + "/" + found.name == svc.ns + "/" + ProviderKey(svc);
    LastSeparator(found.ns, found.name, svc.ns, ProviderKey(svc), '/');
    assert |Lower(found.name)| == |Lower(svc.name)|;
  }

  // ----- Which services there are -----

  /** The endpoints of the first port with endpoints that has that number, or any number for zero. */
  function FirstNumbered(ports: seq<ImportedPort>, number: U16): Option<seq<ImportedEndpoint>> {
    if ports == [] then None
    else if ports[0].endpoints != [] && (number == 0 || ports[0].port % 0x1_0000 == number) then
      Some(ports[0].endpoints)
    else FirstNumbered(ports[1..], number)
  }

  lemma {:induction false} FirstPortIs(imported: ServiceImport, svc: MeshService, ports: seq<ImportedPort>)
    requires svc.name == imported.name
    ensures FirstPort(imported, svc, ports) == FirstNumbered(ports, svc.port)
    decreases |ports|
  {
    if ports != [] {
      FirstPortIs(imported, svc, ports[1..]);
    }
  }

  /** Imported by name and under a policy that does not keep it local. */
  predicate IsExposed(cache: Cache, imported: ServiceImport) {
    var key := imported.ns + "/" + imported.name;
    '.' !in imported.name && key in cache.policies && cache.policies[key].lbType != LOCALITY
  }

  /** `s` stands for the endpoint `own` of a port and for one accepted endpoint `e` of the first port of that number. */
  predicate StandsFor(cache: Cache, imported: ServiceImport, port: ImportedPort, own: ImportedEndpoint,
                      e: ImportedEndpoint, s: MeshService) {
    && IsExposed(cache, imported) && port in imported.ports && own in port.endpoints
    && (var es := FirstNumbered(imported.ports, port.port % 0x1_0000); es.Some? && e in es.value)
    && Accepts(cache, imported, e)
    && s == MeshService(imported.ns, imported.name, port.port % 0x1_0000, e.port % 0x1_0000,
                        ProtocolOf(KubeService("", "", "", 0, port.name, port.appProtocol)), own.clusterKey)
  }

  lemma ServiceStandsFor(cache: Cache, imported: ServiceImport, s: MeshService)
      returns (port: ImportedPort, own: ImportedEndpoint, e: ImportedEndpoint)
    requires Keyed(cache) && Held(cache, imported) && Comes(cache, imported, s)
    ensures StandsFor(cache, imported, port, own, e, s)
  {
    var k :| Stands(cache, imported, k) && Gives(cache, k, s);
    var p, o :| p in imported.ports && o in p.endpoints && k == KubeOf(imported, p, o);
    var c :| c in ChosenFor(cache, Untargeted(k)) && s == Targeted(k, c);
    port, own, e := p, o, c.e;
    var svc := Untargeted(k);
    ListedIsUndotted(cache, imported, k, c);
    UndottedKey(svc);
    UndottedKey(ApexOf(imported));
    FirstPortIs(imported, svc, imported.ports);
    ChooseHas(svc, TargetWeights(ServicePolicy(cache, svc).targets), ImportedFor(cache, svc).value, c);
    AcceptsByKey(cache, imported, e);
  }

  lemma StandsForService(cache: Cache, imported: ServiceImport, port: ImportedPort, own: ImportedEndpoint,
                         e: ImportedEndpoint, s: MeshService)
    requires Held(cache, imported) && StandsFor(cache, imported, port, own, e, s)
    ensures Comes(cache, imported, s)
  {
    var k := KubeOf(imported, port, own);
    var svc := Untargeted(k);
    UndottedKey(svc);
    UndottedKey(ApexOf(imported));
    FirstPortIs(imported, svc, imported.ports);
    AcceptsByKey(cache, imported, e);
    var keys := TargetWeights(ServicePolicy(cache, svc).targets);
    var c := Chosen(e, WeightFor(keys, e));
    ChooseHas(svc, keys, ImportedFor(cache, svc).value, c);
    assert Stands(cache, imported, k) && s == Targeted(k, c);
  }

  /** Which services the imports contribute: for each endpoint of each port of an import that is not kept local, and
      for each accepted endpoint of the first port of the same number, one at the latter's port under the former's
      cluster. */
  lemma ServicesExactly(cache: Cache, imports: seq<ServiceImport>, s: MeshService)
    requires Keyed(cache) && forall imported <- imports :: Held(cache, imported)
    ensures s in AllMeshServices(cache, OfImports(cache, imports)) <==>
            exists imported <- imports, port, own, e :: StandsFor(cache, imported, port, own, e, s)
  {
    ListedExactly(cache, imports, s);
    if imported :| imported in imports && Comes(cache, imported, s) {
      var port, own, e := ServiceStandsFor(cache, imported, s);
    }
    if imported, port, own, e :| imported in imports && StandsFor(cache, imported, port, own, e, s) {
      StandsForService(cache, imported, port, own, e, s);
    }
  }

  // ----- Lookups -----

  /** The endpoints of a cluster as the balance policy looks them up: by namespace, name and target port. */
  function Looked(ns: string, name: string, targetPort: U16): MeshService {
    MeshService(ns, name, 0, targetPort, "", "")
  }

  function WeightFor(keys: map<string, int>, e: ImportedEndpoint): int
    requires keys != map[] ==> e.clusterKey in keys
  {
    if keys == map[] then 0 else keys[e.clusterKey]
  }

  lemma {:induction false} ChooseHas(svc: MeshService, keys: map<string, int>, es: seq<ImportedEndpoint>, c: Chosen)
    ensures c in Choose(svc, keys, es) <==> c.e in es && Keeps(svc, keys, c.e) && c.weight == WeightFor(keys, c.e)
    decreases |es|
  {
    if es != [] {
      var n := |es| - 1;
      ChooseHas(svc, keys, es[..n], c);
      assert es == es[..n] + [es[n]];
    }
  }

  lemma {:induction false} GatherHas(svc: MeshService, subsets: seq<Subset>, picks: seq<Endpoint>,
                                     validIp: string -> bool, ep: Endpoint)
    requires |subsets| == |picks|
    ensures ep in Gather(svc, subsets, picks, validIp) <==>
            exists i | 0 <= i < |subsets| :: Lists(svc, subsets[i], validIp) && ep == picks[i]
    decreases |subsets|
  {
    if subsets != [] {
      var n := |subsets| - 1;
      GatherHas(svc, subsets[..n], picks[..n], validIp, ep);
      assert forall i | 0 <= i < n :: subsets[..n][i] == subsets[i] && picks[..n][i] == picks[i];
    }
  }

  /** An endpoint passes both the controller's and the provider's filter. */
  predicate Passes(cache: Cache, svc: MeshService, e: ImportedEndpoint, validIp: string -> bool) {
    && Keeps(svc, TargetWeights(ServicePolicy(cache, svc).targets), e)
    && (svc.targetPort != 0 ==> e.port == svc.targetPort)
    && (Subdomain(svc) != "" ==> e.host == Subdomain(svc))
    && validIp(e.ip)
  }

  /** The last endpoint kept at the address and port of `e`, whose attributes are the ones read back there. */
  function LastKept(svc: MeshService, keys: map<string, int>, es: seq<ImportedEndpoint>,
                    e: ImportedEndpoint): (r: Option<Chosen>)
    ensures e in es && Keeps(svc, keys, e) ==> r.Some?
    ensures r.Some? ==>
              r.value.e in es && Keeps(svc, keys, r.value.e) && r.value.e.ip == e.ip && r.value.e.port == e.port
  {
    if es == [] then None
    else
      var n := |es| - 1;
      assert es == es[..n] + [es[n]];
      if Keeps(svc, keys, es[n]) && es[n].ip == e.ip && es[n].port == e.port then
        Some(Chosen(es[n], WeightFor(keys, es[n])))
      else LastKept(svc, keys, es[..n], e)
  }

  lemma {:induction false} LastKeptIs(svc: MeshService, keys: map<string, int>, es: seq<ImportedEndpoint>, i: nat)
    requires i < |Choose(svc, keys, es)|
    ensures var chosen := Choose(svc, keys, es);
            LastKept(svc, keys, es, chosen[i].e) == Some(chosen[LastTwin(chosen, i, |chosen|)])
    decreases |es|
  {
    var n := |es| - 1;
    var chosen, before := Choose(svc, keys, es), Choose(svc, keys, es[..n]);
    if i < |before| {
      LastKeptIs(svc, keys, es[..n], i);
      if Keeps(svc, keys, es[n]) && !Twins(chosen[i], chosen[|before|]) {
        SameTwin(before, chosen[|before|], i, |before|);
      }
    }
  }

  lemma {:induction false} SameTwin(chosen: seq<Chosen>, c: Chosen, i: nat, n: nat)
    requires i < n <= |chosen|
    ensures LastTwin(chosen + [c], i, n) == LastTwin(chosen, i, n)
  {
    if !Twins(chosen[i], chosen[n - 1]) {
      SameTwin(chosen, c, i, n - 1);
    }
  }

  /** How an endpoint is listed: with the attributes of the last one kept at its address and port. */
  function ReadAs(cache: Cache, svc: MeshService, es: seq<ImportedEndpoint>, e: ImportedEndpoint): Endpoint {
    var policy := ServicePolicy(cache, svc);
    var last := LastKept(svc, TargetWeights(policy.targets), es, e);
    OwnEndpoint(if last.Some? then last.value else Chosen(e, 0), policy.lbType)
  }

  lemma PickIs(cache: Cache, svc: MeshService, es: seq<ImportedEndpoint>, i: nat)
    requires i < |Choose(svc, TargetWeights(ServicePolicy(cache, svc).targets), es)|
    ensures var policy := ServicePolicy(cache, svc);
            var chosen := Choose(svc, TargetWeights(policy.targets), es);
            ReadAll(Annotations(chosen, policy.lbType), SubsetsOf(chosen))[i] == ReadAs(cache, svc, es, chosen[i].e)
  {
    var policy := ServicePolicy(cache, svc);
    var keys := TargetWeights(policy.targets);
    ReadBack(Choose(svc, keys, es), policy.lbType, i);
    LastKeptIs(svc, keys, es, i);
  }

  lemma ListedComesFrom(cache: Cache, svc: MeshService, es: seq<ImportedEndpoint>, validIp: string -> bool,
                        ep: Endpoint) returns (e: ImportedEndpoint)
    requires ImportedFor(cache, svc) == Some(es) && ep in Listed(cache, svc, validIp)
    ensures e in es && Passes(cache, svc, e, validIp) && ep == ReadAs(cache, svc, es, e)
  {
    var policy := ServicePolicy(cache, svc);
    var keys := TargetWeights(policy.targets);
    var chosen := Choose(svc, keys, es);
    var subsets := SubsetsOf(chosen);
    GatherHas(svc, subsets, ReadAll(Annotations(chosen, policy.lbType), subsets), validIp, ep);
    var i: nat :| i < |subsets| && Lists(svc, subsets[i], validIp)
        && ep == ReadAll(Annotations(chosen, policy.lbType), subsets)[i];
    PickIs(cache, svc, es, i);
    ChooseHas(svc, keys, es, chosen[i]);
    e := chosen[i].e;
  }

  lemma PassingIsListed(cache: Cache, svc: MeshService, es: seq<ImportedEndpoint>, validIp: string -> bool,
                        e: ImportedEndpoint)
    requires ImportedFor(cache, svc) == Some(es) && e in es && Passes(cache, svc, e, validIp)
    ensures ReadAs(cache, svc, es, e) in Listed(cache, svc, validIp)
  {
    var policy := ServicePolicy(cache, svc);
    var keys := TargetWeights(policy.targets);
    var chosen := Choose(svc, keys, es);
    var subsets := SubsetsOf(chosen);
    ChooseHas(svc, keys, es, Chosen(e, WeightFor(keys, e)));
    var i: nat :| i < |chosen| && chosen[i] == Chosen(e, WeightFor(keys, e));
    PickIs(cache, svc, es, i);
    GatherHas(svc, subsets, ReadAll(Annotations(chosen, policy.lbType), subsets), validIp, ReadAs(cache, svc, es, e));
  }

  /** The import's first port with endpoints. */
  function FirstOpen(ports: seq<ImportedPort>): Option<ImportedPort> {
    if ports == [] then None else if ports[0].endpoints != [] then Some(ports[0]) else FirstOpen(ports[1..])
  }

  lemma {:induction false} FirstOpenIs(imported: ServiceImport, svc: MeshService, ports: seq<ImportedPort>)
    requires svc.name == imported.name && svc.port == 0
    ensures FirstPort(imported, svc, ports)
            == match FirstOpen(ports) case None => None case Some(p) => Some(p.endpoints)
    decreases |ports|
  {
    if ports != [] {
      FirstOpenIs(imported, svc, ports[1..]);
    }
  }

  lemma {:induction false} FirstOpenSome(ports: seq<ImportedPort>)
    ensures FirstOpen(ports).Some? <==> exists p <- ports :: p.endpoints != []
    ensures FirstOpen(ports).Some? ==> FirstOpen(ports).value in ports && FirstOpen(ports).value.endpoints != []
    decreases |ports|
  {
    if ports != [] {
      FirstOpenSome(ports[1..]);
    }
  }

  lemma SourceOf(cache: Cache, imported: ServiceImport, s: MeshService)
      returns (port: ImportedPort, k: KubeService, c: Chosen)
    requires Comes(cache, imported, s)
    ensures !IsLocality(cache, ApexOf(imported)) && port in imported.ports && port.endpoints != []
    ensures k.ns == imported.ns && k.name == imported.name && k.port == port.port
    ensures c in ChosenFor(cache, Untargeted(k)) && s == Targeted(k, c)
  {
    k :| Stands(cache, imported, k) && Gives(cache, k, s);
    var p, e :| p in imported.ports && e in p.endpoints && k == KubeOf(imported, p, e);
    port := p;
    c :| c in ChosenFor(cache, Untargeted(k)) && s == Targeted(k, c);
  }

  /** A lookup without a port is served from the first port with endpoints. */
  lemma LookedImported(cache: Cache, imported: ServiceImport, q: MeshService)
    requires Held(cache, imported) && !IsLocality(cache, ApexOf(imported)) && FirstOpen(imported.ports).Some?
    requires '.' !in q.name && q.ns == imported.ns && q.name == imported.name && q.port == 0
    ensures ImportedFor(cache, q) == Some(FirstOpen(imported.ports).value.endpoints)
    ensures ServicePolicy(cache, q) == ServicePolicy(cache, ApexOf(imported))
  {
    UndottedKey(q);
    UndottedKey(ApexOf(imported));
    FirstOpenIs(imported, q, imported.ports);
  }

  /** The policy has no targets, or one of them is the endpoint's cluster. */
  predicate Accepts(cache: Cache, imported: ServiceImport, e: ImportedEndpoint) {
    var targets := ServicePolicy(cache, ApexOf(imported)).targets;
    targets == [] || exists t <- targets :: t.clusterKey == e.clusterKey
  }

  lemma AcceptsByKey(cache: Cache, imported: ServiceImport, e: ImportedEndpoint)
    ensures var keys := TargetWeights(ServicePolicy(cache, ApexOf(imported)).targets);
            Accepts(cache, imported, e) <==> (keys != map[] ==> e.clusterKey in keys)
  {
    var targets := ServicePolicy(cache, ApexOf(imported)).targets;
    TargetWeightsAre(targets, e.clusterKey);
    if targets != [] {
      TargetWeightsAre(targets, targets[0].clusterKey);
      assert targets[0] in targets;
    }
  }

  /** An accepted endpoint with an address that parses, at the target port if there is one. */
  predicate Suits(cache: Cache, imported: ServiceImport, e: ImportedEndpoint, targetPort: U16,
                  validIp: string -> bool) {
    Accepts(cache, imported, e) && validIp(e.ip) && (targetPort > 0 ==> e.port == targetPort)
  }

  lemma PassesIfSuits(cache: Cache, imported: ServiceImport, q: MeshService, e: ImportedEndpoint,
                      validIp: string -> bool)
    requires '.' !in q.name && ServicePolicy(cache, q) == ServicePolicy(cache, ApexOf(imported))
    ensures Passes(cache, q, e, validIp) <==> Suits(cache, imported, e, q.targetPort, validIp)
  {
    UndottedKey(q);
    AcceptsByKey(cache, imported, e);
  }

  /** What the lookup of a listed service's cluster is made from. */
  lemma LookupSource(cache: Cache, imported: ServiceImport, s: MeshService)
    requires Keyed(cache) && Held(cache, imported) && Comes(cache, imported, s)
    ensures FirstOpen(imported.ports).Some? && '.' !in s.name && s.ns == imported.ns && s.name == imported.name
    ensures var q := Looked(s.ns, s.name, s.targetPort);
            && ImportedFor(cache, q) == Some(FirstOpen(imported.ports).value.endpoints)
            && ServicePolicy(cache, q) == ServicePolicy(cache, ApexOf(imported))
  {
    var port, k, c := SourceOf(cache, imported, s);
    ListedIsUndotted(cache, imported, k, c);
    FirstOpenSome(imported.ports);
    LookedImported(cache, imported, Looked(s.ns, s.name, s.targetPort));
  }

  /** What the lookup of a listed service's cluster finds: the fitting endpoints of the import's first port with
      endpoints, whatever the service's own port, each as it is listed. */
  lemma FoundExactly(cache: Cache, imported: ServiceImport, s: MeshService, validIp: string -> bool, ep: Endpoint)
    requires Keyed(cache) && Held(cache, imported) && Comes(cache, imported, s)
    ensures FirstOpen(imported.ports).Some?
    ensures var q, es := Looked(s.ns, s.name, s.targetPort), FirstOpen(imported.ports).value.endpoints;
            ep in Listed(cache, q, validIp) <==>
            exists e <- es :: Suits(cache, imported, e, s.targetPort, validIp) && ep == ReadAs(cache, q, es, e)
  {
    LookupSource(cache, imported, s);
    var q, es := Looked(s.ns, s.name, s.targetPort), FirstOpen(imported.ports).value.endpoints;
    if ep in Listed(cache, q, validIp) {
      var e := ListedComesFrom(cache, q, es, validIp, ep);
      PassesIfSuits(cache, imported, q, e, validIp);
    }
    if e :| e in es && Suits(cache, imported, e, s.targetPort, validIp) && ep == ReadAs(cache, q, es, e) {
      PassesIfSuits(cache, imported, q, e, validIp);
      PassingIsListed(cache, q, es, validIp, e);
    }
  }

  /** No two endpoints at one address and port. */
  predicate Distinct(es: seq<ImportedEndpoint>) {
    forall a <- es, b <- es :: a.ip == b.ip && a.port == b.port ==> a == b
  }

  /** An endpoint with all its attributes: the balancing type of the policy, and the weight of its cluster's last
      target, within 32 bits. */
  predicate IsImage(policy: TrafficPolicy, e: ImportedEndpoint, ep: Endpoint) {
    && ep.ip == e.ip && ep.port == e.port && ep.clusterKey == e.clusterKey && ep.path == e.path
    && ep.lbType == policy.lbType
    && (policy.targets == [] ==> ep.weight == 0)
    && forall i: nat | i < |policy.targets| && IsLastFor(policy.targets, e.clusterKey, i) ::
         var w := match policy.targets[i].weight case Some(w) => w case None => 0;
         ep.weight == if w < 0 then 0 else if w > 0xffff_ffff then 0xffff_ffff else w
  }

  lemma LastForIsUnique(targets: seq<LbTarget>, key: string, i: nat, j: nat)
    requires i < |targets| && j < |targets| && IsLastFor(targets, key, i) && IsLastFor(targets, key, j)
    ensures i == j
  {}

  lemma ReadAsImage(cache: Cache, svc: MeshService, es: seq<ImportedEndpoint>, e: ImportedEndpoint)
    requires Distinct(es) && e in es && Keeps(svc, TargetWeights(ServicePolicy(cache, svc).targets), e)
    ensures IsImage(ServicePolicy(cache, svc), e, ReadAs(cache, svc, es, e))
  {
    var policy := ServicePolicy(cache, svc);
    var keys := TargetWeights(policy.targets);
    var last := LastKept(svc, keys, es, e).value;
    assert last.e == e;
    LastKeptWeight(svc, keys, es, e);
    TargetWeightsAre(policy.targets, e.clusterKey);
    if policy.targets != [] {
      TargetWeightsAre(policy.targets, policy.targets[0].clusterKey);
      assert policy.targets[0] in policy.targets;
    }
    forall i: nat | i < |policy.targets| && IsLastFor(policy.targets, e.clusterKey, i)
      ensures last.weight == match policy.targets[i].weight case Some(w) => w case None => 0
    {
      assert policy.targets[i] in policy.targets;
      var j: nat :| j < |policy.targets| && IsLastFor(policy.targets, e.clusterKey, j) &&
        keys[e.clusterKey] == match policy.targets[j].weight case Some(w) => w case None => 0;
      LastForIsUnique(policy.targets, e.clusterKey, i, j);
    }
  }

  lemma {:induction false} LastKeptWeight(svc: MeshService, keys: map<string, int>, es: seq<ImportedEndpoint>,
                                          e: ImportedEndpoint)
    ensures var last := LastKept(svc, keys, es, e);
            last.Some? ==> (keys != map[] ==> last.value.e.clusterKey in keys) &&
                           last.value.weight == WeightFor(keys, last.value.e)
    decreases |es|
  {
    if es != [] {
      LastKeptWeight(svc, keys, es[..|es| - 1], e);
    }
  }

  /** With distinct addresses and ports, the endpoints found for a listed service's cluster are the fitting ones with
      their own attributes. */
  lemma FoundAttributes(cache: Cache, imported: ServiceImport, s: MeshService, validIp: string -> bool, ep: Endpoint)
    requires Keyed(cache) && Held(cache, imported) && Comes(cache, imported, s)
    requires FirstOpen(imported.ports).Some? && Distinct(FirstOpen(imported.ports).value.endpoints)
    ensures var policy := ServicePolicy(cache, ApexOf(imported));
            ep in Listed(cache, Looked(s.ns, s.name, s.targetPort), validIp) <==>
            exists e <- FirstOpen(imported.ports).value.endpoints ::
              Suits(cache, imported, e, s.targetPort, validIp) && IsImage(policy, e, ep)
  {
    FoundExactly(cache, imported, s, validIp, ep);
    LookupSource(cache, imported, s);
    var q, es := Looked(s.ns, s.name, s.targetPort), FirstOpen(imported.ports).value.endpoints;
    if ep in Listed(cache, q, validIp) {
      var e :| e in es && Suits(cache, imported, e, s.targetPort, validIp) && ep == ReadAs(cache, q, es, e);
      PassesIfSuits(cache, imported, q, e, validIp);
      ReadAsImage(cache, q, es, e);
    }
    var policy := ServicePolicy(cache, ApexOf(imported));
    if e :| e in es && Suits(cache, imported, e, s.targetPort, validIp) && IsImage(policy, e, ep) {
      PassesIfSuits(cache, imported, q, e, validIp);
      ReadAsImage(cache, q, es, e);
      ImageIsUnique(policy, e, ep, ReadAs(cache, q, es, e));
    }
  }

  lemma ImageIsUnique(policy: TrafficPolicy, e: ImportedEndpoint, a: Endpoint, b: Endpoint)
    requires IsImage(policy, e, a) && IsImage(policy, e, b)
    requires policy.targets == [] || exists t <- policy.targets :: t.clusterKey == e.clusterKey
    ensures a == b
  {
    if policy.targets != [] {
      TargetWeightsAre(policy.targets, e.clusterKey);
      var i: nat :| i < |policy.targets| && IsLastFor(policy.targets, e.clusterKey, i);
    }
  }

  /** So the addresses found are those of the fitting endpoints. */
  lemma LookupExactly(cache: Cache, imported: ServiceImport, s: MeshService, validIp: string -> bool, ip: string)
    requires Keyed(cache) && Held(cache, imported) && Comes(cache, imported, s)
    ensures FirstOpen(imported.ports).Some?
    ensures (exists ep <- Listed(cache, Looked(s.ns, s.name, s.targetPort), validIp) :: ep.ip == ip) <==>
            exists e <- FirstOpen(imported.ports).value.endpoints ::
              Suits(cache, imported, e, s.targetPort, validIp) && e.ip == ip
  {
    LookupSource(cache, imported, s);
    var q, es := Looked(s.ns, s.name, s.targetPort), FirstOpen(imported.ports).value.endpoints;
    if ep :| ep in Listed(cache, q, validIp) && ep.ip == ip {
      FoundExactly(cache, imported, s, validIp, ep);
    }
    if e :| e in es && Suits(cache, imported, e, s.targetPort, validIp) && e.ip == ip {
      FoundExactly(cache, imported, s, validIp, ReadAs(cache, q, es, e));
    }
  }

  ghost predicate Reaches(cache: Cache, imported: ServiceImport, targetPort: U16, validIp: string -> bool) {
    FirstOpen(imported.ports).Some? &&
    exists e <- FirstOpen(imported.ports).value.endpoints :: Suits(cache, imported, e, targetPort, validIp)
  }

  /** So it finds something exactly when one fits. */
  lemma ServedExactly(cache: Cache, imported: ServiceImport, s: MeshService, validIp: string -> bool)
    requires Keyed(cache) && Held(cache, imported) && Comes(cache, imported, s)
    ensures Listed(cache, Looked(s.ns, s.name, s.targetPort), validIp) != [] <==>
            Reaches(cache, imported, s.targetPort, validIp)
  {
    var found := Listed(cache, Looked(s.ns, s.name, s.targetPort), validIp);
    if found != [] {
      LookupExactly(cache, imported, s, validIp, found[0].ip);
      assert found[0] in found;
    }
    if Reaches(cache, imported, s.targetPort, validIp) {
      var e :| e in FirstOpen(imported.ports).value.endpoints && Suits(cache, imported, e, s.targetPort, validIp);
      LookupExactly(cache, imported, s, validIp, e.ip);
    }
  }

  // ----- Single-port imports -----

  predicate SinglePort(imported: ServiceImport) {
    forall i, j | 0 <= i < |imported.ports| && 0 <= j < |imported.ports| ::
      imported.ports[i].endpoints != [] && imported.ports[j].endpoints != [] ==> i == j
  }

  /** Ports that are ports, and addresses that parse. */
  predicate Sane(imported: ServiceImport, validIp: string -> bool) {
    forall p <- imported.ports, e <- p.endpoints :: e.port < 0x1_0000 && validIp(e.ip)
  }

  lemma ChosenIsImported(cache: Cache, imported: ServiceImport, k: KubeService, c: Chosen) returns (p: ImportedPort)
    requires Keyed(cache) && Held(cache, imported) && k.ns == imported.ns && k.name == imported.name
    requires c in ChosenFor(cache, Untargeted(k))
    ensures p in imported.ports && c.e in p.endpoints && Accepts(cache, imported, c.e)
  {
    var svc := Untargeted(k);
    ListedIsUndotted(cache, imported, k, c);
    UndottedKey(svc);
    UndottedKey(ApexOf(imported));
    var es := FirstPort(imported, svc, imported.ports).value;
    FirstPortMatches(imported, svc, imported.ports);
    p :| p in imported.ports && p.endpoints == es;
    ChooseHas(svc, TargetWeights(ServicePolicy(cache, svc).targets), es, c);
    AcceptsByKey(cache, imported, c.e);
  }

  lemma SinglePortIsFirst(imported: ServiceImport, p: ImportedPort)
    requires SinglePort(imported) && p in imported.ports && p.endpoints != []
    ensures FirstOpen(imported.ports) == Some(p)
  {
    FirstOpenSome(imported.ports);
    var i :| 0 <= i < |imported.ports| && imported.ports[i] == p;
    var j :| 0 <= j < |imported.ports| && imported.ports[j] == FirstOpen(imported.ports).value;
  }

  lemma ChosenReaches(cache: Cache, imported: ServiceImport, k: KubeService, c: Chosen, validIp: string -> bool)
    requires Keyed(cache) && Held(cache, imported) && Sane(imported, validIp) && SinglePort(imported)
    requires k.ns == imported.ns && k.name == imported.name && c in ChosenFor(cache, Untargeted(k))
    ensures Reaches(cache, imported, c.e.port % 0x1_0000, validIp)
  {
    var p := ChosenIsImported(cache, imported, k, c);
    SinglePortIsFirst(imported, p);
    assert Suits(cache, imported, c.e, c.e.port, validIp);
  }

  /** With one port that has endpoints, every listed service's cluster finds an endpoint. */
  lemma SinglePortIsServed(cache: Cache, imported: ServiceImport, s: MeshService, validIp: string -> bool)
    requires Keyed(cache) && Held(cache, imported) && Sane(imported, validIp) && SinglePort(imported)
    requires Comes(cache, imported, s)
    ensures Listed(cache, Looked(s.ns, s.name, s.targetPort), validIp) != []
  {
    var port, k, c := SourceOf(cache, imported, s);
    ChosenReaches(cache, imported, k, c, validIp);
    ServedExactly(cache, imported, s, validIp);
  }

  function Lookup(cache: Cache, validIp: string -> bool): (string, string, U16) -> seq<Endpoint> {
    (ns: string, name: string, targetPort: U16) => Listed(cache, Looked(ns, name, targetPort), validIp)
  }

  /** A mesh of services from single-port imports is always ready: every cluster its routes depend on has
      endpoints. */
  lemma SinglePortMeshIsReady(cache: Cache, trustDomain: string, imports: seq<ServiceImport>,
                              services: seq<MeshService>, validIp: string -> bool)
    requires Keyed(cache) && forall s <- services :: PlainService(s)
    requires forall imported <- imports :: Held(cache, imported) && Sane(imported, validIp) && SinglePort(imported)
    requires services == AllMeshServices(cache, OfImports(cache, imports))
    ensures var policy := PolicyOf(cache, trustDomain, services);
            && (forall m <- policy.matches :: Parses(m))
            && forall n <- Depends(policy, policy.matches) :: Served(policy.clusterConfigs, Lookup(cache, validIp), n)
  {
    forall s | s in services
      ensures Lookup(cache, validIp)(s.ns, s.name, s.targetPort) != []
    {
      ListedExactly(cache, imports, s);
      var imported :| imported in imports && Comes(cache, imported, s);
      SinglePortIsServed(cache, imported, s, validIp);
    }
    ReadyMeansEndpoints(cache, trustDomain, services, Lookup(cache, validIp));
  }

  /** A second port whose target port the first does not have is listed and then finds no endpoint: such an
      import keeps the mesh from ever being ready. */
  lemma SecondPortIsNotServed(cache: Cache, imported: ServiceImport, s: MeshService, validIp: string -> bool)
    requires Keyed(cache) && Held(cache, imported) && Comes(cache, imported, s) && s.targetPort > 0
             && |imported.ports| > 0
    requires imported.ports[0].endpoints != [] && forall e <- imported.ports[0].endpoints :: e.port != s.targetPort
    ensures Listed(cache, Looked(s.ns, s.name, s.targetPort), validIp) == []
  {
    ServedExactly(cache, imported, s, validIp);
  }

  lemma SecondPortComes(cache: Cache, imported: ServiceImport) returns (s: MeshService)
    requires Keyed(cache) && Held(cache, imported) && '.' !in imported.name && |imported.ports| == 2
    requires !IsLocality(cache, ApexOf(imported)) && ServicePolicy(cache, ApexOf(imported)).targets == []
    requires |imported.ports[1].endpoints| == 1
    requires 0 < imported.ports[1].port % 0x1_0000 != imported.ports[0].port % 0x1_0000
    ensures Comes(cache, imported, s) && s.targetPort == imported.ports[1].endpoints[0].port % 0x1_0000
  {
    var port := imported.ports[1];
    var e := port.endpoints[0];
    var k := KubeOf(imported, port, e);
    var svc := Untargeted(k);
    UndottedKey(svc);
    UndottedKey(ApexOf(imported));
    assert imported.ports[1..][0] == port;
    assert FirstPort(imported, svc, imported.ports) == Some(port.endpoints);
    var c := Chosen(e, 0);
    ChooseHas(svc, map[], port.endpoints, c);
    s := Targeted(k, c);
    assert Stands(cache, imported, k);
  }

  /** Such imports exist: two ports with one endpoint each, at different target ports. */
  lemma SecondPortIsListed(cache: Cache, imported: ServiceImport, validIp: string -> bool) returns (s: MeshService)
    requires Keyed(cache) && Held(cache, imported) && '.' !in imported.name && |imported.ports| == 2
    requires !IsLocality(cache, ApexOf(imported)) && ServicePolicy(cache, ApexOf(imported)).targets == []
    requires |imported.ports[0].endpoints| == |imported.ports[1].endpoints| == 1
    requires 0 < imported.ports[1].port % 0x1_0000 != imported.ports[0].port % 0x1_0000
    requires 0 < imported.ports[1].endpoints[0].port < 0x1_0000
    requires imported.ports[0].endpoints[0].port != imported.ports[1].endpoints[0].port
    ensures Comes(cache, imported, s) && Listed(cache, Looked(s.ns, s.name, s.targetPort), validIp) == []
  {
    s := SecondPortComes(cache, imported);
    var first := imported.ports[0].endpoints;
    assert forall e <- first :: e == first[0];
    SecondPortIsNotServed(cache, imported, s, validIp);
  }

  // ----- From a hostname to addresses -----

  /** The first service of a cluster's name, whose ports the cluster's endpoints are reached on. */
  function FirstNamed(services: seq<MeshService>, cluster: string): (r: Option<MeshService>)
    ensures r.Some? <==> exists s <- services :: ClusterName(s) == cluster
    ensures r.Some? ==> r.value in services && ClusterName(r.value) == cluster
  {
    if services == [] then None
    else if ClusterName(services[0]) == cluster then Some(services[0])
    else FirstNamed(services[1..], cluster)
  }

  lemma {:induction false} FirstConfigIs(configs: seq<ClusterConfig>, services: seq<MeshService>, cluster: string)
    requires |configs| == |services|
    requires forall i | 0 <= i < |services| :: configs[i] == ClusterConfig(ClusterName(services[i]), services[i])
    ensures var first := FirstNamed(services, cluster);
            FirstConfig(configs, cluster) == if first.Some? then Some(ClusterConfig(cluster, first.value)) else None
    decreases |services|
  {
    if services != [] {
      FirstConfigIs(configs[1..], services[1..], cluster);
    }
  }

  /** How a fitting endpoint appears in the entry of the service's cluster: its address, unless that has a port already,
      with the target port, or with the service's own port if it was exported without a cluster key. */
  function ReachedAt(cache: Cache, services: seq<MeshService>, imported: ServiceImport, s: MeshService,
                     e: ImportedEndpoint): string
    requires s in services && FirstOpen(imported.ports).Some?
  {
    var q, es := Looked(s.ns, s.name, s.targetPort), FirstOpen(imported.ports).value.endpoints;
    EntryKey(FirstNamed(services, ClusterName(s)).value, ReadAs(cache, q, es, e))
  }

  predicate IsReached(cache: Cache, services: seq<MeshService>, imported: ServiceImport, s: MeshService,
                      validIp: string -> bool, e: ImportedEndpoint, key: string)
    requires s in services && FirstOpen(imported.ports).Some?
  {
    Suits(cache, imported, e, s.targetPort, validIp) && key == ReachedAt(cache, services, imported, s, e)
  }

  lemma EntryIs(cache: Cache, trustDomain: string, services: seq<MeshService>, s: MeshService, validIp: string -> bool)
    requires PlainService(s) && s in services
    ensures EntryFor(PolicyOf(cache, trustDomain, services).clusterConfigs, Lookup(cache, validIp), ClusterName(s))
            == Some(EndpointMap(FirstNamed(services, ClusterName(s)).value,
                                Listed(cache, Looked(s.ns, s.name, s.targetPort), validIp)))
  {
    PolicyMatches(cache, trustDomain, services);
    FirstConfigIs(PolicyOf(cache, trustDomain, services).clusterConfigs, services, ClusterName(s));
    ClusterNameRoundTrip(s);
  }

  /** The last leg: the entry of a listed service's cluster holds exactly the fitting endpoints of its import. */
  lemma ClusterReaches(cache: Cache, trustDomain: string, services: seq<MeshService>, imported: ServiceImport,
                       s: MeshService, validIp: string -> bool, key: string)
    requires PlainService(s) && s in services
    requires Keyed(cache) && Held(cache, imported) && Comes(cache, imported, s)
    ensures FirstOpen(imported.ports).Some?
    ensures var configs := PolicyOf(cache, trustDomain, services).clusterConfigs;
            var entry := EntryFor(configs, Lookup(cache, validIp), ClusterName(s));
            entry.Some? &&
            (key in entry.value <==>
             exists e <- FirstOpen(imported.ports).value.endpoints ::
               IsReached(cache, services, imported, s, validIp, e, key))
  {
    LookupSource(cache, imported, s);
    EntryIs(cache, trustDomain, services, s, validIp);
    var q, es := Looked(s.ns, s.name, s.targetPort), FirstOpen(imported.ports).value.endpoints;
    var eps, svc := Listed(cache, q, validIp), FirstNamed(services, ClusterName(s)).value;
    EndpointMapKeys(svc, eps, key);
    if ep :| ep in eps && key == EntryKey(svc, ep) {
      FoundExactly(cache, imported, s, validIp, ep);
    }
    if e :| e in es && IsReached(cache, services, imported, s, validIp, e, key) {
      FoundExactly(cache, imported, s, validIp, ReadAs(cache, q, es, e));
    }
  }

  /** Where all of an import's endpoints carry a cluster key, that is their address at the target port. */
  lemma ReachedAtTargetPort(cache: Cache, services: seq<MeshService>, imported: ServiceImport, s: MeshService,
                            e: ImportedEndpoint)
    requires (forall t <- services :: PlainService(t)) && s in services && s.targetPort > 0
    requires FirstOpen(imported.ports).Some? && e in FirstOpen(imported.ports).value.endpoints
    requires forall x <- FirstOpen(imported.ports).value.endpoints :: x.clusterKey != ""
    ensures ReachedAt(cache, services, imported, s, e)
            == if EndsWithPort(e.ip) then e.ip else e.ip + ":" + Decimal(s.targetPort)
  {
    ClusterNameInjective(FirstNamed(services, ClusterName(s)).value, s);
  }

  /** From end to end of the traffic policy: a request for any hostname of a listed HTTP service finds its rule, the
      rule's wildcard its cluster, and the cluster's entry in the balanced configuration exactly those endpoints. */
  lemma RequestReaches(cache: Cache, trustDomain: string, services: seq<MeshService>, clusters: map<string, Endpoints>,
                       imported: ServiceImport, s: MeshService, host: string, validIp: string -> bool, key: string)
    requires (forall t <- services :: PlainService(t)) && s in services
    requires HttpService(s) && host in Hostnames(s, trustDomain)
    requires Keyed(cache) && Held(cache, imported) && Comes(cache, imported, s)
    requires IsBalancedMesh(cache, trustDomain, services, clusters, validIp)
    ensures var out := Config(cache, trustDomain, services);
            && HttpKey(s) in out && host in out[HttpKey(s)].hosts
            && HasTarget(RulesAt(out[HttpKey(s)], out[HttpKey(s)].hosts[host]), WILDCARD_RULE, ClusterName(s))
    ensures FirstOpen(imported.ports).Some? && ClusterName(s) in clusters
    ensures key in clusters[ClusterName(s)] <==>
            exists e <- FirstOpen(imported.ports).value.endpoints ::
              IsReached(cache, services, imported, s, validIp, e, key)
  {
    ConfigParses(cache, trustDomain, services);
    var policy := PolicyOf(cache, trustDomain, services);
    ServiceIsRouted(cache, trustDomain, services, s, host);
    DependsAreReferenced(policy, policy.matches, ClusterName(s));
    ClusterReaches(cache, trustDomain, services, imported, s, validIp, key);
  }

  /** The clusters of the configuration are the balanced ones of the mesh's dependencies. */
  ghost predicate IsBalancedMesh(cache: Cache, trustDomain: string, services: seq<MeshService>,
                                 clusters: map<string, Endpoints>, validIp: string -> bool)
    requires forall s <- services :: PlainService(s)
  {
    ConfigParses(cache, trustDomain, services);
    var policy := PolicyOf(cache, trustDomain, services);
    IsBalanced(clusters, policy.clusterConfigs, Depends(policy, policy.matches).Keys, Lookup(cache, validIp))
  }
}
