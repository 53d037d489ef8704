/** Services imported from other clusters: which endpoints a service has, and how their attributes travel
    from the multi-cluster controller to the endpoint provider as string annotations. */
module Imports {
  import opened Words
  import opened Text
  import opened Services

  const ACTIVE_ACTIVE := "ActiveActive"
  const LOCALITY := "Locality"
  const FAIL_OVER := "FailOver"

  datatype LbTarget = LbTarget(clusterKey: string, weight: Option<int>)

  datatype TrafficPolicy = TrafficPolicy(lbType: string, targets: seq<LbTarget>)

  datatype ImportedEndpoint = ImportedEndpoint(clusterKey: string, ip: string, port: nat, host: string, path: string)

  datatype ImportedPort = ImportedPort(port: nat, name: string, appProtocol: Option<string>,
                                       endpoints: seq<ImportedEndpoint>)

  datatype ServiceImport = ServiceImport(ns: string, name: string, ports: seq<ImportedPort>)

  /** The informer caches, keyed by namespace and name. */
  datatype Cache = Cache(imports: map<string, ServiceImport>, policies: map<string, TrafficPolicy>)

  datatype Subset = Subset(ip: string, host: string, port: nat)

  datatype KubeEndpoints = KubeEndpoints(annotations: map<string, string>, subsets: seq<Subset>)

  datatype Endpoint = Endpoint(ip: string, port: nat, clusterKey: string, lbType: string, weight: U32, path: string)

  // ----- Traffic policy -----

  function WeightOf(t: LbTarget): int {
    if t.weight.Some? then t.weight.value else 0
  }

  /** The weight of each cluster key: that of its last target. */
  function TargetWeights(targets: seq<LbTarget>): map<string, int> {
    if targets == [] then map[]
    else
      var last := targets[|targets| - 1];
      TargetWeights(targets[..|targets| - 1])[last.clusterKey := WeightOf(last)]
  }

  /** Exactly the keys of the targets have a weight: that of the last target of the key, zero if it has none. */
  lemma {:induction false} TargetWeightsAre(targets: seq<LbTarget>, key: string)
    ensures key in TargetWeights(targets) <==> exists t <- targets :: t.clusterKey == key
    ensures key in TargetWeights(targets) ==>
              exists i: nat | i < |targets| :: IsLastFor(targets, key, i) &&
                TargetWeights(targets)[key] == match targets[i].weight case Some(w) => w case None => 0
    decreases |targets|
  {
    if targets != [] {
      var n := |targets| - 1;
      TargetWeightsAre(targets[..n], key);
      assert targets == targets[..n] + [targets[n]];
      if targets[n].clusterKey == key {
        assert IsLastFor(targets, key, n);
      } else if key in TargetWeights(targets[..n]) {
        var i: nat :| i < n && IsLastFor(targets[..n], key, i) &&
          TargetWeights(targets[..n])[key] == match targets[..n][i].weight case Some(w) => w case None => 0;
        assert IsLastFor(targets, key, i);
      }
    }
  }

  predicate IsLastFor(targets: seq<LbTarget>, key: string, i: nat)
    requires i < |targets|
  {
    targets[i].clusterKey == key && forall j | i < j < |targets| :: targets[j].clusterKey != key
  }

  function ServicePolicy(cache: Cache, svc: MeshService): TrafficPolicy {
    var key := NamespacedKey(svc);
    if key in cache.policies then cache.policies[key] else TrafficPolicy(LOCALITY, [])
  }

  method GetServiceTrafficPolicy(cache: Cache, svc: MeshService) returns (lbType: string, clusterKeys: map<string, int>)
    ensures lbType == ServicePolicy(cache, svc).lbType
    ensures clusterKeys == TargetWeights(ServicePolicy(cache, svc).targets)
  {
    clusterKeys := map[];
    if NamespacedKey(svc) in cache.policies {
      var policy := cache.policies[NamespacedKey(svc)];
      lbType := policy.lbType;
      for i := 0 to |policy.targets|
        invariant clusterKeys == TargetWeights(policy.targets[..i])
      {
        var lbt := policy.targets[i];
        assert policy.targets[..i + 1][..i] == policy.targets[..i];
        if lbt.weight.Some? {
          clusterKeys := clusterKeys[lbt.clusterKey := lbt.weight.value];
        } else {
          clusterKeys := clusterKeys[lbt.clusterKey := 0];
        }
      }
      assert policy.targets[..|policy.targets|] == policy.targets;
      return;
    }
    lbType := LOCALITY;
  }

  // ----- Annotations -----

  datatype Kind = ClusterKey | ContextPath | LBType | LBWeight

  function KindText(kind: Kind): string {
    match kind
    case ClusterKey => "ClusterKey"
    case ContextPath => "ContextPath"
    case LBType => "LBType"
    case LBWeight => "LBWeight"
  }

  const ANNOTATION_PREFIX := "flomesh.io/ServiceImport/"

  function AnnotationKey(kind: Kind, ip: string, port: nat): string {
    ANNOTATION_PREFIX + (KindText(kind) + "/" + (ip + ['/'] + Decimal(port)))
  }

  lemma PrefixCancels(prefix: string, a: string, b: string)
    requires prefix + a == prefix + b
    ensures a == b
  {
    assert a == (prefix + a)[|prefix|..] && b == (prefix + b)[|prefix|..];
  }

  lemma KindInjective(a: Kind, b: Kind, restA: string, restB: string)
    requires KindText(a) + "/" + restA == KindText(b) + "/" + restB
    ensures a == b && restA == restB
  {
    var s := KindText(a) + "/" + restA;
    assert s[0] == KindText(a)[0] == KindText(b)[0];
    assert s[1] == KindText(a)[1] == KindText(b)[1];
    assert s[2] == KindText(a)[2] == KindText(b)[2];
    assert KindText(a) == KindText(b);
    assert restA == s[|KindText(a)| + 1..] && restB == s[|KindText(b)| + 1..];
  }

  /** Annotations of different kinds, addresses or ports never collide. */
  lemma AnnotationKeyInjective(k: Kind, ip: string, port: nat, k': Kind, ip': string, port': nat)
    requires AnnotationKey(k, ip, port) == AnnotationKey(k', ip', port')
    ensures k == k' && ip == ip' && port == port'
  {
    var rest, rest' := ip + ['/'] + Decimal(port), ip' + ['/'] + Decimal(port');
    PrefixCancels(ANNOTATION_PREFIX, KindText(k) + "/" + rest, KindText(k') + "/" + rest');
    KindInjective(k, k', rest, rest');
    DecimalSuffixInjective(ip, port, ip', port', '/');
  }

  /** An endpoint that passed the controller's filters, with its weight. */
  datatype Chosen = Chosen(e: ImportedEndpoint, weight: int)

  function Attribute(kind: Kind, c: Chosen, lbType: string): string {
    match kind
    case ClusterKey => c.e.clusterKey
    case ContextPath => c.e.path
    case LBType => lbType
    case LBWeight => DecimalInt(c.weight)
  }

  function Annotate(annotations: map<string, string>, c: Chosen, lbType: string): map<string, string> {
    annotations[AnnotationKey(ClusterKey, c.e.ip, c.e.port) := Attribute(ClusterKey, c, lbType)]
               [AnnotationKey(ContextPath, c.e.ip, c.e.port) := Attribute(ContextPath, c, lbType)]
               [AnnotationKey(LBType, c.e.ip, c.e.port) := Attribute(LBType, c, lbType)]
               [AnnotationKey(LBWeight, c.e.ip, c.e.port) := Attribute(LBWeight, c, lbType)]
  }

  function Annotations(chosen: seq<Chosen>, lbType: string): map<string, string> {
    if chosen == [] then map[]
    else Annotate(Annotations(chosen[..|chosen| - 1], lbType), chosen[|chosen| - 1], lbType)
  }

  /** Whether the controller keeps an endpoint for a service. */
  predicate Keeps(svc: MeshService, keys: map<string, int>, e: ImportedEndpoint) {
    && (svc.targetPort > 0 ==> svc.targetPort == e.port % 0x1_0000)
    && (keys != map[] ==> e.clusterKey in keys)
  }

  function Choose(svc: MeshService, keys: map<string, int>, es: seq<ImportedEndpoint>): seq<Chosen> {
    if es == [] then []
    else
      var e := es[|es| - 1];
      var before := Choose(svc, keys, es[..|es| - 1]);
      if Keeps(svc, keys, e) then before + [Chosen(e, if keys == map[] then 0 else keys[e.clusterKey])] else before
  }

  function SubsetsOf(chosen: seq<Chosen>): seq<Subset> {
    seq(|chosen|, i requires 0 <= i < |chosen| => Subset(chosen[i].e.ip, chosen[i].e.host, chosen[i].e.port))
  }

  predicate PortMatches(imported: ServiceImport, svc: MeshService, port: ImportedPort) {
    EqualFold(imported.name, svc.name) && (svc.port == 0 || svc.port == port.port % 0x1_0000) && port.endpoints != []
  }

  /** The endpoints of the first import port that fits the service. */
  function FirstPort(imported: ServiceImport, svc: MeshService,
                     ports: seq<ImportedPort>): Option<seq<ImportedEndpoint>> {
    if ports == [] then None
    else if PortMatches(imported, svc, ports[0]) then Some(ports[0].endpoints)
    else FirstPort(imported, svc, ports[1..])
  }

  /** The endpoints a service may use: none under Locality or without a policy. */
  function ImportedFor(cache: Cache, svc: MeshService): Option<seq<ImportedEndpoint>> {
    if ServicePolicy(cache, svc).lbType == LOCALITY || NamespacedKey(svc) !in cache.imports then None
    else var imported := cache.imports[NamespacedKey(svc)]; FirstPort(imported, svc, imported.ports)
  }

  /** `GetEndpoints` of the multi-cluster controller. */
  method GetEndpoints(cache: Cache, svc: MeshService) returns (result: Option<KubeEndpoints>)
    ensures var policy := ServicePolicy(cache, svc);
            result == match ImportedFor(cache, svc)
              case None => None
              case Some(es) =>
                var chosen := Choose(svc, TargetWeights(policy.targets), es);
                Some(KubeEndpoints(Annotations(chosen, policy.lbType), SubsetsOf(chosen)))
  {
    var lbType, clusterKeys := GetServiceTrafficPolicy(cache, svc);
    if lbType == LOCALITY {
      return None;
    }
    if NamespacedKey(svc) !in cache.imports {
      return None;
    }
    var imported := cache.imports[NamespacedKey(svc)];
    for i := 0 to |imported.ports|
      invariant FirstPort(imported, svc, imported.ports) == FirstPort(imported, svc, imported.ports[i..])
    {
      var port := imported.ports[i];
      if PortMatches(imported, svc, port) {
        var target := BuildEndpoints(svc, lbType, clusterKeys, port.endpoints);
        return Some(target);
      }
    }
    return None;
  }

  /** The inner loop of `GetEndpoints` over one import port. */
  method BuildEndpoints(svc: MeshService, lbType: string, keys: map<string, int>, es: seq<ImportedEndpoint>)
      returns (target: KubeEndpoints)
    ensures var chosen := Choose(svc, keys, es);
            target == KubeEndpoints(Annotations(chosen, lbType), SubsetsOf(chosen))
  {
    var annotations: map<string, string> := map[];
    var subsets: seq<Subset> := [];
    ghost var chosen: seq<Chosen> := [];
    for i := 0 to |es|
      invariant chosen == Choose(svc, keys, es[..i])
      invariant annotations == Annotations(chosen, lbType) && subsets == SubsetsOf(chosen)
    {
      var e := es[i];
      ChooseSnoc(svc, keys, es, i);
      if svc.targetPort > 0 && svc.targetPort != e.port % 0x1_0000 {
        continue;
      }
      var lbWeight := 0;
      if |keys| > 0 {
        if e.clusterKey !in keys {
          continue;
        }
        lbWeight := keys[e.clusterKey];
      }
      var c := Chosen(e, lbWeight);
      annotations := WriteAnnotations(annotations, c, lbType);
      subsets := subsets + [Subset(e.ip, e.host, e.port)];
      AnnotationsSnoc(chosen, c, lbType);
      chosen := chosen + [c];
    }
    assert es[..|es|] == es;
    target := KubeEndpoints(annotations, subsets);
  }

  method WriteAnnotations(before: map<string, string>, c: Chosen, lbType: string)
      returns (annotations: map<string, string>)
    ensures annotations == Annotate(before, c, lbType)
  {
    annotations := before[AnnotationKey(ClusterKey, c.e.ip, c.e.port) := c.e.clusterKey];
    annotations := annotations[AnnotationKey(ContextPath, c.e.ip, c.e.port) := c.e.path];
    annotations := annotations[AnnotationKey(LBType, c.e.ip, c.e.port) := lbType];
    annotations := annotations[AnnotationKey(LBWeight, c.e.ip, c.e.port) := DecimalInt(c.weight)];
  }

  lemma ChooseSnoc(svc: MeshService, keys: map<string, int>, es: seq<ImportedEndpoint>, i: nat)
    requires i < |es|
    ensures Choose(svc, keys, es[..i + 1]) == Choose(svc, keys, es[..i])
            + if !Keeps(svc, keys, es[i]) then []
              else [Chosen(es[i], if keys == map[] then 0 else keys[es[i].clusterKey])]
  {
    assert es[..i + 1][..i] == es[..i];
  }

  lemma AnnotationsSnoc(chosen: seq<Chosen>, c: Chosen, lbType: string)
    ensures Annotations(chosen + [c], lbType) == Annotate(Annotations(chosen, lbType), c, lbType)
    ensures SubsetsOf(chosen + [c]) == SubsetsOf(chosen) + [Subset(c.e.ip, c.e.host, c.e.port)]
  {
    assert (chosen + [c])[..|chosen|] == chosen;
  }

  // ----- The endpoint provider -----

  /** Whether the provider keeps an address; `validIp` is `net.ParseIP` succeeding. */
  predicate Lists(svc: MeshService, s: Subset, validIp: string -> bool) {
    && (svc.targetPort != 0 ==> s.port == svc.targetPort)
    && (Subdomain(svc) != "" ==> Subdomain(svc) == s.host)
    && validIp(s.ip)
  }

  function Annotation(annotations: map<string, string>, kind: Kind, s: Subset): string {
    var key := AnnotationKey(kind, s.ip, s.port);
    if key in annotations then annotations[key] else ""
  }

  function ReadEndpoint(annotations: map<string, string>, s: Subset): Endpoint {
    Endpoint(s.ip, s.port, Annotation(annotations, ClusterKey, s), Annotation(annotations, LBType, s),
             ParseUint32OrDefault(Annotation(annotations, LBWeight, s)), Annotation(annotations, ContextPath, s))
  }

  /** Those of `picks` whose subset the provider keeps, in order. */
  function Gather(svc: MeshService, subsets: seq<Subset>, picks: seq<Endpoint>, validIp: string -> bool): seq<Endpoint>
    requires |subsets| == |picks|
  {
    if subsets == [] then []
    else
      var n := |subsets| - 1;
      Gather(svc, subsets[..n], picks[..n], validIp) + if Lists(svc, subsets[n], validIp) then [picks[n]] else []
  }

  lemma GatherSnoc(svc: MeshService, subsets: seq<Subset>, picks: seq<Endpoint>, validIp: string -> bool, i: nat)
    requires i < |subsets| == |picks|
    ensures Gather(svc, subsets[..i + 1], picks[..i + 1], validIp) == Gather(svc, subsets[..i], picks[..i], validIp)
            + if Lists(svc, subsets[i], validIp) then [picks[i]] else []
  {
    assert subsets[..i + 1][..i] == subsets[..i] && picks[..i + 1][..i] == picks[..i];
  }

  /** The endpoints as read from the annotations. */
  function ReadAll(annotations: map<string, string>, subsets: seq<Subset>): seq<Endpoint> {
    seq(|subsets|, i requires 0 <= i < |subsets| => ReadEndpoint(annotations, subsets[i]))
  }

  function ChosenFor(cache: Cache, svc: MeshService): seq<Chosen> {
    match ImportedFor(cache, svc)
    case None => []
    case Some(es) => Choose(svc, TargetWeights(ServicePolicy(cache, svc).targets), es)
  }

  function Listed(cache: Cache, svc: MeshService, validIp: string -> bool): seq<Endpoint> {
    var chosen := ChosenFor(cache, svc);
    var subsets := SubsetsOf(chosen);
    Gather(svc, subsets, ReadAll(Annotations(chosen, ServicePolicy(cache, svc).lbType), subsets), validIp)
  }

  /** `ListEndpointsForService`: what a service's endpoints are, attributes included. */
  method ListEndpointsForService(cache: Cache, svc: MeshService, validIp: string -> bool)
      returns (endpoints: seq<Endpoint>)
    ensures endpoints == Listed(cache, svc, validIp)
  {
    var kube := GetEndpoints(cache, svc);
    endpoints := [];
    if kube.None? {
      return;
    }
    var subsets, annotations := kube.value.subsets, kube.value.annotations;
    ghost var all := ReadAll(annotations, subsets);
    for i := 0 to |subsets|
      invariant endpoints == Gather(svc, subsets[..i], all[..i], validIp)
    {
      var s := subsets[i];
      GatherSnoc(svc, subsets, all, validIp, i);
      if svc.targetPort != 0 && s.port != svc.targetPort {
        continue;
      }
      if Subdomain(svc) != "" && Subdomain(svc) != s.host {
        continue;
      }
      if !validIp(s.ip) {
        continue;
      }
      endpoints := endpoints + [ReadEndpoint(annotations, s)];
    }
    assert subsets[..|subsets|] == subsets && all[..|all|] == all;
  }

  // ----- Annotations carry every endpoint's own attributes -----

  predicate Twins(a: Chosen, b: Chosen) {
    a.e.ip == b.e.ip && a.e.port == b.e.port
  }

  /** The last chosen endpoint at the address and port of `chosen[i]`. */
  function LastTwin(chosen: seq<Chosen>, i: nat, n: nat): (j: nat)
    requires i < n <= |chosen|
    ensures i <= j < n && Twins(chosen[i], chosen[j])
    ensures forall k | j < k < n :: !Twins(chosen[i], chosen[k])
  {
    if Twins(chosen[i], chosen[n - 1]) then n - 1 else LastTwin(chosen, i, n - 1)
  }

  lemma AnnotateMisses(annotations: map<string, string>, c: Chosen, lbType: string, kind: Kind, ip: string, port: nat)
    requires c.e.ip != ip || c.e.port != port
    ensures var key := AnnotationKey(kind, ip, port);
            var m := Annotate(annotations, c, lbType);
            (key in m <==> key in annotations) && (key in m ==> m[key] == annotations[key])
  {
    forall k: Kind
      ensures AnnotationKey(k, c.e.ip, c.e.port) != AnnotationKey(kind, ip, port)
    {
      if AnnotationKey(k, c.e.ip, c.e.port) == AnnotationKey(kind, ip, port) {
        AnnotationKeyInjective(k, c.e.ip, c.e.port, kind, ip, port);
      }
    }
  }

  lemma AnnotateHits(annotations: map<string, string>, c: Chosen, lbType: string, kind: Kind)
    ensures var key := AnnotationKey(kind, c.e.ip, c.e.port);
            var m := Annotate(annotations, c, lbType);
            key in m && m[key] == Attribute(kind, c, lbType)
  {
    forall k: Kind | k != kind
      ensures AnnotationKey(k, c.e.ip, c.e.port) != AnnotationKey(kind, c.e.ip, c.e.port)
    {
      if AnnotationKey(k, c.e.ip, c.e.port) == AnnotationKey(kind, c.e.ip, c.e.port) {
        AnnotationKeyInjective(k, c.e.ip, c.e.port, kind, c.e.ip, c.e.port);
      }
    }
  }

  lemma {:induction false} AnnotationsHold(chosen: seq<Chosen>, lbType: string, kind: Kind, j: nat)
    requires j < |chosen| && forall k | j < k < |chosen| :: !Twins(chosen[j], chosen[k])
    ensures var key := AnnotationKey(kind, chosen[j].e.ip, chosen[j].e.port);
            var m := Annotations(chosen, lbType);
            key in m && m[key] == Attribute(kind, chosen[j], lbType)
    decreases |chosen|
  {
    var n := |chosen| - 1;
    var before := Annotations(chosen[..n], lbType);
    assert Annotations(chosen, lbType) == Annotate(before, chosen[n], lbType);
    if j == n {
      AnnotateHits(before, chosen[n], lbType, kind);
    } else {
      assert chosen[..n][j] == chosen[j] && !Twins(chosen[j], chosen[n]);
      AnnotationsHold(chosen[..n], lbType, kind, j);
      AnnotateMisses(before, chosen[n], lbType, kind, chosen[j].e.ip, chosen[j].e.port);
    }
  }

  /** An endpoint with its own attributes, no strings in between. A weight outside 32 bits is clamped. */
  function OwnEndpoint(c: Chosen, lbType: string): Endpoint {
    Endpoint(c.e.ip, c.e.port, c.e.clusterKey, lbType,
             if c.weight < 0 then 0 else if c.weight > 0xffff_ffff then 0xffff_ffff else c.weight, c.e.path)
  }

  /** Reading an endpoint back gives the attributes of the last chosen endpoint at its address and port. */
  lemma ReadBack(chosen: seq<Chosen>, lbType: string, i: nat)
    requires i < |chosen|
    ensures ReadAll(Annotations(chosen, lbType), SubsetsOf(chosen))[i]
         == OwnEndpoint(chosen[LastTwin(chosen, i, |chosen|)], lbType)
  {
    var j := LastTwin(chosen, i, |chosen|);
    AnnotationsHold(chosen, lbType, ClusterKey, j);
    AnnotationsHold(chosen, lbType, ContextPath, j);
    AnnotationsHold(chosen, lbType, LBType, j);
    AnnotationsHold(chosen, lbType, LBWeight, j);
    DecimalIntReadBack(chosen[j].weight);
  }

  function OwnAll(chosen: seq<Chosen>, lbType: string): seq<Endpoint> {
    seq(|chosen|, i requires 0 <= i < |chosen| => OwnEndpoint(chosen[i], lbType))
  }

  /** What listing ought to return: each kept endpoint, in order, with its own attributes. */
  function Expected(cache: Cache, svc: MeshService, validIp: string -> bool): seq<Endpoint> {
    var chosen := ChosenFor(cache, svc);
    Gather(svc, SubsetsOf(chosen), OwnAll(chosen, ServicePolicy(cache, svc).lbType), validIp)
  }

  lemma {:induction false} GatherEqual(svc: MeshService, subsets: seq<Subset>, f: seq<Endpoint>, g: seq<Endpoint>,
                                       validIp: string -> bool)
    requires |subsets| == |f| == |g|
    ensures |Gather(svc, subsets, f, validIp)| == |Gather(svc, subsets, g, validIp)|
    ensures Gather(svc, subsets, f, validIp) == Gather(svc, subsets, g, validIp)
       <==> forall i | 0 <= i < |subsets| && Lists(svc, subsets[i], validIp) :: f[i] == g[i]
    decreases |subsets|
  {
    if subsets != [] {
      var n := |subsets| - 1;
      var a, b := Gather(svc, subsets, f, validIp), Gather(svc, subsets, g, validIp);
      var a0, b0 := Gather(svc, subsets[..n], f[..n], validIp), Gather(svc, subsets[..n], g[..n], validIp);
      GatherEqual(svc, subsets[..n], f[..n], g[..n], validIp);
      assert a[..|a0|] == a0 && b[..|b0|] == b0;
      assert Lists(svc, subsets[n], validIp) ==> a[|a0|] == f[n] && b[|b0|] == g[n];
      assert forall i | 0 <= i < n && Lists(svc, subsets[..n][i], validIp) :: f[..n][i] == f[i] && g[..n][i] == g[i];
    }
  }

  /** Round trip: listing returns exactly the kept endpoints with their own attributes if and only if no
      listed endpoint shares its address and port with a later one of different attributes. */
  lemma AnnotationRoundTrip(cache: Cache, svc: MeshService, validIp: string -> bool)
    ensures Listed(cache, svc, validIp) == Expected(cache, svc, validIp) <==>
              var chosen, lbType := ChosenFor(cache, svc), ServicePolicy(cache, svc).lbType;
              forall i | 0 <= i < |chosen| && Lists(svc, SubsetsOf(chosen)[i], validIp) ::
                OwnEndpoint(chosen[LastTwin(chosen, i, |chosen|)], lbType) == OwnEndpoint(chosen[i], lbType)
  {
    var chosen, lbType := ChosenFor(cache, svc), ServicePolicy(cache, svc).lbType;
    var subsets := SubsetsOf(chosen);
    var read, own := ReadAll(Annotations(chosen, lbType), subsets), OwnAll(chosen, lbType);
    GatherEqual(svc, subsets, read, own, validIp);
    forall i | 0 <= i < |chosen|
      ensures read[i] == OwnEndpoint(chosen[LastTwin(chosen, i, |chosen|)], lbType)
    {
      ReadBack(chosen, lbType, i);
    }
  }

  lemma ChooseTwo(svc: MeshService, a: ImportedEndpoint, b: ImportedEndpoint)
    requires Keeps(svc, map[], a) && Keeps(svc, map[], b)
    ensures Choose(svc, map[], [a, b]) == [Chosen(a, 0), Chosen(b, 0)]
  {
    ChooseSnoc(svc, map[], [a, b], 0);
    ChooseSnoc(svc, map[], [a, b], 1);
    assert [a, b][..0] == [] && [a, b][..2] == [a, b];
  }

  /** Two clusters that export the same address and port: both endpoints are listed with the second one's key. */
  lemma TwinsLoseTheirKey(ns: string, name: string, ip: string, port: U16, first: string, second: string,
                          validIp: string -> bool) returns (cache: Cache, svc: MeshService)
    requires '.' !in name && first != second && validIp(ip)
    ensures |Expected(cache, svc, validIp)| == 2 == |Listed(cache, svc, validIp)|
    ensures var expected := Expected(cache, svc, validIp);
            expected[0].clusterKey == first && expected[1].clusterKey == second
    ensures forall ep <- Listed(cache, svc, validIp) :: ep.ip == ip && ep.clusterKey == second
  {
    var a, b := ImportedEndpoint(first, ip, port, "", ""), ImportedEndpoint(second, ip, port, "", "");
    var imported := ServiceImport(ns, name, [ImportedPort(80, "", None, [a, b])]);
    var key := ns + "/" + name;
    cache := Cache(map[key := imported], map[key := TrafficPolicy(ACTIVE_ACTIVE, [])]);
    svc := MeshService(ns, name, 80, port, "http", first);
    SplitLast(name, '.');
    ChooseTwo(svc, a, b);
    assert ChosenFor(cache, svc) == [Chosen(a, 0), Chosen(b, 0)];
    TwinsReadBack(svc, Chosen(a, 0), Chosen(b, 0), validIp);
  }

  lemma TwinsReadBack(svc: MeshService, a: Chosen, b: Chosen, validIp: string -> bool)
    requires Twins(a, b) && Lists(svc, Subset(a.e.ip, a.e.host, a.e.port), validIp)
    requires Lists(svc, Subset(b.e.ip, b.e.host, b.e.port), validIp)
    ensures var subsets := SubsetsOf([a, b]);
            && Gather(svc, subsets, OwnAll([a, b], ACTIVE_ACTIVE), validIp)
               == [OwnEndpoint(a, ACTIVE_ACTIVE), OwnEndpoint(b, ACTIVE_ACTIVE)]
            && Gather(svc, subsets, ReadAll(Annotations([a, b], ACTIVE_ACTIVE), subsets), validIp)
               == [OwnEndpoint(b, ACTIVE_ACTIVE), OwnEndpoint(b, ACTIVE_ACTIVE)]
  {
    var chosen := [a, b];
    var subsets := SubsetsOf(chosen);
    assert LastTwin(chosen, 0, 2) == 1 && LastTwin(chosen, 1, 2) == 1;
    ReadBack(chosen, ACTIVE_ACTIVE, 0);
    ReadBack(chosen, ACTIVE_ACTIVE, 1);
    GatherTwo(svc, subsets, OwnAll(chosen, ACTIVE_ACTIVE), validIp);
    GatherTwo(svc, subsets, ReadAll(Annotations(chosen, ACTIVE_ACTIVE), subsets), validIp);
  }

  lemma GatherTwo(svc: MeshService, subsets: seq<Subset>, picks: seq<Endpoint>, validIp: string -> bool)
    requires |subsets| == 2 == |picks| && Lists(svc, subsets[0], validIp) && Lists(svc, subsets[1], validIp)
    ensures Gather(svc, subsets, picks, validIp) == picks
  {
    assert subsets[..1][..0] == [] && picks[..1][..0] == [];
    assert Gather(svc, subsets[..1], picks[..1], validIp) == [picks[0]];
  }

  /** With distinct address and port pairs every endpoint keeps its own attributes. */
  lemma DistinctTargetsRoundTrip(cache: Cache, svc: MeshService, validIp: string -> bool)
    requires var chosen := ChosenFor(cache, svc);
             forall i, j | 0 <= i < j < |chosen| :: !Twins(chosen[i], chosen[j])
    ensures Listed(cache, svc, validIp) == Expected(cache, svc, validIp)
  {
    AnnotationRoundTrip(cache, svc, validIp);
  }

  /** Under Locality, or without a policy, a service has no endpoint. */
  lemma LocalityHasNoEndpoints(cache: Cache, svc: MeshService, validIp: string -> bool)
    requires NamespacedKey(svc) !in cache.policies || cache.policies[NamespacedKey(svc)].lbType == LOCALITY
    ensures ImportedFor(cache, svc) == None && Listed(cache, svc, validIp) == []
  {
    assert SubsetsOf([]) == [];
  }
}
