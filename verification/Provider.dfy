/** The services that imports contribute to the mesh, and the endpoints that their clusters then find. */
module Provider {
  import opened Words
  import opened Services
  import opened Imports

  /** The Kubernetes service made up for one imported endpoint. */
  datatype KubeService = KubeService(uid: string, ns: string, name: string, port: nat, portName: string,
                                     appProtocol: Option<string>)

  const SUPPORTED: seq<string> := ["tcp-server-first", "http", "tcp", "grpc"]

  function KubeOf(imported: ServiceImport, port: ImportedPort, e: ImportedEndpoint): KubeService {
    KubeService(e.clusterKey, imported.ns, imported.name, port.port, port.name, port.appProtocol)
  }

  function ApexOf(imported: ServiceImport): MeshService {
    MeshService(imported.ns, imported.name, 0, 0, "", "")
  }

  predicate IsLocality(cache: Cache, svc: MeshService) {
    ServicePolicy(cache, svc).lbType == LOCALITY
  }

  // ----- Listing imports -----

  /** One service for each endpoint of a port, in order. */
  function OfPort(imported: ServiceImport, port: ImportedPort): seq<KubeService> {
    seq(|port.endpoints|, i requires 0 <= i < |port.endpoints| => KubeOf(imported, port, port.endpoints[i]))
  }

  function OfPorts(imported: ServiceImport, ports: seq<ImportedPort>): seq<KubeService> {
    if ports == [] then [] else OfPorts(imported, ports[..|ports| - 1]) + OfPort(imported, ports[|ports| - 1])
  }

  /** An import that is kept local contributes nothing. */
  function OfImport(cache: Cache, imported: ServiceImport): seq<KubeService> {
    if IsLocality(cache, ApexOf(imported)) then [] else OfPorts(imported, imported.ports)
  }

  function OfImports(cache: Cache, imports: seq<ServiceImport>): seq<KubeService> {
    if imports == [] then []
    else OfImports(cache, imports[..|imports| - 1]) + OfImport(cache, imports[|imports| - 1])
  }

  method ListPort(imported: ServiceImport, port: ImportedPort) returns (services: seq<KubeService>)
    ensures services == OfPort(imported, port)
  {
    services := [];
    for i := 0 to |port.endpoints|
      invariant |services| == i && forall j | 0 <= j < i :: services[j] == KubeOf(imported, port, port.endpoints[j])
    {
      services := services + [KubeOf(imported, port, port.endpoints[i])];
    }
  }

  method ListImport(cache: Cache, imported: ServiceImport) returns (services: seq<KubeService>)
    ensures services == OfImport(cache, imported)
  {
    services := [];
    var ports := imported.ports;
    if |ports| == 0 || IsLocality(cache, ApexOf(imported)) {
      return;
    }
    for i := 0 to |ports|
      invariant services == OfPorts(imported, ports[..i])
    {
      assert ports[..i + 1][..i] == ports[..i];
      var added := ListPort(imported, ports[i]);
      services := services + added;
    }
    assert ports[..|ports|] == ports;
  }

  /** `ListServices` of the multi-cluster controller: the endpoints of all imports that are not kept local, in
      the order in which the informer lists the imports. */
  method ListImported(cache: Cache, imports: seq<ServiceImport>) returns (services: seq<KubeService>)
    ensures services == OfImports(cache, imports)
  {
    services := [];
    for i := 0 to |imports|
      invariant services == OfImports(cache, imports[..i])
    {
      assert imports[..i + 1][..i] == imports[..i];
      var added := ListImport(cache, imports[i]);
      services := services + added;
    }
    assert imports[..|imports|] == imports;
  }

  // ----- Mesh services -----

  /** The protocol a port's name announces, `http` by default. */
  method ProtocolFor(k: KubeService) returns (protocol: string)
    ensures protocol == ProtocolOf(k)
  {
    protocol := "http";
    for i := 0 to |SUPPORTED|
      invariant protocol == "http" && FirstPrefix(k.portName, SUPPORTED) == FirstPrefix(k.portName, SUPPORTED[i..])
    {
      if SUPPORTED[i] + "-" <= k.portName {
        protocol := SUPPORTED[i];
        break;
      }
    }
    if k.appProtocol.Some? {
      protocol := k.appProtocol.value;
    }
  }

  function FirstPrefix(name: string, protocols: seq<string>): string {
    if protocols == [] then "http"
    else if protocols[0] + "-" <= name then protocols[0]
    else FirstPrefix(name, protocols[1..])
  }

  function ProtocolOf(k: KubeService): string {
    if k.appProtocol.Some? then k.appProtocol.value else FirstPrefix(k.portName, SUPPORTED)
  }

  /** The protocol of a port: what it says itself, or else what its name begins with, or else `http`. */
  lemma ProtocolExactly(k: KubeService)
    ensures ProtocolOf(k) ==
            match k.appProtocol
            case Some(protocol) => protocol
            case None =>
              if "tcp-server-first-" <= k.portName then "tcp-server-first"
              else if "http-" <= k.portName then "http"
              else if "tcp-" <= k.portName then "tcp"
              else if "grpc-" <= k.portName then "grpc"
              else "http"
  {
    var name := k.portName;
    FirstPrefixCons(name, "tcp-server-first", ["http"] + (["tcp"] + (["grpc"] + [])));
    FirstPrefixCons(name, "http", ["tcp"] + (["grpc"] + []));
    FirstPrefixCons(name, "tcp", ["grpc"] + []);
    FirstPrefixCons(name, "grpc", []);
    assert SUPPORTED == ["tcp-server-first"] + (["http"] + (["tcp"] + (["grpc"] + [])));
    assert "tcp-server-first" + "-" == "tcp-server-first-" && "http" + "-" == "http-";
    assert "tcp" + "-" == "tcp-" && "grpc" + "-" == "grpc-";
  }

  lemma FirstPrefixCons(name: string, protocol: string, rest: seq<string>)
    ensures FirstPrefix(name, [protocol] + rest) == if protocol + "-" <= name then protocol else FirstPrefix(name, rest)
  {
    assert ([protocol] + rest)[1..] == rest;
  }

  /** The service as first looked up, its target port not yet known. */
  function Untargeted(k: KubeService): MeshService {
    MeshService(k.ns, k.name, k.port % 0x1_0000, 0, ProtocolOf(k), k.uid)
  }

  function Targeted(k: KubeService, c: Chosen): MeshService {
    Untargeted(k).(targetPort := c.e.port % 0x1_0000)
  }

  /** One mesh service for each endpoint the policy lets through, in order. */
  function MeshServices(cache: Cache, k: KubeService): seq<MeshService> {
    var chosen := ChosenFor(cache, Untargeted(k));
    seq(|chosen|, i requires 0 <= i < |chosen| => Targeted(k, chosen[i]))
  }

  function AllMeshServices(cache: Cache, kubes: seq<KubeService>): seq<MeshService> {
    if kubes == [] then []
    else AllMeshServices(cache, kubes[..|kubes| - 1]) + MeshServices(cache, kubes[|kubes| - 1])
  }

  lemma AllMeshServicesSnoc(cache: Cache, kubes: seq<KubeService>, i: nat)
    requires i < |kubes|
    ensures AllMeshServices(cache, kubes[..i + 1]) == AllMeshServices(cache, kubes[..i]) + MeshServices(cache, kubes[i])
  {
    assert kubes[..i + 1][..i] == kubes[..i];
  }

  method EachTarget(svc: MeshService, subsets: seq<Subset>) returns (services: seq<MeshService>)
    ensures |services| == |subsets|
    ensures forall i | 0 <= i < |subsets| :: services[i] == svc.(targetPort := subsets[i].port % 0x1_0000)
  {
    services := [];
    for i := 0 to |subsets|
      invariant |services| == i
      invariant forall j | 0 <= j < i :: services[j] == svc.(targetPort := subsets[j].port % 0x1_0000)
    {
      var port := subsets[i].port % 0x1_0000;
      services := services + [MeshService(svc.ns, svc.name, svc.port, port, svc.protocol, svc.importUid)];
    }
  }

  /** `ServiceToMeshServices`. */
  method ToMeshServices(cache: Cache, k: KubeService) returns (services: seq<MeshService>)
    ensures services == MeshServices(cache, k)
  {
    services := [];
    var protocol := ProtocolFor(k);
    var svc := MeshService(k.ns, k.name, k.port % 0x1_0000, 0, protocol, k.uid);
    var endpoints := GetEndpoints(cache, svc);
    assert svc == Untargeted(k);
    if endpoints.None? {
      return;
    }
    services := EachTarget(svc, endpoints.value.subsets);
  }

  /** `ListServices` of the provider. */
  method ListServices(cache: Cache, imports: seq<ServiceImport>) returns (services: seq<MeshService>)
    ensures services == AllMeshServices(cache, OfImports(cache, imports))
  {
    var kubes := ListImported(cache, imports);
    services := [];
    for i := 0 to |kubes|
      invariant services == AllMeshServices(cache, kubes[..i])
    {
      AllMeshServicesSnoc(cache, kubes, i);
      var added := ToMeshServices(cache, kubes[i]);
      services := services + added;
    }
    assert kubes[..|kubes|] == kubes;
  }

  // ----- Which services are listed -----

  /** `k` stands for an endpoint of an import that is not kept local. */
  ghost predicate Stands(cache: Cache, imported: ServiceImport, k: KubeService) {
    && !IsLocality(cache, ApexOf(imported))
    && exists port <- imported.ports, e <- port.endpoints :: k == KubeOf(imported, port, e)
  }

  ghost predicate Gives(cache: Cache, k: KubeService, s: MeshService) {
    exists c <- ChosenFor(cache, Untargeted(k)) :: s == Targeted(k, c)
  }

  /** `s` comes from an import: from one of its endpoints, for each that the policy lets through. */
  ghost predicate Comes(cache: Cache, imported: ServiceImport, s: MeshService) {
    exists k :: Stands(cache, imported, k) && Gives(cache, k, s)
  }

  lemma {:induction false} OfPortsHas(imported: ServiceImport, ports: seq<ImportedPort>, k: KubeService)
    ensures k in OfPorts(imported, ports) <==>
            exists port <- ports, e <- port.endpoints :: k == KubeOf(imported, port, e)
    decreases |ports|
  {
    if ports != [] {
      var n := |ports| - 1;
      OfPortsHas(imported, ports[..n], k);
      assert ports == ports[..n] + [ports[n]];
      var port := ports[n];
      assert forall i | 0 <= i < |port.endpoints| ::
             OfPort(imported, port)[i] == KubeOf(imported, port, port.endpoints[i]);
      assert k in OfPort(imported, port) <==> exists e <- port.endpoints :: k == KubeOf(imported, port, e);
    }
  }

  lemma {:induction false} OfImportsHas(cache: Cache, imports: seq<ServiceImport>, k: KubeService)
    ensures k in OfImports(cache, imports) <==> exists imported <- imports :: Stands(cache, imported, k)
    decreases |imports|
  {
    if imports != [] {
      var n := |imports| - 1;
      OfImportsHas(cache, imports[..n], k);
      assert imports == imports[..n] + [imports[n]];
      OfPortsHas(imports[n], imports[n].ports, k);
      assert k in OfImport(cache, imports[n]) <==> Stands(cache, imports[n], k);
    }
  }

  lemma MeshServicesHas(cache: Cache, k: KubeService, s: MeshService)
    ensures s in MeshServices(cache, k) <==> Gives(cache, k, s)
  {
    var chosen := ChosenFor(cache, Untargeted(k));
    assert forall i | 0 <= i < |chosen| :: MeshServices(cache, k)[i] == Targeted(k, chosen[i]);
  }

  lemma {:induction false} AllMeshServicesIn(cache: Cache, kubes: seq<KubeService>, s: MeshService)
    ensures s in AllMeshServices(cache, kubes) <==> exists k <- kubes :: s in MeshServices(cache, k)
    decreases |kubes|
  {
    if kubes != [] {
      var n := |kubes| - 1;
      AllMeshServicesIn(cache, kubes[..n], s);
      assert forall k :: k in kubes <==> k in kubes[..n] || k == kubes[n];
    }
  }

  lemma AllMeshServicesHas(cache: Cache, kubes: seq<KubeService>, s: MeshService)
    ensures s in AllMeshServices(cache, kubes) <==> exists k <- kubes :: Gives(cache, k, s)
  {
    AllMeshServicesIn(cache, kubes, s);
    forall k
      ensures s in MeshServices(cache, k) <==> Gives(cache, k, s)
    {
      MeshServicesHas(cache, k, s);
    }
  }

  /** The listed services are exactly those that come from the imports. */
  lemma ListedExactly(cache: Cache, imports: seq<ServiceImport>, s: MeshService)
    ensures s in AllMeshServices(cache, OfImports(cache, imports)) <==>
            exists imported <- imports :: Comes(cache, imported, s)
  {
    var kubes := OfImports(cache, imports);
    AllMeshServicesHas(cache, kubes, s);
    if k :| k in kubes && Gives(cache, k, s) {
      OfImportsHas(cache, imports, k);
    }
    if imported, k :| imported in imports && Stands(cache, imported, k) && Gives(cache, k, s) {
      OfImportsHas(cache, imports, k);
    }
  }
}
