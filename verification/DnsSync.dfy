/** The data plane keeps the kernel's DNS tables in step with the mesh policy, and the XDP program answers
    from them. */
module DnsSync {
  import opened Words
  import opened Text
  import opened Services
  import opened Catalog
  import opened DnsName
  import opened DnsMessage
  import opened DnsResponder
  import opened Packing

  // ----- The tables -----

  class DataPlane {
    /** Kernel maps `ecnet_dns_endpt` and `ecnet_dns_resdb`. */
    var endpoints: map<Ip4, Ip4>
    var records: map<Key, ARecord>
    /** Shadow maps of the server. */
    var dnsEndpoints: map<string, string>
    var dnsResolves: set<string>
    const bridge: Ip4

    constructor (bridge: Ip4)
      ensures this.bridge == bridge && endpoints == map[] && records == map[] && dnsEndpoints == map[]
              && dnsResolves == {}
    {
      this.bridge := bridge;
      endpoints, records, dnsEndpoints, dnsResolves := map[], map[], map[], {};
    }

    method UpdateDnsResolveEntry(name: string, ttl: U32)
      modifies this`records
      ensures records == old(records) + map k | k in WrittenKeys(name) :: ARecord(bridge, ttl)
    {
      var packed := PackDomainName(Dotted(name));
      if packed.Some? {
        records := records[GoKey(packed.value, 1, DNS_CLASS_IN) := ARecord(bridge, ttl)];
        records := records[GoKey(packed.value, 28, DNS_CLASS_IN) := ARecord(bridge, ttl)];
      }
    }

    method DeleteDnsResolveEntry(name: string)
      modifies this`records
      ensures records == old(records) - DeletedKeys(name)
    {
      var packed := PackDomainName(name);
      if packed.Some? {
        records := records - {GoKey(packed.value, 1, DNS_CLASS_IN)};
        records := records - {GoKey(packed.value, 28, DNS_CLASS_IN)};
      }
    }

    /** The first loop: every latest hostname not yet in the shadow map is recorded and written. */
    method AddResolves(latest: set<string>)
      modifies this`records, this`dnsResolves
      ensures dnsResolves == old(dnsResolves) + latest
      ensures Added(old(records), records, latest - old(dnsResolves), bridge, WrittenKeys)
    {
      var todo := latest;
      ghost var done: set<string> := {};
      while todo != {}
        invariant todo <= latest
        invariant forall h :: h in dnsResolves <==> h in old(dnsResolves) || (h in latest && h !in todo)
        invariant forall h :: h in done <==> h in latest && h !in todo && h !in old(dnsResolves)
        invariant Added(old(records), records, done, bridge, WrittenKeys)
        decreases |todo|
      {
        var hostname :| hostname in todo;
        ghost var before := records;
        todo := todo - {hostname};
        if hostname !in dnsResolves {
          dnsResolves := dnsResolves + {hostname};
          UpdateDnsResolveEntry(hostname, 60);
          AddedMore(old(records), before, records, done, hostname, bridge, WrittenKeys);
          done := done + {hostname};
        }
      }
      assert done == latest - old(dnsResolves);
    }

    /** The second loop: every shadow hostname that is not latest any more is dropped and deleted. */
    method RemoveResolves(latest: set<string>)
      modifies this`records, this`dnsResolves
      ensures dnsResolves == old(dnsResolves) * latest
      ensures Removed(old(records), records, old(dnsResolves) - latest, DeletedKeys)
    {
      var todo := dnsResolves;
      ghost var gone: set<string> := {};
      while todo != {}
        invariant todo <= old(dnsResolves)
        invariant forall h :: h in dnsResolves <==> h in old(dnsResolves) && (h in latest || h in todo)
        invariant forall h :: h in gone <==> h in old(dnsResolves) && h !in todo && h !in latest
        invariant Removed(old(records), records, gone, DeletedKeys)
        decreases |todo|
      {
        var hostname :| hostname in todo;
        ghost var before := records;
        todo := todo - {hostname};
        if hostname !in latest {
          dnsResolves := dnsResolves - {hostname};
          DeleteDnsResolveEntry(hostname);
          RemovedMore(old(records), before, records, gone, hostname, DeletedKeys);
          gone := gone + {hostname};
        }
      }
      assert gone == old(dnsResolves) - latest;
    }

    ghost function Value(): Tables
      reads this
    {
      Tables(dnsResolves, records)
    }

    /** `syncDNSResolves`: without route configs nothing is touched; otherwise the shadow map becomes the
        latest hostnames, and the records gain the new ones and lose what deletions remove. */
    method SyncDnsResolves(configs: map<U16, seq<RouteConfig>>)
      modifies this`records, this`dnsResolves
      ensures configs == map[] ==> Value() == old(Value())
      ensures configs != map[] ==>
                dnsResolves == PolicyHosts(configs) && Resolved(old(Value()), Value(), bridge, WrittenKeys, DeletedKeys)
    {
      if |configs| == 0 {
        return;
      }
      var latest := LatestHosts(configs);
      AddResolves(latest);
      ghost var added := records;
      RemoveResolves(latest);
      assert dnsResolves == latest && old(dnsResolves) + latest - latest == old(dnsResolves) - latest;
      assert Added(old(records), added, dnsResolves - old(dnsResolves), bridge, WrittenKeys);
      assert Removed(added, records, old(dnsResolves) - dnsResolves, DeletedKeys);
    }

    /** An address unknown to the shadow map, or known with another cluster address, is written. A new one
        is not recorded in the shadow map. */
    method WriteEndpoint(eip: string, clusterIp: string, ip4: string -> Ip4)
      modifies this`endpoints, this`dnsEndpoints
      ensures Current(old(dnsEndpoints), eip, clusterIp) ==>
                endpoints == old(endpoints) && dnsEndpoints == old(dnsEndpoints)
      ensures !Current(old(dnsEndpoints), eip, clusterIp) ==>
                && endpoints == old(endpoints)[ip4(eip) := ip4(clusterIp)]
                && dnsEndpoints == if eip !in old(dnsEndpoints) then old(dnsEndpoints)
                                   else old(dnsEndpoints)[eip := clusterIp]
    {
      if eip !in dnsEndpoints {
        endpoints := endpoints[ip4(eip) := ip4(clusterIp)];
      } else if !EqualFold(clusterIp, dnsEndpoints[eip]) {
        dnsEndpoints := dnsEndpoints[eip := clusterIp];
        endpoints := endpoints[ip4(eip) := ip4(clusterIp)];
      }
    }

    /** The second loop of `syncDNSEndpoints`. */
    method WriteEndpoints(latest: set<string>, clusterIp: string, ip4: string -> Ip4)
      modifies this`endpoints, this`dnsEndpoints
      ensures dnsEndpoints == Refreshed(old(dnsEndpoints), latest, clusterIp)
      ensures Pointed(old(endpoints), endpoints, StaleOf(old(dnsEndpoints), latest, clusterIp), clusterIp, ip4)
    {
      var todo := latest;
      ghost var start, from, done := endpoints, dnsEndpoints, {};
      StaleNone(from, clusterIp);
      while todo != {}
        invariant todo <= latest && done == latest - todo
        invariant dnsEndpoints == Refreshed(from, done, clusterIp)
        invariant Pointed(start, endpoints, StaleOf(from, done, clusterIp), clusterIp, ip4)
        decreases |todo|
      {
        var eip :| eip in todo;
        StaleMore(from, done, eip, clusterIp);
        RefreshedMore(from, done, eip, clusterIp);
        PointedMore(start, endpoints, StaleOf(from, done, clusterIp), eip, clusterIp, ip4);
        WriteEndpoint(eip, clusterIp, ip4);
        todo, done := todo - {eip}, done + {eip};
      }
      assert done == latest;
    }

    /** The third loop: addresses of the shadow map that are gone are dropped from both. */
    method DropEndpoints(latest: set<string>, ip4: string -> Ip4)
      modifies this`endpoints, this`dnsEndpoints
      ensures dnsEndpoints == old(dnsEndpoints) - (old(dnsEndpoints).Keys - latest)
      ensures endpoints == old(endpoints) - Images(old(dnsEndpoints).Keys - latest, ip4)
    {
      var todo := dnsEndpoints.Keys;
      ghost var start, from, gone := endpoints, dnsEndpoints, {};
      assert start - Images({}, ip4) == start;
      while todo != {}
        invariant todo <= from.Keys && forall a :: a in gone <==> a in from && a !in todo && a !in latest
        invariant dnsEndpoints == from - gone
        invariant endpoints == start - Images(gone, ip4)
        decreases |todo|
      {
        var eip :| eip in todo;
        todo := todo - {eip};
        if eip !in latest {
          DroppedMore(start, gone, eip, ip4);
          DroppedShadow(from, gone, eip);
          dnsEndpoints, endpoints, gone := dnsEndpoints - {eip}, endpoints - {ip4(eip)}, gone + {eip};
        }
      }
      assert gone == from.Keys - latest;
    }

    /** `syncDNSEndpoints` once the DNS service's endpoints are known. `ip4` parses an IPv4 address. */
    method SyncDnsEndpoints(dns: MeshService, clusterIp: string, addresses: seq<DnsAddress>,
                            validIp: string -> bool, ip4: string -> Ip4)
      modifies this`endpoints, this`dnsEndpoints
      ensures var ips := DnsIps(dns, addresses, validIp);
              && dnsEndpoints == Refreshed(old(dnsEndpoints), ips, clusterIp) - (old(dnsEndpoints).Keys - ips)
              && exists written ::
                   && Pointed(old(endpoints), written, StaleOf(old(dnsEndpoints), ips, clusterIp), clusterIp, ip4)
                   && endpoints == written - Images(old(dnsEndpoints).Keys - ips, ip4)
    {
      var latest := LatestDnsIps(dns, addresses, validIp);
      WriteEndpoints(latest, clusterIp, ip4);
      ghost var written := endpoints;
      assert dnsEndpoints.Keys == old(dnsEndpoints).Keys;
      DropEndpoints(latest, ip4);
    }
  }

  /** The first loop of `syncDNSEndpoints`: addresses on the service's port that its subdomain admits. */
  method LatestDnsIps(dns: MeshService, addresses: seq<DnsAddress>, validIp: string -> bool)
      returns (latest: set<string>)
    ensures latest == DnsIps(dns, addresses, validIp)
  {
    latest := {};
    for i := 0 to |addresses|
      invariant latest == DnsIps(dns, addresses[..i], validIp)
    {
      var a := addresses[i];
      assert addresses[..i + 1] == addresses[..i] + [a];
      if a.port != dns.port {
        continue;
      }
      if Subdomain(dns) != "" && Subdomain(dns) != a.host {
        continue;
      }
      if !validIp(a.ip) {
        continue;
      }
      latest := latest + {a.ip};
    }
    assert addresses[..|addresses|] == addresses;
  }

  /** The shadow map shows the address with this cluster address. */
  predicate Current(shadow: map<string, string>, a: string, clusterIp: string) {
    a in shadow && EqualFold(clusterIp, shadow[a])
  }

  function StaleOf(shadow: map<string, string>, ips: set<string>, clusterIp: string): set<string> {
    set a <- ips | !Current(shadow, a, clusterIp)
  }

  /** The shadow map with those of its addresses that are stale among `ips` leading to the cluster address. */
  function Refreshed(shadow: map<string, string>, ips: set<string>, clusterIp: string): map<string, string> {
    map a <- shadow :: if a in StaleOf(shadow, ips, clusterIp) then clusterIp else shadow[a]
  }

  lemma RefreshedMore(shadow: map<string, string>, ips: set<string>, a: string, clusterIp: string)
    requires a !in ips
    ensures var before, after := Refreshed(shadow, ips, clusterIp), Refreshed(shadow, ips + {a}, clusterIp);
            && (Current(shadow, a, clusterIp) <==> Current(before, a, clusterIp))
            && after == if a in shadow && !Current(shadow, a, clusterIp) then before[a := clusterIp] else before
  {}

  /** `after` is `before` with the given addresses leading to the cluster address. */
  ghost predicate Pointed(before: map<Ip4, Ip4>, after: map<Ip4, Ip4>, ips: set<string>, clusterIp: string,
                          ip4: string -> Ip4) {
    && (forall e :: e in after <==> e in before || exists a <- ips :: ip4(a) == e)
    && (forall e <- after :: after[e] == if exists a <- ips :: ip4(a) == e then ip4(clusterIp) else before[e])
  }

  function Images(ips: set<string>, ip4: string -> Ip4): set<Ip4> {
    set a <- ips :: ip4(a)
  }

  lemma DroppedMore(start: map<Ip4, Ip4>, ips: set<string>, a: string, ip4: string -> Ip4)
    ensures start - Images(ips, ip4) - {ip4(a)} == start - Images(ips + {a}, ip4)
  {
    assert Images(ips + {a}, ip4) == Images(ips, ip4) + {ip4(a)};
  }

  lemma DroppedShadow(from: map<string, string>, gone: set<string>, a: string)
    ensures from - gone - {a} == from - (gone + {a})
  {}

  lemma StaleNone(shadow: map<string, string>, clusterIp: string)
    ensures StaleOf(shadow, {}, clusterIp) == {}
  {}

  lemma StaleMore(shadow: map<string, string>, ips: set<string>, a: string, clusterIp: string)
    ensures var stale := StaleOf(shadow, ips, clusterIp);
            StaleOf(shadow, ips + {a}, clusterIp) == if Current(shadow, a, clusterIp) then stale else stale + {a}
  {}

  lemma PointedMore(before: map<Ip4, Ip4>, after: map<Ip4, Ip4>, ips: set<string>, a: string, clusterIp: string,
                    ip4: string -> Ip4)
    requires Pointed(before, after, ips, clusterIp, ip4)
    ensures Pointed(before, after[ip4(a) := ip4(clusterIp)], ips + {a}, clusterIp, ip4)
  {}

  /** From an empty shadow map, where it stays, a sync makes every current address lead to the cluster address. */
  lemma EndpointsArePointed(before: map<Ip4, Ip4>, written: map<Ip4, Ip4>, after: map<Ip4, Ip4>,
                            shadow: map<string, string>, ips: set<string>, clusterIp: string, ip4: string -> Ip4)
    requires shadow == map[]
    requires Pointed(before, written, StaleOf(shadow, ips, clusterIp), clusterIp, ip4)
    requires after == written - Images(shadow.Keys - ips, ip4)
    ensures forall a <- ips :: ip4(a) in after && after[ip4(a)] == ip4(clusterIp)
    ensures Refreshed(shadow, ips, clusterIp) - (shadow.Keys - ips) == map[] && before.Keys <= after.Keys
  {
    assert StaleOf(shadow, ips, clusterIp) == ips;
    assert shadow.Keys - ips == {} && Images({}, ip4) == {};
  }

  // ----- Hostnames of the policy -----

  function ConfigHosts(config: RouteConfig): set<string> {
    set h <- config.hostnames | ':' !in h
  }

  function ListHosts(configs: seq<RouteConfig>): set<string> {
    if configs == [] then {} else ListHosts(configs[..|configs| - 1]) + ConfigHosts(configs[|configs| - 1])
  }

  /** The hostnames without a port of all the route configs. */
  function PolicyHosts(configs: map<U16, seq<RouteConfig>>): set<string> {
    HostsOn(configs, configs.Keys)
  }

  function HostsOn(configs: map<U16, seq<RouteConfig>>, ports: set<U16>): set<string>
    requires ports <= configs.Keys
  {
    set p, h | p in ports && h in ListHosts(configs[p]) :: h
  }

  lemma HostsOnMore(configs: map<U16, seq<RouteConfig>>, ports: set<U16>, port: U16)
    requires ports <= configs.Keys && port in configs
    ensures HostsOn(configs, ports + {port}) == HostsOn(configs, ports) + ListHosts(configs[port])
  {}

  method LatestHosts(configs: map<U16, seq<RouteConfig>>) returns (latest: set<string>)
    ensures latest == PolicyHosts(configs)
  {
    latest := {};
    var todo := configs.Keys;
    while todo != {}
      invariant todo <= configs.Keys
      invariant latest == HostsOn(configs, configs.Keys - todo)
      decreases |todo|
    {
      var port :| port in todo;
      var list := configs[port];
      var here: set<string> := {};
      for i := 0 to |list|
        invariant here == ListHosts(list[..i])
      {
        assert list[..i + 1][..i] == list[..i];
        var names := list[i].hostnames;
        var mine: set<string> := {};
        for j := 0 to |names|
          invariant mine == set h <- names[..j] | ':' !in h
        {
          if ':' !in names[j] {
            mine := mine + {names[j]};
          }
        }
        assert names[..|names|] == names;
        here := here + mine;
      }
      assert list[..|list|] == list;
      latest := latest + here;
      HostsOnMore(configs, configs.Keys - todo, port);
      assert configs.Keys - (todo - {port}) == configs.Keys - todo + {port};
      todo := todo - {port};
    }
    assert configs.Keys - todo == configs.Keys;
  }

  lemma {:induction false} ListHostsHas(configs: seq<RouteConfig>, h: string)
    ensures h in ListHosts(configs) <==> exists c <- configs :: h in c.hostnames && ':' !in h
  {
    if configs != [] {
      var n := |configs| - 1;
      assert configs == configs[..n] + [configs[n]];
      ListHostsHas(configs[..n], h);
    }
  }

  datatype DnsAddress = DnsAddress(ip: string, host: string, port: int)

  /** An address on the service's port that its subdomain admits. */
  predicate IsDnsAddress(dns: MeshService, a: DnsAddress) {
    a.port == dns.port && (Subdomain(dns) != "" ==> Subdomain(dns) == a.host)
  }

  function DnsIps(dns: MeshService, addresses: seq<DnsAddress>, validIp: string -> bool): set<string> {
    set a <- addresses | IsDnsAddress(dns, a) && validIp(a.ip) :: a.ip
  }

  /** The addresses of the DNS service: those of its port that parse and, for a dotted service name, whose hostname is
      its subdomain. */
  lemma DnsIpsExactly(dns: MeshService, addresses: seq<DnsAddress>, validIp: string -> bool, ip: string)
    ensures ip in DnsIps(dns, addresses, validIp) <==>
            exists a <- addresses :: a.ip == ip && a.port == dns.port && validIp(ip)
                                     && (Subdomain(dns) == "" || a.host == Subdomain(dns))
  {}

  // ----- One sync -----

  /** The shadow map of hostnames and the kernel's records. */
  datatype Tables = Tables(shadow: set<string>, records: map<Key, ARecord>)

  /** Keys that go with a hostname: those an update writes, or those a deletion removes. */
  type KeysOf = string -> set<Key>

  ghost predicate Touches(names: set<string>, keys: KeysOf, k: Key) {
    exists h <- names :: k in keys(h)
  }

  /** `after` is `before` with the entries of the given hostnames written. */
  ghost predicate Added(before: map<Key, ARecord>, after: map<Key, ARecord>, names: set<string>, bridge: Ip4,
                        written: KeysOf) {
    && (forall k :: k in after <==> k in before || Touches(names, written, k))
    && (forall k <- after :: after[k] == if Touches(names, written, k) then ARecord(bridge, 60) else before[k])
  }

  lemma AddedMore(start: map<Key, ARecord>, before: map<Key, ARecord>, after: map<Key, ARecord>, names: set<string>,
                  name: string, bridge: Ip4, written: KeysOf)
    requires Added(start, before, names, bridge, written)
    requires after == before + map k | k in written(name) :: ARecord(bridge, 60)
    ensures Added(start, after, names + {name}, bridge, written)
  {
    assert forall k :: Touches(names + {name}, written, k) <==> k in written(name) || Touches(names, written, k);
  }

  /** `after` is `added` without the keys that deleting the given hostnames removes. */
  ghost predicate Removed(added: map<Key, ARecord>, after: map<Key, ARecord>, names: set<string>, deleted: KeysOf) {
    && (forall k :: k in after <==> k in added && !Touches(names, deleted, k))
    && (forall k <- after :: after[k] == added[k])
  }

  lemma RemovedMore(start: map<Key, ARecord>, before: map<Key, ARecord>, after: map<Key, ARecord>, names: set<string>,
                    name: string, deleted: KeysOf)
    requires Removed(start, before, names, deleted)
    requires after == before - deleted(name)
    ensures Removed(start, after, names + {name}, deleted)
  {
    assert forall k :: Touches(names + {name}, deleted, k) <==> k in deleted(name) || Touches(names, deleted, k);
  }

  /** What a sync does to the records when the shadow map becomes that of `t`: new hostnames are added, then
      the ones that are gone removed. */
  ghost predicate Resolved(s: Tables, t: Tables, bridge: Ip4, written: KeysOf, deleted: KeysOf) {
    exists added ::
      && Added(s.records, added, t.shadow - s.shadow, bridge, written)
      && Removed(added, t.records, s.shadow - t.shadow, deleted)
  }

  /** Every shadow hostname has both its records, with the bridge address and a lifetime of 60 seconds. */
  ghost predicate Covered(t: Tables, bridge: Ip4, written: KeysOf) {
    forall h <- t.shadow, k <- written(h) :: k in t.records && t.records[k] == ARecord(bridge, 60)
  }

  /** Deleting `h` removes an entry of `g`. */
  ghost predicate Clobbers(h: string, g: string, written: KeysOf, deleted: KeysOf) {
    written(g) * deleted(h) != {}
  }

  /** From covered tables a sync leads to covered ones exactly when no hostname that goes takes an entry of one
      that stays or comes. */
  lemma ResolvedCovers(s: Tables, t: Tables, bridge: Ip4, written: KeysOf, deleted: KeysOf)
    requires Covered(s, bridge, written) && Resolved(s, t, bridge, written, deleted)
    ensures Covered(t, bridge, written) <==>
            forall h <- s.shadow - t.shadow, g <- t.shadow :: !Clobbers(h, g, written, deleted)
  {
    var gone := s.shadow - t.shadow;
    var added :| Added(s.records, added, t.shadow - s.shadow, bridge, written)
        && Removed(added, t.records, gone, deleted);
    AddedCovers(s, t, bridge, written, added);
    if h, g :| h in gone && g in t.shadow && Clobbers(h, g, written, deleted) {
      ClobberedUncovers(t, bridge, written, deleted, added, gone, h, g);
    } else {
      RemovedCovers(t, bridge, written, deleted, added, gone);
    }
  }

  lemma ClobberedUncovers(t: Tables, bridge: Ip4, written: KeysOf, deleted: KeysOf, added: map<Key, ARecord>,
                          gone: set<string>, h: string, g: string)
    requires Removed(added, t.records, gone, deleted) && h in gone && g in t.shadow && Clobbers(h, g, written, deleted)
    ensures !Covered(t, bridge, written)
  {
    var k :| k in written(g) * deleted(h);
    assert Touches(gone, deleted, k);
  }

  lemma RemovedCovers(t: Tables, bridge: Ip4, written: KeysOf, deleted: KeysOf, added: map<Key, ARecord>,
                      gone: set<string>)
    requires Removed(added, t.records, gone, deleted) && Covered(Tables(t.shadow, added), bridge, written)
    requires forall h <- gone, g <- t.shadow :: !Clobbers(h, g, written, deleted)
    ensures Covered(t, bridge, written)
  {
    forall g, k | g in t.shadow && k in written(g)
      ensures k in t.records && t.records[k] == ARecord(bridge, 60)
    {
      NotTouched(gone, g, k, written, deleted);
      assert Tables(t.shadow, added).shadow == t.shadow;
    }
  }

  lemma AddedCovers(s: Tables, t: Tables, bridge: Ip4, written: KeysOf, added: map<Key, ARecord>)
    requires Covered(s, bridge, written) && Added(s.records, added, t.shadow - s.shadow, bridge, written)
    ensures Covered(Tables(t.shadow, added), bridge, written)
  {
    forall g, k | g in t.shadow && k in written(g)
      ensures k in added && added[k] == ARecord(bridge, 60)
    {
      if g !in s.shadow {
        assert Touches(t.shadow - s.shadow, written, k);
      }
    }
  }

  lemma NotTouched(gone: set<string>, g: string, k: Key, written: KeysOf, deleted: KeysOf)
    requires k in written(g) && forall h <- gone :: !Clobbers(h, g, written, deleted)
    ensures !Touches(gone, deleted, k)
  {
    forall h | h in gone
      ensures k !in deleted(h)
    {
      assert k in deleted(h) <==> k in written(g) * deleted(h);
      assert !Clobbers(h, g, written, deleted);
    }
  }

  /** A sync keeps the shadow map covered exactly when no hostname goes that is packed to the labels of another one,
      present now, with a final dot. */
  lemma SyncKeepsCovered(s: Tables, t: Tables, bridge: Ip4)
    requires Covered(s, bridge, WrittenKeys) && Resolved(s, t, bridge, WrittenKeys, DeletedKeys)
    ensures Covered(t, bridge, WrittenKeys) <==>
            forall h <- s.shadow - t.shadow, g <- t.shadow | PackDomainName(h).Some? ::
              PackDomainName(h) != PackDomainName(Dotted(g))
  {
    ResolvedCovers(s, t, bridge, WrittenKeys, DeletedKeys);
    forall h, g | h in s.shadow - t.shadow && g in t.shadow
      ensures Clobbers(h, g, WrittenKeys, DeletedKeys) <==>
              PackDomainName(h).Some? && PackDomainName(h) == PackDomainName(Dotted(g))
    {
      DeletionExactly(h, g);
    }
  }

  ghost predicate NoneEndsInDot(names: set<string>) {
    forall h <- names :: h != "" && h[|h| - 1] != '.'
  }

  /** Without final dots a sync removes no record at all. */
  lemma SyncRemovesNothing(s: Tables, t: Tables, bridge: Ip4)
    requires Resolved(s, t, bridge, WrittenKeys, DeletedKeys) && NoneEndsInDot(s.shadow)
    ensures s.records.Keys <= t.records.Keys
  {
    var keys: KeysOf := DeletedKeys;
    forall h | h in s.shadow
      ensures keys(h) == {}
    {
      NotPacked(h);
    }
  }

  lemma WrittenIsGoKey(h: string, k: Key)
    requires k in WrittenKeys(h) && IsHost(h)
    ensures IsGoKey(k)
  {
    var labels := PackDomainName(Dotted(h)).value;
    PackedHostIsValid(h);
    assert k == GoKey(labels, 1, DNS_CLASS_IN) || k == GoKey(labels, 28, DNS_CLASS_IN);
  }

  /** Records are only ever written for packed names. */
  lemma SyncKeepsGoWritten(s: Tables, t: Tables, bridge: Ip4)
    requires GoWritten(s.records) && Resolved(s, t, bridge, WrittenKeys, DeletedKeys)
    requires forall h <- t.shadow :: IsHost(h)
    ensures GoWritten(t.records)
  {
    forall k | k in t.records
      ensures IsGoKey(k)
    {
      if k !in s.records {
        var h :| h in t.shadow - s.shadow && k in WrittenKeys(h);
        WrittenIsGoKey(h, k);
      }
    }
  }
}
