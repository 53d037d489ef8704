/** The four socket hooks that redirect mesh connections to the node proxy, and the maps they share. */
module Redirect {
  import opened Words

  const PROXY_PORT: U16 := 15001
  /** 10.244.1.1 */
  const BRIDGE_IP: U32 := 183763201
  const PROXY_UID: U64 := 1600
  const SO_ORIGINAL_DST: int := 80
  const MAX_OPS_BUFF_LENGTH: int := 4096
  const AF_INET: int := 2

  /** The bridge address and the proxy port in network order, as the CPU loads them. */
  const BRIDGE: U32 := 0x0101F40A
  const PROXY: U16 := 0x993A

  lemma NetworkOrder()
    ensures BRIDGE == Swap32(BRIDGE_IP) && PROXY == Swap16(PROXY_PORT)
  {
    Swap16Bytes(0x99, 0x3A);
    Swap16Bytes(0x01, 0x01);
    Swap16Bytes(0xF4, 0x0A);
  }

  /** One end of a TCP connection, in network order. `struct origin_info` holds one of these. */
  datatype Addr = Addr(ip: U32, port: U16)

  /** `struct pair`. */
  datatype Pair = Pair(sip: U32, dip: U32, sport: U16, dport: U16)

  datatype Maps = Maps(sess: map<U64, Addr>, pairs: map<Pair, Addr>, socks: map<Pair, U64>)

  /** The one normal form of a connection's key, seen from the end at `local`. */
  function Key(local: Addr, remote: Addr): Pair {
    Pair(local.ip, remote.ip, local.port, remote.port)
  }

  // ----- What each hook sees of a connection -----

  /** `bpf_sock_addr`: address and port in network order. */
  datatype ConnectView = ConnectView(userIp4: U32, userPort: U32)

  /** `bpf_sock_ops` and `sk_msg_md`: local port in host order, remote port in network order in the upper half. */
  datatype SocketView = SocketView(localIp4: U32, remoteIp4: U32, localPort: U32, remotePort: U32)

  /** `bpf_sock`: source port in host order, destination port in network order. */
  datatype OptView = OptView(srcIp4: U32, dstIp4: U32, srcPort: U32, dstPort: U16)

  function ViewConnect(dst: Addr): ConnectView {
    ConnectView(dst.ip, dst.port)
  }

  function ViewSocket(local: Addr, remote: Addr): SocketView {
    SocketView(local.ip, remote.ip, Swap16(local.port), remote.port * 0x1_0000)
  }

  /** Both ports come back from their encodings. */
  lemma SocketPorts(local: Addr, remote: Addr)
    ensures Swap16(Swap16(local.port) % 0x1_0000) == local.port
    ensures remote.port * 0x1_0000 / 0x1_0000 == remote.port
  {
    Swap16Involutive(local.port);
  }

  function ViewOpt(local: Addr, remote: Addr): OptView {
    OptView(local.ip, remote.ip, Swap16(local.port), remote.port)
  }

  /** What `getsockopt` looks up is the mirrored pair of its own socket. */
  lemma OptKey(local: Addr, remote: Addr)
    ensures var v := ViewOpt(local, remote);
            Pair(v.dstIp4, v.srcIp4, v.dstPort, Swap16(v.srcPort % 0x1_0000)) == Key(remote, local)
  {
    Swap16Involutive(local.port);
  }

  // ----- What each hook does to the maps -----

  /** Connections to the bridge address are redirected, except to the proxy's own port and from root or
      the proxy user. */
  predicate Redirects(dst: Addr, uid: U64) {
    dst.ip == BRIDGE && dst.port != PROXY && uid != 0 && uid != PROXY_UID
  }

  /** `updated` is whether the session map takes the entry. */
  function OnConnect(m: Maps, cookie: U64, dst: Addr, uid: U64, updated: bool): Maps {
    if Redirects(dst, uid) && updated then m.(sess := m.sess[cookie := dst]) else m
  }

  lemma ProxyGuard(port: U16)
    ensures Swap16(port) == PROXY_PORT <==> port == PROXY
  {
    NetworkOrder();
    Swap16Involutive(PROXY_PORT);
    Swap16Involutive(port);
  }

  predicate Allowed(dst: Addr, uid: U64, updated: bool) {
    Redirects(dst, uid) ==> updated
  }

  /** Where the socket then dials. */
  function Dials(dst: Addr, uid: U64): Addr {
    if Redirects(dst, uid) then dst.(port := PROXY) else dst
  }

  predicate OnBridge(local: Addr, remote: Addr) {
    local.ip == BRIDGE || remote.ip == BRIDGE
  }

  /** The session entry becomes a pair entry, and the socket is registered unless its key is taken. */
  function OnEstablished(m: Maps, cookie: U64, local: Addr, remote: Addr, registers: bool): Maps {
    if !OnBridge(local, remote) then m
    else
      var p := Key(local, remote);
      Maps(m.sess,
           if cookie in m.sess then m.pairs[p := m.sess[cookie]] else m.pairs,
           if registers && p !in m.socks then m.socks[p := cookie] else m.socks)
  }

  /** The entry under the mirrored key: what the connecting side asked for. */
  function OriginalDst(m: Maps, local: Addr, remote: Addr): Option<Addr> {
    if Key(remote, local) in m.pairs then Some(m.pairs[Key(remote, local)]) else None
  }

  /** The socket registered under the mirrored key. */
  function RedirectTarget(m: Maps, local: Addr, remote: Addr): Option<U64> {
    if Key(remote, local) in m.socks then Some(m.socks[Key(remote, local)]) else None
  }

  // ----- The hooks -----

  datatype SockAddr = SockAddr(family: int, ip: U32, port: U16)

  datatype OptResult = OptResult(optlen: int, retval: Option<int>, optval: Option<SockAddr>)

  class BpfMaps {
    var sessDest: map<U64, Addr>
    var pairDest: map<Pair, Addr>
    var sockPair: map<Pair, U64>

    ghost function Value(): Maps
      reads this
    {
      Maps(sessDest, pairDest, sockPair)
    }

    /** `ecnet_tcp_con4`: returns the verdict and the port to dial, in network order. */
    method TcpConnect4(ctx: ConnectView, cookie: U64, uid: U64, updated: bool, ghost dst: Addr)
        returns (verdict: int, userPort: U32)
      requires ctx == ViewConnect(dst)
      modifies this`sessDest
      ensures Value() == OnConnect(old(Value()), cookie, dst, uid, updated)
      ensures verdict == if Allowed(dst, uid, updated) then 1 else 0
      ensures verdict == 1 ==> userPort == Dials(dst, uid).port
    {
      ProxyGuard(dst.port);
      userPort := ctx.userPort;
      var port := ctx.userPort % 0x1_0000;
      assert port == dst.port;
      if Swap16(port) == PROXY_PORT {
        return 1, userPort;
      }
      var dstIp := ctx.userIp4;
      if dstIp % 0x100 == 0x7f {
        return 1, userPort;
      }
      if dstIp != BRIDGE {
        return 1, userPort;
      }
      if uid == 0 || uid == PROXY_UID {
        return 1, userPort;
      }
      if !updated {
        return 0, userPort;
      }
      sessDest := sessDest[cookie := Addr(dstIp, port)];
      return 1, PROXY;
    }

    /** `ecnet_sockops4`. `registers` is whether the socket map takes a new entry. */
    method SockOps4(ctx: SocketView, cookie: U64, registers: bool, ghost local: Addr, ghost remote: Addr)
      requires ctx == ViewSocket(local, remote)
      modifies this`pairDest, this`sockPair
      ensures Value() == OnEstablished(old(Value()), cookie, local, remote, registers)
    {
      SocketPorts(local, remote);
      if ctx.localIp4 != BRIDGE && ctx.remoteIp4 != BRIDGE {
        return;
      }
      var p := Pair(ctx.localIp4, ctx.remoteIp4, Swap16(ctx.localPort % 0x1_0000), ctx.remotePort / 0x1_0000);
      assert p == Key(local, remote);
      if cookie in sessDest {
        pairDest := pairDest[p := sessDest[cookie]];
      }
      if registers && p !in sockPair {
        sockPair := sockPair[p := cookie];
      }
    }

    /** `ecnet_sockopt4`. `room` is the size of the caller's buffer. */
    method SockOpt4(ctx: OptView, family: int, optname: int, optlen: int, room: int, ghost local: Addr,
                    ghost remote: Addr) returns (r: OptResult)
      requires ctx == ViewOpt(local, remote)
      ensures r.optval.Some? <==>
              optname == SO_ORIGINAL_DST && family == AF_INET && OriginalDst(Value(), local, remote).Some? && room >= 16
      ensures r.optval.Some? ==>
                var o := OriginalDst(Value(), local, remote).value;
                r == OptResult(16, Some(0), Some(SockAddr(AF_INET, o.ip, o.port)))
      ensures r.optval.None? ==> r.retval.None?
      ensures var found := OriginalDst(Value(), local, remote).Some?;
              r.optlen == if optname == SO_ORIGINAL_DST && family == AF_INET && found then 16
                          else if optlen > MAX_OPS_BUFF_LENGTH then MAX_OPS_BUFF_LENGTH else optlen
    {
      r := OptResult(if optlen > MAX_OPS_BUFF_LENGTH then MAX_OPS_BUFF_LENGTH else optlen, None, None);
      if optname != SO_ORIGINAL_DST {
        return;
      }
      var dport, sport := Swap16(ctx.srcPort % 0x1_0000), ctx.dstPort;
      if family == AF_INET {
        var p := Pair(ctx.dstIp4, ctx.srcIp4, sport, dport);
        OptKey(local, remote);
        if p in pairDest {
          r := r.(optlen := 16);
          if 16 > room {
            return;
          }
          r := OptResult(16, Some(0), Some(SockAddr(family, pairDest[p].ip, pairDest[p].port)));
        }
      }
    }

    /** `ecnet_redirmsg`: the socket, if any, that the message is handed to. */
    method RedirMsg(ctx: SocketView, ghost local: Addr, ghost remote: Addr) returns (target: Option<U64>)
      requires ctx == ViewSocket(local, remote)
      ensures target == RedirectTarget(Value(), local, remote)
    {
      SocketPorts(local, remote);
      var dport, sport := Swap16(ctx.localPort % 0x1_0000), ctx.remotePort / 0x1_0000;
      var p := Pair(ctx.remoteIp4, ctx.localIp4, sport, dport);
      assert p == Key(remote, local);
      return if p in sockPair then Some(sockPair[p]) else None;
    }
  }
}
