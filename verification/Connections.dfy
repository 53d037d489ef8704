/** Runs of the redirect hooks against the kernel's TCP: connects, both ends of establishment, closes, evictions. */
module Connections {
  import opened Words
  import opened Redirect

  /** An established socket; both ends of one connection carry the same `conn`. */
  datatype Socket = Socket(local: Addr, remote: Addr, conn: nat)

  /** A connection opened on this node, as its client sees it. */
  datatype Conn = Conn(client: U64, local: Addr, remote: Addr)

  datatype World = World(
    maps: Maps,
    used: set<U64>,
    asked: map<U64, Addr>,
    dialing: map<U64, Addr>,
    open: map<U64, Socket>,
    conns: map<nat, Conn>,
    half: set<nat>,
    kept: set<nat>,
    next: nat)

  datatype Event =
    | Connect(cookie: U64, dst: Addr, uid: U64, updated: bool)
    | Open(cookie: U64, local: Addr, remote: Addr, registers: bool)
    | Accept(cookie: U64, local: Addr, remote: Addr, registers: bool, conn: nat)
    | AcceptForeign(cookie: U64, local: Addr, remote: Addr, registers: bool)
    | Drop(conn: nat)
    | Close(cookie: U64)
    | EvictSess(cookie: U64)
    | EvictPair(pair: Pair)

  function Start(): World {
    World(Maps(map[], map[], map[]), {}, map[], map[], map[], map[], {}, {}, 0)
  }

  predicate SameEnds(a: Addr, b: Addr, c: Addr, d: Addr) {
    (a == c && b == d) || (a == d && b == c)
  }

  /** No live end, on either side, uses this pair of addresses. */
  ghost predicate Free(w: World, a: Addr, b: Addr) {
    && (forall c | c in w.open :: !SameEnds(w.open[c].local, w.open[c].remote, a, b))
    && (forall n | n in w.half && n in w.conns :: !SameEnds(w.conns[n].local, w.conns[n].remote, a, b))
  }

  /** What the kernel guarantees of each event. A client's end is established before the accepting end. */
  ghost predicate Enabled(w: World, e: Event) {
    match e
    case Connect(c, _, _, _) => c !in w.used
    case Open(c, l, r, _) => c in w.dialing && r == w.dialing[c] && l != r && Free(w, l, r)
    case Accept(c, l, r, _, n) =>
      c !in w.used && n in w.half && n in w.conns && l == w.conns[n].remote && r == w.conns[n].local
    case AcceptForeign(c, l, r, _) => c !in w.used && Free(w, l, r)
    case Drop(n) => n in w.half
    case Close(c) => c in w.open
    case EvictSess(_) => true
    case EvictPair(_) => true
  }

  /** `kept` is a history variable: the connections whose session entry was still there when the client's
      end was established, and whose pair entry has not been evicted since. */
  function Next(w: World, e: Event): World {
    match e
    case Connect(c, dst, uid, updated) =>
      var v := w.(maps := OnConnect(w.maps, c, dst, uid, updated), used := w.used + {c});
      if !Allowed(dst, uid, updated) then v
      else v.(asked := w.asked[c := dst], dialing := w.dialing[c := Dials(dst, uid)])
    case Open(c, l, r, registers) =>
      w.(maps := OnEstablished(w.maps, c, l, r, registers), dialing := w.dialing - {c},
         open := w.open[c := Socket(l, r, w.next)], conns := w.conns[w.next := Conn(c, l, r)],
         half := w.half + {w.next}, kept := if c in w.maps.sess then w.kept + {w.next} else w.kept, next := w.next + 1)
    case Accept(c, l, r, registers, n) =>
      w.(maps := OnEstablished(w.maps, c, l, r, registers), used := w.used + {c},
         open := w.open[c := Socket(l, r, n)], half := w.half - {n})
    case AcceptForeign(c, l, r, registers) =>
      w.(maps := OnEstablished(w.maps, c, l, r, registers), used := w.used + {c},
         open := w.open[c := Socket(l, r, w.next)], next := w.next + 1)
    case Drop(n) => w.(half := w.half - {n})
    case Close(c) =>
      var socks := map k | k in w.maps.socks && w.maps.socks[k] != c :: w.maps.socks[k];
      w.(maps := w.maps.(socks := socks), open := w.open - {c})
    case EvictSess(c) => w.(maps := w.maps.(sess := w.maps.sess - {c}))
    case EvictPair(p) =>
      w.(maps := w.maps.(pairs := w.maps.pairs - {p}),
         kept := set n | n in w.kept && !(n in w.conns && Key(w.conns[n].local, w.conns[n].remote) == p))
  }

  /** The event sequences the kernel can produce, and the world each ends in. */
  ghost predicate Legal(es: seq<Event>)
    decreases |es|, 0
  {
    es != [] ==> Legal(es[..|es| - 1]) && Enabled(Exec(es[..|es| - 1]), es[|es| - 1])
  }

  ghost function Exec(es: seq<Event>): World
    requires Legal(es)
    decreases |es|, 1
  {
    if es == [] then Start() else Next(Exec(es[..|es| - 1]), es[|es| - 1])
  }

  // ----- Invariants -----

  ghost predicate Redirected(a: Addr) {
    a.ip == BRIDGE && a.port != PROXY
  }

  ghost predicate KnownSockets(w: World) {
    && (forall c | c in w.open || c in w.asked || c in w.dialing :: c in w.used)
    && (forall c | c in w.dialing :: c in w.asked && c !in w.open && (c in w.maps.sess ==> w.dialing[c].ip == BRIDGE))
  }

  ghost predicate KnownConns(w: World) {
    && (forall c | c in w.open :: w.open[c].conn < w.next)
    && (forall n | n in w.half :: n in w.conns)
    && (forall n | n in w.kept :: n in w.conns && w.conns[n].client in w.asked)
    && (forall n | n in w.conns :: n < w.next)
  }

  ghost predicate Known(w: World) {
    KnownSockets(w) && KnownConns(w)
  }

  /** No entry ever names the proxy's own port or an address off the bridge. */
  ghost predicate Origins(w: World) {
    && (forall c | c in w.maps.sess :: c in w.asked && w.maps.sess[c] == w.asked[c] && Redirected(w.asked[c]))
    && (forall p | p in w.maps.pairs :: Redirected(w.maps.pairs[p]))
  }

  ghost predicate Registered(w: World) {
    forall k | k in w.maps.socks ::
      w.maps.socks[k] in w.open && k == Key(w.open[w.maps.socks[k]].local, w.open[w.maps.socks[k]].remote)
  }

  /** One open socket per direction of a connection, and both directions belong to one connection. */
  ghost predicate Paired(w: World) {
    && (forall c, d | c in w.open && d in w.open ::
          w.open[c].local == w.open[d].local && w.open[c].remote == w.open[d].remote ==> c == d)
    && (forall c, d | c in w.open && d in w.open ::
          w.open[c].local == w.open[d].remote && w.open[c].remote == w.open[d].local ==>
              w.open[c].conn == w.open[d].conn)
  }

  /** A half-established connection's server address is still unused, and its client's used only by its client. */
  ghost predicate Halves(w: World) {
    && (forall n, c | n in w.half && n in w.conns && c in w.open ::
          && !(w.open[c].local == w.conns[n].remote && w.open[c].remote == w.conns[n].local)
          && (w.open[c].local == w.conns[n].local && w.open[c].remote == w.conns[n].remote ==> w.open[c].conn == n))
    && (forall n, m | n in w.half && m in w.half && n in w.conns && m in w.conns ::
          SameEnds(w.conns[n].local, w.conns[n].remote, w.conns[m].local, w.conns[m].remote) ==> n == m)
    && (forall n | n in w.conns :: w.conns[n].local != w.conns[n].remote)
  }

  /** Some end accepts, or will accept, connection `n`. */
  predicate Serves(w: World, t: U64, n: nat) {
    && t in w.open && n in w.conns && w.open[t].conn == n
    && w.open[t].local == w.conns[n].remote && w.open[t].remote == w.conns[n].local
  }

  ghost predicate Live(w: World, n: nat) {
    n in w.half || exists t :: Serves(w, t, n)
  }

  ghost predicate Carried(w: World) {
    forall n | n in w.kept && n in w.conns && w.conns[n].client in w.asked && Live(w, n) ::
      var p := Key(w.conns[n].local, w.conns[n].remote);
      p in w.maps.pairs && w.maps.pairs[p] == w.asked[w.conns[n].client]
  }

  lemma KnownSocketsStep(w: World, e: Event)
    requires KnownSockets(w) && Origins(w) && Enabled(w, e)
    ensures KnownSockets(Next(w, e))
  {}

  lemma KnownConnsStep(w: World, e: Event)
    requires Known(w) && Origins(w) && Enabled(w, e)
    ensures KnownConns(Next(w, e))
  {}

  lemma OriginsEstablished(w: World, e: Event)
    requires Origins(w) && Enabled(w, e) && Establishes(e)
    ensures Origins(Next(w, e))
  {}

  lemma OriginsStep(w: World, e: Event)
    requires Known(w) && Origins(w) && Enabled(w, e)
    ensures Origins(Next(w, e))
  {
    if Establishes(e) {
      OriginsEstablished(w, e);
    }
  }

  lemma RegisteredClose(w: World, c: U64)
    requires Registered(w)
    ensures Registered(Next(w, Close(c)))
  {}

  lemma RegisteredEstablished(w: World, e: Event)
    requires KnownSockets(w) && Registered(w) && Enabled(w, e) && Establishes(e)
    ensures Registered(Next(w, e))
  {
    var v, key := Next(w, e), Key(e.local, e.remote);
    assert e.cookie !in w.open && v.open == w.open[e.cookie := v.open[e.cookie]];
    assert forall k <- v.maps.socks :: (k in w.maps.socks && v.maps.socks[k] == w.maps.socks[k])
                                       || (k == key && v.maps.socks[k] == e.cookie);
  }

  lemma RegisteredStep(w: World, e: Event)
    requires KnownSockets(w) && Registered(w) && Enabled(w, e)
    ensures Registered(Next(w, e))
  {
    if e.Close? {
      RegisteredClose(w, e.cookie);
    } else if Establishes(e) {
      RegisteredEstablished(w, e);
    }
  }

  lemma PairedAccept(w: World, e: Event)
    requires Known(w) && Paired(w) && Halves(w) && Enabled(w, e) && e.Accept?
    ensures Paired(Next(w, e))
  {}

  lemma PairedStep(w: World, e: Event)
    requires Known(w) && Paired(w) && Halves(w) && Enabled(w, e)
    ensures Paired(Next(w, e))
  {
    if e.Accept? {
      PairedAccept(w, e);
    }
  }

  lemma HalvesOpen(w: World, e: Event)
    requires Known(w) && Halves(w) && Enabled(w, e) && e.Open?
    ensures Halves(Next(w, e))
  {}

  lemma HalvesAccept(w: World, e: Event)
    requires Known(w) && Halves(w) && Enabled(w, e) && (e.Accept? || e.AcceptForeign?)
    ensures Halves(Next(w, e))
  {}

  lemma HalvesStep(w: World, e: Event)
    requires Known(w) && Halves(w) && Enabled(w, e)
    ensures Halves(Next(w, e))
  {
    if e.Open? {
      HalvesOpen(w, e);
    } else if Establishes(e) {
      HalvesAccept(w, e);
    }
  }

  /** Only the establishment of its own client's end brings a connection to life. */
  lemma LiveBefore(w: World, e: Event, n: nat)
    requires Known(w) && Enabled(w, e) && n in w.conns && Live(Next(w, e), n)
    ensures Live(w, n)
  {
    var v := Next(w, e);
    if n !in v.half {
      var t :| Serves(v, t, n);
      if t in w.open {
        assert Serves(w, t, n);
      }
    }
  }

  lemma OccupiedIsNotFree(w: World, n: nat, a: Addr, b: Addr)
    requires n in w.conns && Live(w, n) && Free(w, a, b)
    ensures Key(w.conns[n].local, w.conns[n].remote) != Key(a, b)
  {}

  lemma CarriedStep(w: World, e: Event)
    requires Known(w) && Origins(w) && Carried(w) && Enabled(w, e)
    ensures Carried(Next(w, e))
  {
    var v := Next(w, e);
    forall n | n in v.kept && n in v.conns && v.conns[n].client in v.asked && Live(v, n)
      ensures Key(v.conns[n].local, v.conns[n].remote) in v.maps.pairs
      ensures v.maps.pairs[Key(v.conns[n].local, v.conns[n].remote)] == v.asked[v.conns[n].client]
    {
      if n in w.conns && n < w.next {
        LiveBefore(w, e, n);
        if e.Open? || e.AcceptForeign? {
          OccupiedIsNotFree(w, n, e.local, e.remote);
        }
      }
    }
  }

  ghost predicate Sound(w: World) {
    Known(w) && Origins(w) && Registered(w) && Paired(w) && Halves(w) && Carried(w)
  }

  lemma {:induction false} EveryRun(es: seq<Event>)
    requires Legal(es)
    ensures Sound(Exec(es))
    decreases |es|
  {
    if es != [] {
      var w, e := Exec(es[..|es| - 1]), es[|es| - 1];
      EveryRun(es[..|es| - 1]);
      KnownSocketsStep(w, e);
      KnownConnsStep(w, e);
      OriginsStep(w, e);
      RegisteredStep(w, e);
      PairedStep(w, e);
      HalvesStep(w, e);
      CarriedStep(w, e);
    }
  }

  /** In every run, whatever `getsockopt` reports is a destination the connect hook redirected. */
  lemma NeverTheProxyItself(es: seq<Event>, local: Addr, remote: Addr)
    requires Legal(es) && OriginalDst(Exec(es).maps, local, remote).Some?
    ensures Redirected(OriginalDst(Exec(es).maps, local, remote).value)
  {
    EveryRun(es);
  }

  // ----- Whole runs, from the events alone -----

  predicate Establishes(e: Event) {
    e.Open? || e.Accept? || e.AcceptForeign?
  }

  /** The connect hook leaves this one alone: it does not go to the bridge address, it goes to the proxy itself, or
      it comes from root or from the proxy's own user. */
  predicate Exempt(dst: Addr, uid: U64) {
    dst.ip != BRIDGE || dst.port == PROXY || uid == 0 || uid == 1600
  }

  predicate Asks(e: Event, c: U64, dst: Addr) {
    e.Connect? && e.cookie == c && e.dst == dst && e.updated && !Exempt(dst, e.uid)
  }

  /** At `i` socket `c` asked for `dst` and was redirected, and its session entry outlived the events before `j`. */
  ghost predicate Remembered(es: seq<Event>, i: nat, j: nat, c: U64, dst: Addr) {
    i < j <= |es| && Asks(es[i], c, dst) && forall k | i < k < j :: es[k] != EvictSess(c)
  }

  ghost predicate Remembers(es: seq<Event>, j: nat, c: U64, dst: Addr) {
    exists i: nat :: Remembered(es, i, j, c, dst)
  }

  /** One end of the connection is on the bridge address. */
  predicate Touches(e: Event)
    requires Establishes(e)
  {
    e.local.ip == BRIDGE || e.remote.ip == BRIDGE
  }

  /** At `j` an end with key `p` is established by a socket still remembered to have asked for `dst`. */
  ghost predicate Brings(es: seq<Event>, j: nat, p: Pair, dst: Addr) {
    && j < |es| && Establishes(es[j]) && Touches(es[j]) && Key(es[j].local, es[j].remote) == p
    && Remembers(es, j, es[j].cookie, dst)
  }

  /** The last such establishment on `p`, with no eviction of `p` since. */
  ghost predicate LastBrought(es: seq<Event>, j: nat, p: Pair, dst: Addr) {
    Brings(es, j, p, dst) && forall k | j < k < |es| :: es[k] != EvictPair(p) && forall d :: !Brings(es, k, p, d)
  }

  lemma RemembersSnoc(es: seq<Event>, n: nat, c: U64, dst: Addr)
    requires n < |es|
    ensures Remembers(es, n + 1, c, dst) <==>
            Asks(es[n], c, dst) || (Remembers(es, n, c, dst) && es[n] != EvictSess(c))
  {
    if Asks(es[n], c, dst) {
      assert Remembered(es, n, n + 1, c, dst);
    }
    if Remembers(es, n, c, dst) && es[n] != EvictSess(c) {
      var i: nat :| Remembered(es, i, n, c, dst);
      assert Remembered(es, i, n + 1, c, dst);
    }
    if Remembers(es, n + 1, c, dst) {
      var i: nat :| Remembered(es, i, n + 1, c, dst);
      if i < n {
        assert es[n] != EvictSess(c);
        assert Remembered(es, i, n, c, dst);
      }
    }
  }

  /** What an event sequence says of the past does not change as it grows. */
  lemma RemembersPrefix(es: seq<Event>, n: nat, j: nat, c: U64, dst: Addr)
    requires j <= n <= |es|
    ensures Remembers(es[..n], j, c, dst) <==> Remembers(es, j, c, dst)
  {
    if Remembers(es, j, c, dst) {
      var i: nat :| Remembered(es, i, j, c, dst);
      assert Remembered(es[..n], i, j, c, dst);
    }
    if Remembers(es[..n], j, c, dst) {
      var i: nat :| Remembered(es[..n], i, j, c, dst);
      assert forall k | i < k < j :: es[k] == es[..n][k];
      assert Remembered(es, i, j, c, dst);
    }
  }

  predicate Has<K, V(==)>(m: map<K, V>, k: K, v: V) {
    k in m && m[k] == v
  }

  lemma SessionStep(w: World, e: Event, c: U64, dst: Addr)
    requires Known(w) && Origins(w) && Enabled(w, e)
    ensures Has(Next(w, e).maps.sess, c, dst) <==> Asks(e, c, dst) || (Has(w.maps.sess, c, dst) && e != EvictSess(c))
  {}

  /** The session map, from the events alone. */
  lemma {:induction false} SessionExactly(es: seq<Event>, c: U64, dst: Addr)
    requires Legal(es)
    ensures Has(Exec(es).maps.sess, c, dst) <==> Remembers(es, |es|, c, dst)
    decreases |es|
  {
    if es != [] {
      var n := |es| - 1;
      EveryRun(es[..n]);
      SessionExactly(es[..n], c, dst);
      SessionStep(Exec(es[..n]), es[n], c, dst);
      RemembersPrefix(es, n, n, c, dst);
      RemembersSnoc(es, n, c, dst);
    }
  }

  // ----- Where sockets dial -----

  /** The socket asks for `a` and is left alone, or asks for something else and is sent to the proxy. */
  predicate Calls(e: Event, c: U64, a: Addr) {
    e.Connect? && e.cookie == c && if Exempt(e.dst, e.uid) then a == e.dst else e.updated && a == Addr(BRIDGE, PROXY)
  }

  /** At `i` the socket called `a`, and its end has not been established since. */
  ghost predicate Calling(es: seq<Event>, i: nat, c: U64, a: Addr) {
    i < |es| && Calls(es[i], c, a) && forall k | i < k < |es| :: !(es[k].Open? && es[k].cookie == c)
  }

  lemma CallingSnoc(es: seq<Event>, c: U64, a: Addr)
    requires es != []
    ensures var n := |es| - 1;
            (exists i: nat :: Calling(es, i, c, a)) <==>
            Calls(es[n], c, a) || ((exists i: nat :: Calling(es[..n], i, c, a)) && !(es[n].Open? && es[n].cookie == c))
  {
    var n := |es| - 1;
    if Calls(es[n], c, a) {
      assert Calling(es, n, c, a);
    }
    if i: nat :| Calling(es, i, c, a) {
      assert i < n ==> Calling(es[..n], i, c, a);
    }
    if i: nat :| Calling(es[..n], i, c, a) {
      assert !(es[n].Open? && es[n].cookie == c) ==> Calling(es, i, c, a);
    }
  }

  lemma DialingStep(w: World, e: Event, c: U64, a: Addr)
    requires KnownSockets(w) && Enabled(w, e)
    ensures Has(Next(w, e).dialing, c, a) <==>
            Calls(e, c, a) || (Has(w.dialing, c, a) && !(e.Open? && e.cookie == c))
  {}

  /** Where sockets dial, from the events alone: root, the proxy's user and connections elsewhere get what they asked
      for, all others the proxy, and none when the session map does not take their entry. */
  lemma {:induction false} DialingExactly(es: seq<Event>, c: U64, a: Addr)
    requires Legal(es)
    ensures Has(Exec(es).dialing, c, a) <==> exists i: nat :: Calling(es, i, c, a)
    decreases |es|
  {
    if es != [] {
      var n := |es| - 1;
      EveryRun(es[..n]);
      DialingExactly(es[..n], c, a);
      DialingStep(Exec(es[..n]), es[n], c, a);
      CallingSnoc(es, c, a);
    }
  }

  // ----- The pair entries -----

  predicate Files(w: World, e: Event, p: Pair, dst: Addr) {
    && Establishes(e) && OnBridge(e.local, e.remote) && Key(e.local, e.remote) == p
    && Has(w.maps.sess, e.cookie, dst)
  }

  lemma PairStep(w: World, e: Event, p: Pair, dst: Addr)
    ensures Has(Next(w, e).maps.pairs, p, dst) <==>
            || Files(w, e, p, dst)
            || (Has(w.maps.pairs, p, dst) && e != EvictPair(p) && forall d :: !Files(w, e, p, d))
  {
    var v := Next(w, e);
    if Establishes(e) && OnBridge(e.local, e.remote) && e.cookie in w.maps.sess {
      assert Files(w, e, Key(e.local, e.remote), w.maps.sess[e.cookie]);
    }
  }

  lemma BringsAtEnd(es: seq<Event>, p: Pair, dst: Addr)
    requires Legal(es) && es != []
    ensures Brings(es, |es| - 1, p, dst) <==> Files(Exec(es[..|es| - 1]), es[|es| - 1], p, dst)
  {
    var n := |es| - 1;
    if Establishes(es[n]) {
      SessionExactly(es[..n], es[n].cookie, dst);
      RemembersPrefix(es, n, n, es[n].cookie, dst);
    }
  }

  lemma BringsPrefix(es: seq<Event>, n: nat, j: nat, p: Pair, dst: Addr)
    requires j < n <= |es|
    ensures Brings(es[..n], j, p, dst) <==> Brings(es, j, p, dst)
  {
    if Establishes(es[j]) {
      RemembersPrefix(es, n, j, es[j].cookie, dst);
    }
  }

  ghost predicate Brought(es: seq<Event>, p: Pair, dst: Addr) {
    exists j: nat :: LastBrought(es, j, p, dst)
  }

  lemma BroughtSnoc(es: seq<Event>, p: Pair, dst: Addr)
    requires es != []
    ensures var n := |es| - 1;
            Brought(es, p, dst) <==>
            || Brings(es, n, p, dst)
            || (Brought(es[..n], p, dst) && es[n] != EvictPair(p) && forall d :: !Brings(es, n, p, d))
  {
    var n := |es| - 1;
    forall j: nat, d | j < n
      ensures Brings(es[..n], j, p, d) <==> Brings(es, j, p, d)
    {
      BringsPrefix(es, n, j, p, d);
    }
    if Brings(es, n, p, dst) {
      assert LastBrought(es, n, p, dst);
    }
    if Brought(es[..n], p, dst) && es[n] != EvictPair(p) && forall d :: !Brings(es, n, p, d) {
      var j: nat :| LastBrought(es[..n], j, p, dst);
      assert LastBrought(es, j, p, dst);
    }
    if Brought(es, p, dst) {
      var j: nat :| LastBrought(es, j, p, dst);
      if j < n {
        assert LastBrought(es[..n], j, p, dst);
      }
    }
  }

  /** `getsockopt` reports `dst` exactly when the last remembered establishment on the mirrored key, not
      evicted since, was by a socket that had asked for `dst`. */
  lemma {:induction false} OriginExactly(es: seq<Event>, local: Addr, remote: Addr, dst: Addr)
    requires Legal(es)
    ensures OriginalDst(Exec(es).maps, local, remote) == Some(dst) <==> Brought(es, Key(remote, local), dst)
    decreases |es|
  {
    var p := Key(remote, local);
    if es != [] {
      var n := |es| - 1;
      OriginExactly(es[..n], local, remote, dst);
      PairStep(Exec(es[..n]), es[n], p, dst);
      forall d ensures Brings(es, n, p, d) <==> Files(Exec(es[..n]), es[n], p, d) {
        BringsAtEnd(es, p, d);
      }
      BroughtSnoc(es, p, dst);
    }
  }

  lemma {:induction false} LegalPrefix(es: seq<Event>, k: nat)
    requires Legal(es) && k <= |es|
    ensures Legal(es[..k])
    decreases |es|
  {
    if k < |es| {
      LegalPrefix(es[..|es| - 1], k);
      assert es[..|es| - 1][..k] == es[..k];
    } else {
      assert es[..k] == es;
    }
  }

  /** The world before event `j` of a run. */
  ghost function ExecTo(es: seq<Event>, j: nat): World
    requires Legal(es) && j <= |es|
  {
    LegalPrefix(es, j);
    Exec(es[..j])
  }

  /** What a redirected client's establishment at `j` leaves behind. */
  lemma {:induction false} KeptSince(es: seq<Event>, j: nat, c: U64, dst: Addr)
    requires Legal(es) && j < |es| && es[j].Open? && es[j].cookie == c && Remembers(es, j, c, dst)
    requires Unevicted(es, j, Key(es[j].local, es[j].remote))
    ensures var w, n := Exec(es), ExecTo(es, j).next;
            n in w.kept && Has(w.conns, n, Conn(c, es[j].local, es[j].remote)) && Has(w.asked, c, dst)
    decreases |es|
  {
    var m := |es| - 1;
    EveryRun(es[..m]);
    if j == m {
      SessionExactly(es[..m], c, dst);
      RemembersPrefix(es, m, m, c, dst);
    } else {
      RemembersPrefix(es, m, j, c, dst);
      assert es[..m][..j] == es[..j];
      KeptSince(es[..m], j, c, dst);
    }
  }

  /** Transparency: the accepting end of a redirected connection learns what its own client asked for, as
      long as neither entry was evicted, whatever else happens on the node. */
  lemma Transparent(es: seq<Event>, j: nat, dst: Addr, t: U64)
    requires Legal(es) && j < |es| && es[j].Open? && Remembers(es, j, es[j].cookie, dst)
    requires Unevicted(es, j, Key(es[j].local, es[j].remote))
    requires Serves(Exec(es), t, ExecTo(es, j).next)
    ensures OriginalDst(Exec(es).maps, Exec(es).open[t].local, Exec(es).open[t].remote) == Some(dst)
  {
    EveryRun(es);
    KeptSince(es, j, es[j].cookie, dst);
  }

  /** While a connection lives, only an eviction changes the entry under its key. */
  lemma QuietStep(w: World, e: Event, n: nat, d: Addr)
    requires Sound(w) && Enabled(w, e) && n in w.conns && Live(Next(w, e), n)
    ensures var p := Key(w.conns[n].local, w.conns[n].remote);
            Live(w, n) && (Has(Next(w, e).maps.pairs, p, d) <==> Has(w.maps.pairs, p, d) && e != EvictPair(p))
  {
    LiveBefore(w, e, n);
    PairStep(w, e, Key(w.conns[n].local, w.conns[n].remote), d);
    if e.Open? || e.AcceptForeign? {
      OccupiedIsNotFree(w, n, e.local, e.remote);
    }
  }

  lemma ConnStep(w: World, e: Event, n: nat)
    requires Known(w) && n in w.conns
    ensures Has(Next(w, e).conns, n, w.conns[n])
  {}

  lemma {:induction false} Established(es: seq<Event>, j: nat)
    requires Legal(es) && j < |es| && es[j].Open?
    ensures Has(Exec(es).conns, ExecTo(es, j).next, Conn(es[j].cookie, es[j].local, es[j].remote))
    decreases |es|
  {
    var m := |es| - 1;
    if j < m {
      assert es[..m][..j] == es[..j];
      Established(es[..m], j);
      EveryRun(es[..m]);
      ConnStep(Exec(es[..m]), es[m], ExecTo(es, j).next);
    }
  }

  ghost predicate Unevicted(es: seq<Event>, j: nat, p: Pair) {
    forall k | j < k < |es| :: es[k] != EvictPair(p)
  }

  lemma {:induction false} HeldSince(es: seq<Event>, j: nat, d: Addr)
    requires Legal(es) && j < |es| && es[j].Open? && Live(Exec(es), ExecTo(es, j).next)
    ensures var p := Key(es[j].local, es[j].remote);
            Has(Exec(es).maps.pairs, p, d) <==> Has(Next(ExecTo(es, j), es[j]).maps.pairs, p, d) && Unevicted(es, j, p)
    decreases |es|
  {
    var m := |es| - 1;
    if j < m {
      var n := ExecTo(es, j).next;
      assert es[..m][..j] == es[..j];
      EveryRun(es[..m]);
      Established(es[..m], j);
      QuietStep(Exec(es[..m]), es[m], n, d);
      HeldSince(es[..m], j, d);
    }
  }

  /** When the client at `j` was not redirected, or its session entry was gone by then, its server is told a
      destination exactly when an earlier connection on the same addresses left an entry there. */
  lemma StaleExactly(es: seq<Event>, j: nat, d: Addr, t: U64)
    requires Legal(es) && j < |es| && es[j].Open?
    requires forall x :: !Remembers(es, j, es[j].cookie, x)
    requires Serves(Exec(es), t, ExecTo(es, j).next)
    ensures OriginalDst(Exec(es).maps, Exec(es).open[t].local, Exec(es).open[t].remote) == Some(d) <==>
            && Brought(es[..j], Key(es[j].local, es[j].remote), d)
            && Unevicted(es, j, Key(es[j].local, es[j].remote))
  {
    var p, w := Key(es[j].local, es[j].remote), ExecTo(es, j);
    LegalPrefix(es, j);
    Established(es, j);
    HeldSince(es, j, d);
    OriginExactly(es[..j], es[j].remote, es[j].local, d);
    PairStep(w, es[j], p, d);
    forall x ensures !Files(w, es[j], p, x) {
      SessionExactly(es[..j], es[j].cookie, x);
      RemembersPrefix(es, j, j, es[j].cookie, x);
    }
  }

  // ----- Message redirection -----

  predicate Joins(e: Event, t: U64) {
    Establishes(e) && e.cookie == t && e.registers && Touches(e)
  }

  ghost predicate Joined(es: seq<Event>, t: U64) {
    exists j: nat :: j < |es| && Joins(es[j], t)
  }

  /** `BPF_NOEXIST` never refuses a socket: its key is free whenever it is established. */
  lemma KeyIsFree(w: World, e: Event)
    requires Sound(w) && Enabled(w, e) && Establishes(e)
    ensures Key(e.local, e.remote) !in w.maps.socks
  {}

  lemma JoinedSnoc(es: seq<Event>, t: U64)
    requires es != []
    ensures Joined(es, t) <==> Joined(es[..|es| - 1], t) || Joins(es[|es| - 1], t)
  {
    var n := |es| - 1;
    if Joined(es[..n], t) {
      var j: nat :| j < n && Joins(es[..n][j], t);
      assert Joins(es[j], t);
    }
    if Joined(es, t) {
      var j: nat :| j < |es| && Joins(es[j], t);
      assert j < n ==> Joins(es[..n][j], t);
    }
  }

  lemma SpentStep(w: World, e: Event, t: U64)
    requires Known(w) && Enabled(w, e)
    requires Joins(e, t) || (t in w.used && t !in w.dialing)
    ensures t in Next(w, e).used && t !in Next(w, e).dialing
  {}

  lemma {:induction false} JoinedIsSpent(es: seq<Event>, t: U64)
    requires Legal(es) && Joined(es, t)
    ensures t in Exec(es).used && t !in Exec(es).dialing
    decreases |es|
  {
    var n := |es| - 1;
    EveryRun(es[..n]);
    JoinedSnoc(es, t);
    if Joined(es[..n], t) {
      JoinedIsSpent(es[..n], t);
    }
    SpentStep(Exec(es[..n]), es[n], t);
  }

  predicate Enlisted(w: World, t: U64) {
    t in w.open && Has(w.maps.socks, Key(w.open[t].local, w.open[t].remote), t)
  }

  lemma EnlistedAtFirst(w: World, e: Event)
    requires Sound(w) && Enabled(w, e) && Establishes(e)
    ensures Enlisted(Next(w, e), e.cookie) <==> Joins(e, e.cookie)
  {
    KeyIsFree(w, e);
  }

  lemma EnlistedStep(w: World, e: Event, t: U64)
    requires Sound(w) && Enabled(w, e) && t in Next(w, e).open && !(Establishes(e) && e.cookie == t)
    ensures t in w.open && (Enlisted(Next(w, e), t) <==> Enlisted(w, t))
  {
    if Establishes(e) {
      EnlistedEstablished(w, e, t);
    }
  }

  lemma EnlistedEstablished(w: World, e: Event, t: U64)
    requires Sound(w) && Enabled(w, e) && Establishes(e) && t in Next(w, e).open && e.cookie != t
    ensures t in w.open && (Enlisted(Next(w, e), t) <==> Enlisted(w, t))
  {
    KeyIsFree(w, e);
    assert Next(w, e).open[t] == w.open[t];
  }

  /** An open socket is registered, under its own key, exactly when its establishment registered it. */
  lemma {:induction false} RegisteredExactly(es: seq<Event>, t: U64)
    requires Legal(es) && t in Exec(es).open
    ensures Enlisted(Exec(es), t) <==> Joined(es, t)
    decreases |es|
  {
    var n := |es| - 1;
    EveryRun(es[..n]);
    JoinedSnoc(es, t);
    if !(Establishes(es[n]) && es[n].cookie == t) {
      EnlistedStep(Exec(es[..n]), es[n], t);
      RegisteredExactly(es[..n], t);
    } else {
      EnlistedAtFirst(Exec(es[..n]), es[n]);
      if Joined(es[..n], t) {
        JoinedIsSpent(es[..n], t);
      }
    }
  }

  /** A message on socket `s` is handed to `t` exactly when `t` is the open socket at the mirrored addresses
      and was registered; and then `t` is the other end of the same connection. */
  lemma RedirectsToThePeer(es: seq<Event>, s: U64, t: U64)
    requires Legal(es) && s in Exec(es).open
    ensures var w := Exec(es);
            RedirectTarget(w.maps, w.open[s].local, w.open[s].remote) == Some(t) <==>
            t in w.open && w.open[t].local == w.open[s].remote && w.open[t].remote == w.open[s].local && Joined(es, t)
    ensures var w := Exec(es);
            RedirectTarget(w.maps, w.open[s].local, w.open[s].remote) == Some(t) ==>
                t in w.open && w.open[t].conn == w.open[s].conn
  {
    EveryRun(es);
    if t in Exec(es).open {
      RegisteredExactly(es, t);
    }
  }

  // ----- A stale answer -----

  lemma Extend(es: seq<Event>, e: Event)
    requires Legal(es) && Enabled(Exec(es), e)
    ensures Legal(es + [e]) && Exec(es + [e]) == Next(Exec(es), e)
  {
    assert (es + [e])[..|es|] == es;
  }

  const PROXY_ADDR: Addr := Addr(BRIDGE, PROXY)

  /** Socket `c` asks for `dst` on the bridge and is connected from `client` to the proxy, which accepts it
      as socket `s`. */
  function Visit(c: U64, s: U64, client: Addr, dst: Addr, n: nat): seq<Event> {
    [Connect(c, dst, 1000, true), Open(c, client, PROXY_ADDR, true), Accept(s, PROXY_ADDR, client, true, n)]
  }

  ghost predicate CanVisit(w: World, c: U64, s: U64, client: Addr) {
    Sound(w) && c != s && c !in w.used && s !in w.used && client != PROXY_ADDR && Free(w, client, PROXY_ADDR)
  }

  lemma VisitWorld(w: World, c: U64, s: U64, client: Addr, dst: Addr)
    requires CanVisit(w, c, s, client) && dst.ip == BRIDGE
    ensures var es := Visit(c, s, client, dst, w.next);
            var w1 := Next(w, es[0]);
            var w2 := Next(w1, es[1]);
            && Enabled(w, es[0]) && Enabled(w1, es[1]) && Enabled(w2, es[2])
  {}

  function Visited(w: World, c: U64, s: U64, client: Addr, dst: Addr): World {
    var es := Visit(c, s, client, dst, w.next);
    Next(Next(Next(w, es[0]), es[1]), es[2])
  }

  lemma VisitedPairs(w: World, c: U64, s: U64, client: Addr, dst: Addr)
    requires CanVisit(w, c, s, client) && dst.ip == BRIDGE
    ensures var v := Visited(w, c, s, client, dst);
            && v.maps.pairs == (if dst.port != PROXY then w.maps.pairs[Key(client, PROXY_ADDR) := dst]
                                else w.maps.pairs)
            && Serves(v, s, w.next) && v.conns[w.next].client == c && Has(v.asked, c, dst)
            && v.used == w.used + {c, s}
  {}

  lemma VisitedLeaves(w: World, c: U64, s: U64, client: Addr, dst: Addr)
    requires CanVisit(w, c, s, client) && dst.ip == BRIDGE
    ensures var v := Visited(w, c, s, client, dst);
            Enabled(v, Close(c)) && Enabled(Next(v, Close(c)), Close(s))
                && Free(Next(Next(v, Close(c)), Close(s)), client, PROXY_ADDR)
  {}

  lemma VisitRun(es: seq<Event>, c: U64, s: U64, client: Addr, dst: Addr)
    requires Legal(es) && CanVisit(Exec(es), c, s, client) && dst.ip == BRIDGE
    ensures var run := es + Visit(c, s, client, dst, Exec(es).next);
            Legal(run) && Exec(run) == Visited(Exec(es), c, s, client, dst)
  {
    var visit := Visit(c, s, client, dst, Exec(es).next);
    VisitWorld(Exec(es), c, s, client, dst);
    Extend(es, visit[0]);
    Extend(es + [visit[0]], visit[1]);
    Extend(es + [visit[0]] + [visit[1]], visit[2]);
    assert es + [visit[0]] + [visit[1]] + [visit[2]] == es + visit;
  }

  lemma LeaveRun(es: seq<Event>, c: U64, s: U64)
    requires Legal(es) && Enabled(Exec(es), Close(c)) && Enabled(Next(Exec(es), Close(c)), Close(s))
    ensures Legal(es + [Close(c), Close(s)])
            && Exec(es + [Close(c), Close(s)]) == Next(Next(Exec(es), Close(c)), Close(s))
  {
    Extend(es, Close(c));
    Extend(es + [Close(c)], Close(s));
    assert es + [Close(c)] + [Close(s)] == es + [Close(c), Close(s)];
  }

  lemma CloseKeeps(w: World, c: U64)
    ensures Next(w, Close(c)).maps.pairs == w.maps.pairs && Next(w, Close(c)).used == w.used
  {}

  lemma ComeAndGo(es: seq<Event>, c: U64, s: U64, client: Addr, dst: Addr) returns (run: seq<Event>)
    requires Legal(es) && CanVisit(Exec(es), c, s, client) && Redirected(dst)
    ensures Legal(run) && es <= run && Has(Exec(run).maps.pairs, Key(client, PROXY_ADDR), dst)
    ensures Free(Exec(run), client, PROXY_ADDR) && Exec(run).used == Exec(es).used + {c, s}
  {
    var w := Exec(es);
    VisitRun(es, c, s, client, dst);
    VisitedPairs(w, c, s, client, dst);
    VisitedLeaves(w, c, s, client, dst);
    run := es + Visit(c, s, client, dst, w.next);
    var v := Exec(run);
    LeaveRun(run, c, s);
    run := run + [Close(c), Close(s)];
    CloseKeeps(v, c);
    CloseKeeps(Next(v, Close(c)), s);
  }

  /** Pair entries outlive their connection. After any run, a redirected visit that comes and goes, followed
      by a socket that dials the proxy itself from the same address, leaves the proxy told that the second
      socket asked for what the first one asked for. */
  lemma StaleAnswer(es: seq<Event>, c1: U64, s1: U64, c2: U64, s2: U64, client: Addr, dst: Addr)
      returns (run: seq<Event>)
    requires Legal(es) && CanVisit(Exec(es), c1, s1, client) && CanVisit(Exec(es), c2, s2, client)
    requires {c1, s1} !! {c2, s2} && Redirected(dst)
    ensures Legal(run) && es <= run
    ensures var w := Exec(run);
            && s2 in w.open && Serves(w, s2, w.open[s2].conn) && w.conns[w.open[s2].conn].client == c2
            && Has(w.asked, c2, PROXY_ADDR) && PROXY_ADDR != dst
            && OriginalDst(w.maps, w.open[s2].local, w.open[s2].remote) == Some(dst)
  {
    var gone := ComeAndGo(es, c1, s1, client, dst);
    EveryRun(gone);
    var v := Exec(gone);
    VisitRun(gone, c2, s2, client, PROXY_ADDR);
    VisitedPairs(v, c2, s2, client, PROXY_ADDR);
    run := gone + Visit(c2, s2, client, PROXY_ADDR, v.next);
  }
}
