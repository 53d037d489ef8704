/** The XDP program that answers DNS queries for mesh hostnames in place. */
module DnsResponder {
  import opened Words
  import opened Checksum
  import opened DnsName
  import opened DnsMessage

  datatype Action = XDP_PASS | XDP_TX

  /** `struct a_record`; an address is its four octets in network order. */
  datatype ARecord = ARecord(ip: Ip4, ttl: U32)

  type Ip4 = ip: seq<Byte> | |ip| == 4 witness [0, 0, 0, 0]

  // ----- What the program decides on -----

  /** A UDP datagram for port 53 of a known DNS endpoint that carries a standard query. */
  predicate IsStandardQuery(pkt: seq<Byte>, endpoints: map<Ip4, Ip4>) {
    && |pkt| >= 54
    && LoadBe16(pkt, 12) == 0x0800
    && pkt[23] == 17
    && pkt[30..34] in endpoints
    && LoadBe16(pkt, 36) == 53
    && pkt[44] < 8
  }

  datatype Hit = Miss | Hit(length: nat, record: ARecord)

  /** The record, if any, that the program finds for a packet, and the length of its question. */
  function Lookup(pkt: seq<Byte>, endpoints: map<Ip4, Ip4>, records: map<Key, ARecord>): Hit {
    if !IsStandardQuery(pkt, endpoints) then Miss
    else match Parse(pkt, 54)
      case NoName => Miss
      case Question(n, key) => if key in records then Hit(n, records[key]) else Miss
  }

  /** The packet resized to `n` octets; a grown tail is zero-filled. */
  function Resized(pkt: seq<Byte>, n: nat): (r: seq<Byte>)
    ensures |r| == n
  {
    if n <= |pkt| then pkt[..n] else pkt + Zeros(n - |pkt|)
  }

  function SetTopBit(b: Byte): Byte {
    if b < 0x80 then b + 0x80 else b
  }

  /** The DNS header turned into a response header: QR, RA and the answer count are set. */
  function ResponseHeader(pkt: seq<Byte>): (r: seq<Byte>)
    requires |pkt| >= 54
    ensures |r| == |pkt|
  {
    pkt[44 := SetTopBit(pkt[44])][45 := SetTopBit(pkt[45])][48 := 0][49 := 1]
  }

  function Blank(frame: seq<Byte>): seq<Byte>
    requires |frame| >= 42
  {
    frame[40 := 0][41 := 0]
  }

  /** Ethernet: addresses swapped. */
  predicate LinkReply(req: seq<Byte>, out: seq<Byte>)
    requires |req| >= 54 && |out| >= 70
  {
    out[0..6] == req[6..12] && out[6..12] == req[0..6] && out[12..14] == req[12..14]
  }

  /** IPv4: from the DNS service's cluster address back to the client. */
  predicate NetworkReply(req: seq<Byte>, out: seq<Byte>, length: nat, cluster: Ip4)
    requires |req| >= 54 && |out| >= 70
  {
    && out[14..16] == req[14..16] && LoadBe16(out, 16) == (56 + length) % 0x1_0000 && out[18..24] == req[18..24]
    && out[26..30] == cluster && out[30..34] == req[26..30]
    && Verifies(out[14..34])
  }

  /** UDP: ports swapped. */
  predicate TransportReply(req: seq<Byte>, out: seq<Byte>, length: nat)
    requires |req| >= 54 && |out| >= 70
  {
    && out[34..36] == req[36..38] && out[36..38] == req[34..36] && LoadBe16(out, 38) == (36 + length) % 0x1_0000
    && LoadLe16(out, 40) == UdpFold(UdpAccumulator(Blank(out)))
  }

  /** DNS: the response header, the question as it was, and the answer. */
  predicate DnsReply(req: seq<Byte>, out: seq<Byte>, length: nat, rec: ARecord)
    requires |req| >= 54 && |out| == 70 + length
  {
    && out[42..44] == req[42..44] && out[44] == SetTopBit(req[44]) && out[45] == SetTopBit(req[45])
    && out[46..48] == req[46..48] && LoadBe16(out, 48) == 1 && out[50..54] == req[50..54]
    && out[54..54 + length] == Resized(req, 70 + length)[54..54 + length]
    && out[54 + length..] == AnswerOctets(rec.ip, rec.ttl)
  }

  /** Every octet of the emitted frame, in terms of the query, the found record and the cluster address. */
  predicate IsReplyFrame(req: seq<Byte>, out: seq<Byte>, length: nat, cluster: Ip4, rec: ARecord)
    requires |req| >= 54
  {
    && |out| == 70 + length
    && LinkReply(req, out)
    && NetworkReply(req, out, length, cluster)
    && TransportReply(req, out, length)
    && DnsReply(req, out, length, rec)
  }

  // ----- The program -----

  function Put(s: seq<Byte>, off: nat, octets: seq<Byte>): (r: seq<Byte>)
    requires off + |octets| <= |s|
    ensures |r| == |s|
    ensures forall i | 0 <= i < |r| :: r[i] == if off <= i < off + |octets| then octets[i - off] else s[i]
  {
    s[..off] + octets + s[off + |octets|..]
  }

  /** Octets `lo..hi` of `out` are those of `src`, shifted by `shift`. */
  predicate Copied(out: seq<Byte>, lo: nat, hi: nat, src: seq<Byte>, shift: int)
    requires lo <= hi <= |out| && 0 <= lo + shift && hi + shift <= |src|
  {
    forall i | lo <= i < hi :: out[i] == src[i + shift]
  }

  class XdpContext {
    /** The octets between `data` and `data_end`. */
    var pkt: seq<Byte>

    constructor (octets: seq<Byte>)
      ensures pkt == octets
    {
      pkt := octets;
    }

    method ModifyDnsHeaderResponse()
      requires |pkt| >= 54
      modifies this
      ensures pkt == ResponseHeader(old(pkt))
    {
      pkt := pkt[44 := SetTopBit(pkt[44])];
      pkt := pkt[45 := SetTopBit(pkt[45])];
      pkt := pkt[48 := 0][49 := 1];
    }

    /** `bpf_xdp_adjust_tail`, when it succeeds. */
    method AdjustTail(adjust: int)
      requires |pkt| + adjust >= 0
      modifies this
      ensures pkt == Resized(old(pkt), |old(pkt)| + adjust)
    {
      pkt := Resized(pkt, |pkt| + adjust);
    }

    /** `copy_to_pkt_buf`: nothing is copied unless all of it fits. */
    method CopyToPacket(dst: nat, src: seq<Byte>)
      modifies this
      ensures pkt == if dst + |src| <= |old(pkt)| then Put(old(pkt), dst, src) else old(pkt)
    {
      if |pkt| >= dst + |src| {
        pkt := Put(pkt, dst, src);
      }
    }

    method SwapMac()
      requires |pkt| >= 12
      modifies this
      ensures |pkt| == |old(pkt)|
      ensures Copied(pkt, 0, 6, old(pkt), 6) && Copied(pkt, 6, 12, old(pkt), -6) && Copied(pkt, 12, |pkt|, old(pkt), 0)
    {
      var tmp := pkt[6..12];
      pkt := Put(pkt, 6, pkt[0..6]);
      pkt := Put(pkt, 0, tmp);
    }

    method SwapPorts()
      requires |pkt| >= 38
      modifies this
      ensures |pkt| == |old(pkt)|
      ensures Copied(pkt, 34, 36, old(pkt), 2) && Copied(pkt, 36, 38, old(pkt), -2)
      ensures Copied(pkt, 0, 34, old(pkt), 0) && Copied(pkt, 38, |pkt|, old(pkt), 0)
    {
      var tmp := pkt[34..36];
      pkt := Put(pkt, 34, pkt[36..38]);
      pkt := Put(pkt, 36, tmp);
    }

    /** Lengths from the adjusted frame, then source and destination addresses. */
    method WriteLengthsAndAddresses(cluster: Ip4)
      requires 42 <= |pkt|
      modifies this
      ensures |pkt| == |old(pkt)|
      ensures LoadBe16(pkt, 16) == (|pkt| - 14) % 0x1_0000 && LoadBe16(pkt, 38) == (|pkt| - 34) % 0x1_0000
      ensures Copied(pkt, 26, 30, cluster, -26) && Copied(pkt, 30, 34, old(pkt), -4)
      ensures Copied(pkt, 0, 16, old(pkt), 0) && Copied(pkt, 18, 26, old(pkt), 0)
      ensures Copied(pkt, 34, 38, old(pkt), 0) && Copied(pkt, 40, |pkt|, old(pkt), 0)
    {
      pkt := Put(pkt, 16, Be16((|pkt| - 14) % 0x1_0000));
      pkt := Put(pkt, 38, Be16((|pkt| - 34) % 0x1_0000));
      var src := pkt[26..30];
      pkt := Put(pkt, 26, cluster);
      pkt := Put(pkt, 30, src);
    }

    /** The IPv4 header checksum, computed with the field zeroed; the header then verifies. */
    method UpdateIpChecksum()
      requires |pkt| >= 34 && pkt[23] != 0
      modifies this
      ensures |pkt| == |old(pkt)| && Copied(pkt, 0, 24, old(pkt), 0) && Copied(pkt, 26, |pkt|, old(pkt), 0)
      ensures Verifies(pkt[14..34])
    {
      pkt := pkt[24 := 0][25 := 0];
      ghost var zeroed := pkt;
      var check := Ipv4Csum(pkt[14..34]);
      pkt := Put(pkt, 24, Le16(check));
      FieldCompletes(zeroed, pkt, check);
    }

    method UpdateUdpChecksum()
      requires |pkt| >= 42
      modifies this
      ensures |pkt| == |old(pkt)| && Copied(pkt, 0, 40, old(pkt), 0) && Copied(pkt, 42, |pkt|, old(pkt), 0)
      ensures LoadLe16(pkt, 40) == UdpFold(UdpAccumulator(Blank(pkt)))
    {
      pkt := Blank(pkt);
      ghost var zeroed := pkt;
      var check := CalUdpCsum(pkt);
      pkt := Put(pkt, 40, Le16(check));
      assert Blank(pkt) == zeroed;
    }

    /** The frame-level rewriting of a resized packet that already holds the DNS part. */
    method RewriteHeaders(cluster: Ip4)
      requires 70 <= |pkt| && pkt[23] != 0
      modifies this
      ensures |pkt| == |old(pkt)|
      ensures Copied(pkt, 0, 6, old(pkt), 6) && Copied(pkt, 6, 12, old(pkt), -6) && Copied(pkt, 12, 16, old(pkt), 0)
      ensures LoadBe16(pkt, 16) == (|pkt| - 14) % 0x1_0000 && LoadBe16(pkt, 38) == (|pkt| - 34) % 0x1_0000
      ensures Copied(pkt, 18, 24, old(pkt), 0) && Copied(pkt, 26, 30, cluster, -26) && Copied(pkt, 30, 34, old(pkt), -4)
      ensures Copied(pkt, 34, 36, old(pkt), 2) && Copied(pkt, 36, 38, old(pkt), -2)
              && Copied(pkt, 42, |pkt|, old(pkt), 0)
      ensures Verifies(pkt[14..34]) && LoadLe16(pkt, 40) == UdpFold(UdpAccumulator(Blank(pkt)))
    {
      WriteLengthsAndAddresses(cluster);
      SwapPorts();
      SwapMac();
      UpdateIpChecksum();
      ghost var before := pkt;
      UpdateUdpChecksum();
      assert pkt[14..34] == before[14..34];
    }

    /** `ecnet_dns_proxy`. `tailOk` is whether `bpf_xdp_adjust_tail` succeeds. A missed packet passes
        unchanged, and a passed packet is changed exactly when a hit could not be resized: its header
        then already claims to be a response. */
    method DnsProxy(endpoints: map<Ip4, Ip4>, records: map<Key, ARecord>, tailOk: bool) returns (action: Action)
      modifies this
      ensures action == XDP_TX <==> Lookup(old(pkt), endpoints, records).Hit? && tailOk
      ensures action == XDP_PASS ==> (pkt != old(pkt) <==> Lookup(old(pkt), endpoints, records).Hit?)
      ensures action == XDP_PASS && pkt != old(pkt) ==> pkt == ResponseHeader(old(pkt))
      ensures action == XDP_TX ==>
                var hit := Lookup(old(pkt), endpoints, records);
                IsReplyFrame(old(pkt), pkt, hit.length, endpoints[old(pkt)[30..34]], hit.record)
    {
      if 34 > |pkt| {
        return XDP_PASS;
      }
      if LoadBe16(pkt, 12) != 0x0800 {
        return XDP_PASS;
      }
      if pkt[23] != 17 {
        return XDP_PASS;
      }
      if 54 > |pkt| {
        return XDP_PASS;
      }
      var eip := pkt[30..34];
      if eip !in endpoints {
        return XDP_PASS;
      }
      var cluster := endpoints[eip];
      if LoadBe16(pkt, 36) == 53 {
        var qr, opcode := pkt[44] / 0x80, pkt[44] / 8 % 16;
        if qr == 0 && opcode == 0 {
          var length, key := ParseQuery(pkt, 54);
          if length < 1 {
            return XDP_PASS;
          }
          if key in records {
            ghost var req := pkt;
            ModifyDnsHeaderResponse();
            var buf := CreateQueryResponse(records[key]);
            var adjust := 54 + length + |buf| - |pkt|;
            if tailOk {
              AdjustTail(adjust);
              CopyToPacket(54 + length, buf);
              ghost var staged := pkt;
              RewriteHeaders(cluster);
              StagedReply(req, staged, pkt, length, cluster, records[key]);
              return XDP_TX;
            }
          }
        }
      }
      return XDP_PASS;
    }
  }

  /** `create_query_response`: the fields in the order they are written. */
  method CreateQueryResponse(rec: ARecord) returns (buf: seq<Byte>)
    ensures buf == AnswerOctets(rec.ip, rec.ttl)
  {
    buf := Zeros(16);
    buf := Put(buf, 0, Be16(0xc00c));
    buf := Put(buf, 4, Be16(DNS_CLASS_IN));
    buf := Put(buf, 6, Be32(rec.ttl));
    buf := Put(buf, 2, Be16(A_RECORD_TYPE));
    buf := Put(buf, 10, Be16(4));
    buf := Put(buf, 12, rec.ip);
  }

  /** The steps of the rewriting put together. */
  lemma StagedReply(req: seq<Byte>, staged: seq<Byte>, out: seq<Byte>, length: nat, cluster: Ip4, rec: ARecord)
    requires |req| >= 54 && |out| == |staged| == 70 + length
    requires staged == Put(Resized(ResponseHeader(req), 70 + length), 54 + length, AnswerOctets(rec.ip, rec.ttl))
    requires Copied(out, 0, 6, staged, 6) && Copied(out, 6, 12, staged, -6) && Copied(out, 12, 16, staged, 0)
    requires LoadBe16(out, 16) == (|out| - 14) % 0x1_0000 && LoadBe16(out, 38) == (|out| - 34) % 0x1_0000
    requires Copied(out, 18, 24, staged, 0) && Copied(out, 26, 30, cluster, -26) && Copied(out, 30, 34, staged, -4)
    requires Copied(out, 34, 36, staged, 2) && Copied(out, 36, 38, staged, -2) && Copied(out, 42, |out|, staged, 0)
    requires Verifies(out[14..34]) && LoadLe16(out, 40) == UdpFold(UdpAccumulator(Blank(out)))
    ensures IsReplyFrame(req, out, length, cluster, rec)
  {
    StagedPrefix(req, staged, length, rec);
    StagedDns(req, staged, out, length, rec);
    ShiftedSlice(out, req, 0, 6, 6);
    ShiftedSlice(out, req, 6, 12, -6);
    ShiftedSlice(out, req, 12, 14, 0);
    ShiftedSlice(out, req, 14, 16, 0);
    ShiftedSlice(out, req, 18, 24, 0);
    ShiftedSlice(out, cluster, 26, 30, -26);
    ShiftedSlice(out, req, 30, 34, -4);
    ShiftedSlice(out, req, 34, 36, 2);
    ShiftedSlice(out, req, 36, 38, -2);
  }

  lemma ShiftedSlice(out: seq<Byte>, src: seq<Byte>, lo: nat, hi: nat, shift: int)
    requires lo <= hi <= |out| && 0 <= lo + shift && hi + shift <= |src| && Copied(out, lo, hi, src, shift)
    ensures out[lo..hi] == src[lo + shift..hi + shift]
  {
    forall k | 0 <= k < hi - lo ensures out[lo..hi][k] == src[lo + shift..hi + shift][k] {
      assert out[lo..hi][k] == out[lo + k] && src[lo + shift..hi + shift][k] == src[lo + k + shift];
    }
  }

  lemma StagedPrefix(req: seq<Byte>, staged: seq<Byte>, length: nat, rec: ARecord)
    requires |req| >= 54 && |staged| == 70 + length
    requires staged == Put(Resized(ResponseHeader(req), 70 + length), 54 + length, AnswerOctets(rec.ip, rec.ttl))
    ensures forall i | 0 <= i < 42 :: staged[i] == req[i]
  {
    var hdr := Resized(ResponseHeader(req), 70 + length);
    assert forall i | 0 <= i < 42 :: staged[i] == hdr[i] == ResponseHeader(req)[i];
  }

  lemma SameSlice(a: seq<Byte>, b: seq<Byte>, lo: nat, hi: nat)
    requires lo <= hi <= |a| && hi <= |b| && forall i | lo <= i < hi :: a[i] == b[i]
    ensures a[lo..hi] == b[lo..hi]
  {
    forall k | 0 <= k < hi - lo ensures a[lo..hi][k] == b[lo..hi][k] {
      assert a[lo..hi][k] == a[lo + k] && b[lo..hi][k] == b[lo + k];
    }
  }

  lemma StagedDns(req: seq<Byte>, staged: seq<Byte>, out: seq<Byte>, length: nat, rec: ARecord)
    requires |req| >= 54 && |out| == |staged| == 70 + length
    requires staged == Put(Resized(ResponseHeader(req), 70 + length), 54 + length, AnswerOctets(rec.ip, rec.ttl))
    requires Copied(out, 42, |out|, staged, 0)
    ensures DnsReply(req, out, length, rec)
  {
    var hdr, raw := Resized(ResponseHeader(req), 70 + length), Resized(req, 70 + length);
    assert forall i | 0 <= i < 54 :: staged[i] == hdr[i] == ResponseHeader(req)[i];
    assert forall i | 42 <= i < 54 :: out[i] == ResponseHeader(req)[i];
    SameSlice(out, req, 42, 44);
    SameSlice(out, req, 46, 48);
    SameSlice(out, req, 50, 54);
    assert forall i | 54 <= i < 70 + length :: hdr[i] == raw[i];
    SameSlice(out, raw, 54, 54 + length);
    assert out[54 + length..] == AnswerOctets(rec.ip, rec.ttl);
  }

  // ----- What the reply means -----

  lemma HitLength(pkt: seq<Byte>, endpoints: map<Ip4, Ip4>, records: map<Key, ARecord>)
    requires Lookup(pkt, endpoints, records).Hit?
    ensures 5 <= Lookup(pkt, endpoints, records).length <= 260
  {}

  /** No reply exceeds 296 UDP octets, so its length fields are exact, and its UDP checksum is accepted
      exactly when the accumulator's halves add without a carry; otherwise it is one too large. */
  lemma ReplyLengthsAndChecksum(req: seq<Byte>, out: seq<Byte>, endpoints: map<Ip4, Ip4>, records: map<Key, ARecord>)
    requires Lookup(req, endpoints, records).Hit?
    requires var hit := Lookup(req, endpoints, records);
             IsReplyFrame(req, out, hit.length, endpoints[req[30..34]], hit.record)
    ensures LoadBe16(out, 16) == 20 + LoadBe16(out, 38) && |out| == 14 + LoadBe16(out, 16)
    ensures LoadBe16(out, 38) == 36 + Lookup(req, endpoints, records).length <= 296
    ensures UdpAccepted(out) <==> !FoldCarries(UdpAccumulator(Blank(out)))
    ensures FoldCarries(UdpAccumulator(Blank(out))) ==>
              var acc := UdpAccumulator(Blank(out));
              LoadLe16(out, 40) == 0xffff - OnesAdd(acc % 0x1_0000, acc / 0x1_0000) + 1
  {
    var hit := Lookup(req, endpoints, records);
    HitLength(req, endpoints, records);
    ReplyLengths(req, out, hit.length, endpoints[req[30..34]], hit.record);
    ReplyChecksum(out);
  }

  lemma ReplyLengths(req: seq<Byte>, out: seq<Byte>, length: nat, cluster: Ip4, rec: ARecord)
    requires |req| >= 54 && length <= 260 && req[23] == 17 && IsReplyFrame(req, out, length, cluster, rec)
    ensures LoadBe16(out, 16) == 20 + LoadBe16(out, 38) && |out| == 14 + LoadBe16(out, 16)
    ensures LoadBe16(out, 38) == 36 + length <= 296 && out[23] == 17
  {
    assert out[23] == out[18..24][5] == req[18..24][5] == req[23];
  }

  lemma ReplyChecksum(out: seq<Byte>)
    requires 70 <= |out| <= 330 && out[23] == 17
    requires LoadLe16(out, 40) == UdpFold(UdpAccumulator(Blank(out)))
    ensures UdpAccepted(out) <==> !FoldCarries(UdpAccumulator(Blank(out)))
    ensures FoldCarries(UdpAccumulator(Blank(out))) ==>
              var acc := UdpAccumulator(Blank(out));
              LoadLe16(out, 40) == 0xffff - OnesAdd(acc % 0x1_0000, acc / 0x1_0000) + 1
  {
    WordSumPseudoHeader(Blank(out));
    UdpChecksumExact(out, Blank(out));
  }

  /** A key that `UpdateDNSResolveEntry` can have written for a name without zero octets. */
  ghost predicate IsGoKey(k: Key) {
    exists labels, qtype ::
      Packable(labels) && ValidLabels(labels) && qtype in {1, 28} && k == GoKey(labels, qtype, DNS_CLASS_IN)
  }

  ghost predicate GoWritten(records: map<Key, ARecord>) {
    forall k <- records :: IsGoKey(k)
  }

  /** A hit on a record of the Go side comes from a whole question for that record's name. Its reply keeps
      the id, sets QR and RA, and decodes to that question and one A answer for its name, with the stored
      address and lifetime, exactly when the query announced one question and nothing after it. */
  lemma HitReplyDecodes(req: seq<Byte>, out: seq<Byte>, endpoints: map<Ip4, Ip4>, records: map<Key, ARecord>)
      returns (labels: Name, qtype: U16)
    requires GoWritten(records) && Lookup(req, endpoints, records).Hit?
    requires var hit := Lookup(req, endpoints, records);
             IsReplyFrame(req, out, hit.length, endpoints[req[30..34]], hit.record)
    ensures ValidName(labels) && qtype in {1, 28} && HasQuestion(req, 54, labels, qtype, DNS_CLASS_IN)
    ensures Decode(out[42..]).Some? <==> LoadBe16(req, 46) == 1 && LoadBe32(req, 50) == 0
    ensures Decode(out[42..]).Some? ==>
              var rec := Lookup(req, endpoints, records).record;
              Decode(out[42..]).value == Message(
                LoadBe16(req, 42), 0x100 * (SetTopBit(req[44]) as int) + SetTopBit(req[45]),
                [Query(labels, qtype, DNS_CLASS_IN)],
                [Record(labels, A_RECORD_TYPE, DNS_CLASS_IN, rec.ttl, rec.ip)], [], [])
  {
    var hit := Lookup(req, endpoints, records);
    var key := Parse(req, 54).key;
    labels, qtype :|
      Packable(labels) && ValidLabels(labels) && qtype in {1, 28} && key == GoKey(labels, qtype, DNS_CLASS_IN);
    OverlongNeverMatches(req, 54, labels, qtype, DNS_CLASS_IN);
    KeyAgreement(req, 54, labels, qtype, DNS_CLASS_IN);
    var q := QuestionOctets(labels, qtype, DNS_CLASS_IN);
    assert HasQuestion(req, 54, labels, qtype, DNS_CLASS_IN) && hit.length == |q|;
    ReplyPayload(req, out, q, endpoints[req[30..34]], hit.record);
    ReplyHeader(req, out, |q|, endpoints[req[30..34]], hit.record);
    ReplyDecodes(out[42..], labels, qtype, DNS_CLASS_IN, hit.record.ip, hit.record.ttl);
  }

  /** Which packets are answered, when the records are those of packed names: IPv4 and UDP, to port 53 of a DNS
      endpoint, a standard query, and in it a whole question of class IN for a recorded name and type. */
  lemma HitExactly(req: seq<Byte>, endpoints: map<Ip4, Ip4>, records: map<Key, ARecord>)
    requires GoWritten(records)
    ensures Lookup(req, endpoints, records).Hit? <==>
            && |req| >= 54 && LoadBe16(req, 12) == 0x0800 && req[23] == 17
            && req[30..34] in endpoints && LoadBe16(req, 36) == 53 && req[44] < 8
            && exists labels, qtype: U16 | ValidName(labels) && qtype in {1, 28} ::
                 HasQuestion(req, 54, labels, qtype, 1) && GoKey(labels, qtype, 1) in records
    ensures forall labels, qtype: U16
              | ValidName(labels) && qtype in {1, 28} && HasQuestion(req, 54, labels, qtype, 1) ::
              Lookup(req, endpoints, records).Hit? ==>
                GoKey(labels, qtype, 1) in records
                && Lookup(req, endpoints, records).record == records[GoKey(labels, qtype, 1)]
  {
    if Lookup(req, endpoints, records).Hit? {
      var key := Parse(req, 54).key;
      var labels, qtype :|
        Packable(labels) && ValidLabels(labels) && qtype in {1, 28} && key == GoKey(labels, qtype, DNS_CLASS_IN);
      OverlongNeverMatches(req, 54, labels, qtype, DNS_CLASS_IN);
      KeyAgreement(req, 54, labels, qtype, DNS_CLASS_IN);
    }
    forall labels, qtype: U16 | ValidName(labels) && qtype in {1, 28} && HasQuestion(req, 54, labels, qtype, 1)
      ensures Parse(req, 54).Question? && Parse(req, 54).key == GoKey(labels, qtype, 1)
    {
      KeyAgreement(req, 54, labels, qtype, DNS_CLASS_IN);
    }
  }

  lemma {:induction false} FirstZeroSame(a: seq<Byte>, b: seq<Byte>, at: nat, end: nat)
    requires |a| == |b| && forall j | at <= j < |a| :: a[j] == b[j]
    ensures FirstZero(a, at, end) == FirstZero(b, at, end)
    decreases end - at
  {
    if at < end && at < |a| && a[at] != 0 {
      FirstZeroSame(a, b, at + 1, end);
    }
  }

  lemma SameParse(a: seq<Byte>, b: seq<Byte>)
    requires |a| == |b| && forall j | 54 <= j < |a| :: a[j] == b[j]
    ensures Parse(a, 54) == Parse(b, 54)
  {
    FirstZeroSame(a, b, 54, 54 + NAME_SIZE);
    var z := FirstZero(a, 54, 54 + NAME_SIZE);
    if z.Some? {
      SameSlice(a, b, 54, z.value);
      assert z.value + 5 <= |a| ==>
               && LoadBe16(a, z.value + 1) == LoadBe16(b, z.value + 1)
               && LoadBe16(a, z.value + 3) == LoadBe16(b, z.value + 3);
    }
  }

  /** The lookup reads neither the transaction id nor the counts. */
  lemma SameLookup(a: seq<Byte>, b: seq<Byte>, endpoints: map<Ip4, Ip4>, records: map<Key, ARecord>)
    requires |a| == |b| >= 54
    requires forall j | 0 <= j < |a| && !(42 <= j < 44) && !(46 <= j < 54) :: a[j] == b[j]
    ensures Lookup(a, endpoints, records) == Lookup(b, endpoints, records) && a[30..34] == b[30..34]
  {
    SameParse(a, b);
    SameSlice(a, b, 30, 34);
    assert LoadBe16(a, 12) == LoadBe16(b, 12) && LoadBe16(a, 36) == LoadBe16(b, 36);
    assert a[23] == b[23] && a[44] == b[44];
  }

  /** The same query announcing one additional record, as those with extension mechanisms (RFC 6891) do. */
  function WithAdditional(req: seq<Byte>): seq<Byte>
    requires |req| >= 54
  {
    req[52 := 0][53 := 1]
  }

  /** For every query that is answered, the same one announcing an additional record is answered too, with a reply
      that does not decode. */
  lemma AdditionalDoesNotDecode(req: seq<Byte>, endpoints: map<Ip4, Ip4>, records: map<Key, ARecord>)
    requires GoWritten(records) && Lookup(req, endpoints, records).Hit?
    ensures Lookup(WithAdditional(req), endpoints, records) == Lookup(req, endpoints, records)
    ensures var hit := Lookup(req, endpoints, records);
            forall out | IsReplyFrame(WithAdditional(req), out, hit.length, endpoints[req[30..34]], hit.record) ::
                Decode(out[42..]).None?
  {
    var hit, other := Lookup(req, endpoints, records), WithAdditional(req);
    SameLookup(other, req, endpoints, records);
    forall out | IsReplyFrame(other, out, hit.length, endpoints[req[30..34]], hit.record)
      ensures Decode(out[42..]).None?
    {
      var labels, qtype := HitReplyDecodes(other, out, endpoints, records);
    }
  }

  lemma ReplyPayload(req: seq<Byte>, out: seq<Byte>, q: seq<Byte>, cluster: Ip4, rec: ARecord)
    requires 54 + |q| <= |req| && req[54..54 + |q|] == q
    requires IsReplyFrame(req, out, |q|, cluster, rec)
    ensures IsReplyMessage(out[42..], q, rec.ip, rec.ttl)
  {
    var m := out[42..];
    assert m[12..12 + |q|] == out[54..54 + |q|];
    assert Resized(req, 70 + |q|)[54..54 + |q|] == req[54..54 + |q|];
    assert m[12 + |q|..] == out[54 + |q|..];
  }

  lemma SameOctets(out: seq<Byte>, req: seq<Byte>, lo: nat, hi: nat, i: nat)
    requires lo <= i && i + 2 <= hi <= |out| && hi <= |req| && out[lo..hi] == req[lo..hi]
    ensures LoadBe16(out, i) == LoadBe16(req, i)
  {
    assert out[lo..hi][i - lo] == req[lo..hi][i - lo] && out[lo..hi][i + 1 - lo] == req[lo..hi][i + 1 - lo];
  }

  lemma ReplyHeader(req: seq<Byte>, out: seq<Byte>, length: nat, cluster: Ip4, rec: ARecord)
    requires |req| >= 54 && IsReplyFrame(req, out, length, cluster, rec)
    ensures var m := out[42..];
            && LoadBe16(m, 0) == LoadBe16(req, 42)
            && LoadBe16(m, 2) == 0x100 * (SetTopBit(req[44]) as int) + SetTopBit(req[45])
            && LoadBe16(m, 4) == LoadBe16(req, 46)
            && LoadBe16(m, 8) == LoadBe16(req, 50) && LoadBe16(m, 10) == LoadBe16(req, 52)
  {
    SameOctets(out, req, 42, 44, 42);
    SameOctets(out, req, 46, 48, 46);
    SameOctets(out, req, 50, 54, 50);
    SameOctets(out, req, 50, 54, 52);
  }

  lemma FieldCompletes(zeroed: seq<Byte>, out: seq<Byte>, check: U16)
    requires |zeroed| == |out| >= 34 && zeroed[24] == zeroed[25] == 0 && zeroed[23] != 0
    requires out == Put(zeroed, 24, Le16(check))
    requires (WordSum(zeroed[14..34]) + check) % 0xffff == 0
    ensures Verifies(out[14..34])
  {
    var a, b := zeroed[14..24], zeroed[26..34];
    assert zeroed[14..34] == a + (zeroed[24..26] + b);
    assert out[14..34] == a + (Le16(check) + b);
    assert out[24..26] == Le16(check);
    WordSumAppend(a, zeroed[24..26] + b);
    WordSumAppend(a, Le16(check) + b);
    WordSumAppend(zeroed[24..26], b);
    WordSumAppend(Le16(check), b);
    assert WordSum(zeroed[24..26]) == 0;
    assert WordSum(Le16(check)) == check;
    assert a == a[..8] + a[8..];
    WordSumAppend(a[..8], a[8..]);
    assert WordSum(a[8..]) >= LoadLe16(a, 8) > 0;
    VerifiesInCpuOrder(out[14..34]);
  }
}
