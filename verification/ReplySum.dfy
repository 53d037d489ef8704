/** The UDP checksum of a reply, decided by the query, the record found and the cluster address. */
module ReplySum {
  import opened Words
  import opened Checksum
  import opened DnsName
  import opened DnsMessage
  import opened DnsResponder

  /** A big-endian 16-bit field as the CPU loads it. */
  function Loaded(n: nat): nat
    requires n < 0x1_0000
  {
    n / 0x100 + 0x100 * (n % 0x100)
  }

  /** Pseudo header, UDP header with a blank checksum and DNS header of the reply, word by word. */
  function HeaderSum(req: seq<Byte>, length: nat, cluster: Ip4): nat
    requires |req| >= 54 && length <= 260
  {
    LoadLe16(cluster, 0) + LoadLe16(cluster, 2) + LoadLe16(req, 26) + LoadLe16(req, 28)
    + 0x1100 + 2 * Loaded(36 + length)
    + LoadLe16(req, 36) + LoadLe16(req, 34)
    + LoadLe16(req, 42) + SetTopBit(req[44]) + 0x100 * SetTopBit(req[45]) as int
    + LoadLe16(req, 46) + 0x100 + LoadLe16(req, 50) + LoadLe16(req, 52)
  }

  /** The question as it was, and the answer. */
  function Sections(req: seq<Byte>, length: nat, rec: ARecord): seq<Byte>
    requires |req| >= 54
  {
    Resized(req, 70 + length)[54..54 + length] + AnswerOctets(rec.ip, rec.ttl)
  }

  function ReplySum(req: seq<Byte>, length: nat, cluster: Ip4, rec: ARecord): nat
    requires |req| >= 54 && length <= 260
  {
    HeaderSum(req, length, cluster) + WordSum(Sections(req, length, rec))
  }

  lemma WordSumStep(s: seq<Byte>, i: nat)
    requires i + 2 <= |s|
    ensures WordSum(s[i..]) == LoadLe16(s, i) + WordSum(s[i + 2..])
  {
    assert s[i..][2..] == s[i + 2..];
  }

  lemma SameLoad(a: seq<Byte>, i: nat, b: seq<Byte>, j: nat, n: nat, k: nat)
    requires i + n <= |a| && j + n <= |b| && a[i..i + n] == b[j..j + n] && k + 2 <= n
    ensures LoadLe16(a, i + k) == LoadLe16(b, j + k)
  {
    assert a[i + k] == a[i..i + n][k] && b[j + k] == b[j..j + n][k];
    assert a[i + k + 1] == a[i..i + n][k + 1] && b[j + k + 1] == b[j..j + n][k + 1];
  }

  lemma NetworkOctets(req: seq<Byte>, out: seq<Byte>, length: nat, cluster: Ip4)
    requires |req| >= 54 && |out| >= 70 && NetworkReply(req, out, length, cluster)
    ensures out[23] == req[23] && LoadLe16(out, 26) == LoadLe16(cluster, 0) && LoadLe16(out, 28) == LoadLe16(cluster, 2)
    ensures LoadLe16(out, 30) == LoadLe16(req, 26) && LoadLe16(out, 32) == LoadLe16(req, 28)
  {
    assert out[23] == out[18..24][5] && req[23] == req[18..24][5];
    assert cluster[0..4] == cluster;
    SameLoad(out, 26, cluster, 0, 4, 0);
    SameLoad(out, 26, cluster, 0, 4, 2);
    SameLoad(out, 30, req, 26, 4, 0);
    SameLoad(out, 30, req, 26, 4, 2);
  }

  lemma TransportOctets(req: seq<Byte>, out: seq<Byte>, length: nat)
    requires |req| >= 54 && |out| >= 70 && TransportReply(req, out, length)
    ensures LoadLe16(out, 34) == LoadLe16(req, 36) && LoadLe16(out, 36) == LoadLe16(req, 34)
  {
    SameLoad(out, 34, req, 36, 2, 0);
    SameLoad(out, 36, req, 34, 2, 0);
  }

  lemma OneAnswer(out: seq<Byte>)
    requires |out| >= 50 && LoadBe16(out, 48) == 1
    ensures LoadLe16(out, 48) == 0x100
  {}

  lemma MessageOctets(req: seq<Byte>, out: seq<Byte>, length: nat, rec: ARecord)
    requires |req| >= 54 && |out| == 70 + length && DnsReply(req, out, length, rec)
    ensures LoadLe16(out, 42) == LoadLe16(req, 42) && LoadLe16(out, 46) == LoadLe16(req, 46)
    ensures LoadLe16(out, 44) == SetTopBit(req[44]) + 0x100 * SetTopBit(req[45]) as int && LoadLe16(out, 48) == 0x100
    ensures LoadLe16(out, 50) == LoadLe16(req, 50) && LoadLe16(out, 52) == LoadLe16(req, 52)
    ensures out[54..] == Sections(req, length, rec)
  {
    SameLoad(out, 42, req, 42, 2, 0);
    SameLoad(out, 46, req, 46, 2, 0);
    SameLoad(out, 50, req, 50, 4, 0);
    SameLoad(out, 50, req, 50, 4, 2);
    OneAnswer(out);
    assert out[54..] == out[54..54 + length] + out[54 + length..];
  }

  lemma SegmentSum(frame: seq<Byte>)
    requires |frame| >= 54 && frame[40] == frame[41] == 0
    ensures WordSum(frame[34..])
            == LoadLe16(frame, 34) + LoadLe16(frame, 36) + LoadLe16(frame, 38) + LoadLe16(frame, 42)
                                    + LoadLe16(frame, 44) + LoadLe16(frame, 46) + LoadLe16(frame, 48)
                                    + LoadLe16(frame, 50) + LoadLe16(frame, 52) + WordSum(frame[54..])
  {
    WordSumStep(frame, 34);
    WordSumStep(frame, 36);
    WordSumStep(frame, 38);
    WordSumStep(frame, 40);
    WordSumStep(frame, 42);
    WordSumStep(frame, 44);
    WordSumStep(frame, 46);
    WordSumStep(frame, 48);
    WordSumStep(frame, 50);
    WordSumStep(frame, 52);
  }

  lemma BigEndianLoads(s: seq<Byte>, i: nat)
    requires i + 2 <= |s|
    ensures LoadLe16(s, i) == Loaded(LoadBe16(s, i))
  {
    var hi: int, lo: int := s[i], s[i + 1];
    assert (0x100 * hi + lo) / 0x100 == hi && (0x100 * hi + lo) % 0x100 == lo;
  }

  lemma BlankSum(out: seq<Byte>)
    requires 54 <= |out| <= 34 + 1480 && out[23] == 17
    ensures UdpAccumulator(Blank(out))
         == LoadLe16(out, 26) + LoadLe16(out, 28) + LoadLe16(out, 30) + LoadLe16(out, 32) + 0x1100
            + 2 * LoadLe16(out, 38) + LoadLe16(out, 34) + LoadLe16(out, 36) + LoadLe16(out, 42) + LoadLe16(out, 44)
            + LoadLe16(out, 46) + LoadLe16(out, 48) + LoadLe16(out, 50) + LoadLe16(out, 52) + WordSum(out[54..])
  {
    var blank := Blank(out);
    WordSumPseudoHeader(blank);
    SegmentSum(blank);
    assert blank[54..] == out[54..];
    assert Summed(blank) == blank[34..];
  }

  /** What the program sums over the emitted frame is known from the query. */
  lemma AccumulatorIs(req: seq<Byte>, out: seq<Byte>, length: nat, cluster: Ip4, rec: ARecord)
    requires |req| >= 54 && req[23] == 17 && length <= 260 && IsReplyFrame(req, out, length, cluster, rec)
    ensures UdpAccumulator(Blank(out)) == ReplySum(req, length, cluster, rec)
  {
    NetworkOctets(req, out, length, cluster);
    TransportOctets(req, out, length);
    MessageOctets(req, out, length, rec);
    assert LoadBe16(out, 38) == 36 + length;
    BigEndianLoads(out, 38);
    BlankSum(out);
  }

  /** The reply's UDP checksum is accepted exactly when the two halves of the sum add without a carry. */
  lemma ReplyAcceptedExactly(req: seq<Byte>, out: seq<Byte>, endpoints: map<Ip4, Ip4>, records: map<Key, ARecord>)
    requires Lookup(req, endpoints, records).Hit?
    requires var hit := Lookup(req, endpoints, records);
             IsReplyFrame(req, out, hit.length, endpoints[req[30..34]], hit.record)
    ensures var hit := Lookup(req, endpoints, records);
            && hit.length <= 260
            && (UdpAccepted(out) <==> !FoldCarries(ReplySum(req, hit.length, endpoints[req[30..34]], hit.record)))
  {
    var hit := Lookup(req, endpoints, records);
    HitLength(req, endpoints, records);
    ReplyLengthsAndChecksum(req, out, endpoints, records);
    AccumulatorIs(req, out, hit.length, endpoints[req[30..34]], hit.record);
  }

  // ----- Every hit has a transaction id whose reply is refused -----

  /** The query with another transaction id. */
  function WithId(req: seq<Byte>, id: U16): seq<Byte>
    requires |req| >= 54
  {
    req[42 := id % 0x100][43 := id / 0x100]
  }

  lemma SumWithId(req: seq<Byte>, id: U16, length: nat, cluster: Ip4, rec: ARecord)
    requires |req| >= 54 && length <= 260
    ensures ReplySum(WithId(req, id), length, cluster, rec) == ReplySum(WithId(req, 0), length, cluster, rec) + id
  {
    var a, b := WithId(req, id), WithId(req, 0);
    assert Resized(a, 70 + length)[54..54 + length] == Resized(b, 70 + length)[54..54 + length];
  }

  lemma {:induction false} NonzeroSum(s: seq<Byte>)
    requires 0 !in s
    ensures WordSum(s) >= 0x101 * (|s| / 2)
  {
    if |s| >= 2 {
      NonzeroSum(s[2..]);
    }
  }

  /** A long question alone makes for a large sum: its name has no zero octet. */
  lemma LongNameSum(req: seq<Byte>, rec: ARecord, length: nat, key: Key)
    requires |req| >= 54 && 220 <= length && Parse(req, 54) == Question(length, key)
    ensures WordSum(Sections(req, length, rec)) >= 0x3880
  {
    var s := Sections(req, length, rec);
    assert forall i | 0 <= i < 214 :: s[i] == req[54 + i] != 0;
    assert s == s[..214] + s[214..];
    WordSumAppend(s[..214], s[214..]);
    NonzeroSum(s[..214]);
  }

  /** Even with the id zero the sum needs more than 16 bits. */
  lemma SumIsLarge(req: seq<Byte>, endpoints: map<Ip4, Ip4>, records: map<Key, ARecord>)
    requires Lookup(req, endpoints, records).Hit?
    ensures var hit := Lookup(req, endpoints, records);
            hit.length <= 260 && ReplySum(req, hit.length, endpoints[req[30..34]], hit.record) >= 0x1_0000
  {
    var hit := Lookup(req, endpoints, records);
    HitLength(req, endpoints, records);
    BigEndianLoads(req, 36);
    if hit.length >= 220 {
      LongNameSum(req, hit.record, hit.length, Parse(req, 54).key);
    } else {
      assert (36 + hit.length) % 0x100 >= 41;
    }
  }

  lemma CarriesAt(base: nat)
    requires base >= 0x1_0000
    ensures FoldCarries(base + (0xffff - base % 0x1_0000))
  {
    var high, low := base / 0x1_0000, base % 0x1_0000;
    assert base + (0xffff - low) == high * 0x1_0000 + 0xffff;
  }

  /** The id that makes the low half of the sum all ones. */
  lemma RefusingId(req: seq<Byte>, endpoints: map<Ip4, Ip4>, records: map<Key, ARecord>) returns (id: U16)
    requires Lookup(req, endpoints, records).Hit?
    ensures Lookup(WithId(req, id), endpoints, records) == Lookup(req, endpoints, records)
    ensures WithId(req, id)[30..34] == req[30..34]
    ensures var hit := Lookup(req, endpoints, records);
            hit.length <= 260 && FoldCarries(ReplySum(WithId(req, id), hit.length, endpoints[req[30..34]], hit.record))
  {
    var hit, cluster := Lookup(req, endpoints, records), endpoints[req[30..34]];
    SameLookup(WithId(req, 0), req, endpoints, records);
    SumIsLarge(WithId(req, 0), endpoints, records);
    var base := ReplySum(WithId(req, 0), hit.length, cluster, hit.record);
    id := 0xffff - base % 0x1_0000;
    SameLookup(WithId(req, id), req, endpoints, records);
    SumWithId(req, id, hit.length, cluster, hit.record);
    CarriesAt(base);
  }

  /** For every query that is answered there is a transaction id with which its reply is refused. */
  lemma EveryHitCanBeRefused(req: seq<Byte>, endpoints: map<Ip4, Ip4>, records: map<Key, ARecord>) returns (id: U16)
    requires Lookup(req, endpoints, records).Hit?
    ensures Lookup(WithId(req, id), endpoints, records) == Lookup(req, endpoints, records)
    ensures var hit := Lookup(req, endpoints, records);
            forall out | IsReplyFrame(WithId(req, id), out, hit.length, endpoints[req[30..34]], hit.record) ::
                !UdpAccepted(out)
  {
    var hit := Lookup(req, endpoints, records);
    id := RefusingId(req, endpoints, records);
    forall out | IsReplyFrame(WithId(req, id), out, hit.length, endpoints[req[30..34]], hit.record)
      ensures !UdpAccepted(out)
    {
      ReplyAcceptedExactly(WithId(req, id), out, endpoints, records);
    }
  }
}
