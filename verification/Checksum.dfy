/** Internet checksums (sections 1 and 2 of RFC 1071) as the XDP program computes them. */
module Checksum {
  import opened Words

  // ----- Reference definitions -----

  /** One's-complement addition of 16-bit words: the carry is added back in. */
  function OnesAdd(a: U16, b: U16): U16 {
    if a + b < 0x1_0000 then a + b else a + b - 0xffff
  }

  /** The one's-complement sum of the network-order words of `s`, odd length padded with a zero octet. */
  function OnesSum(s: seq<Byte>): U16 {
    if |s| == 0 then 0
    else if |s| == 1 then 0x100 * s[0]
    else OnesAdd(LoadBe16(s, 0), OnesSum(s[2..]))
  }

  /** Data that carries its own checksum verifies when the sum is all ones. */
  predicate Verifies(s: seq<Byte>) {
    OnesSum(s) == 0xffff
  }

  /** Plain sum of the words in CPU (little-endian) order: what the accumulators hold. */
  function WordSum(s: seq<Byte>): nat {
    if |s| == 0 then 0
    else if |s| == 1 then s[0]
    else LoadLe16(s, 0) + WordSum(s[2..])
  }

  /** Sum of the octets at odd positions; ties the two byte orders together. */
  function OddSum(s: seq<Byte>): nat {
    if |s| < 2 then 0 else s[1] + OddSum(s[2..])
  }

  function EvenSum(s: seq<Byte>): nat {
    if |s| == 0 then 0 else s[0] + if |s| == 1 then 0 else EvenSum(s[2..])
  }

  lemma {:induction false} WordSumParts(s: seq<Byte>)
    ensures WordSum(s) == EvenSum(s) + 0x100 * OddSum(s)
  {
    if |s| >= 2 { WordSumParts(s[2..]); }
  }

  /** The one's-complement sum is the plain network-order sum modulo 65535, and is zero only for zero data. */
  lemma {:induction false} OnesSumResidue(s: seq<Byte>) returns (k: nat)
    ensures 0x100 * EvenSum(s) + OddSum(s) == OnesSum(s) + 0xffff * k
    ensures OnesSum(s) == 0 <==> EvenSum(s) == 0 && OddSum(s) == 0
  {
    k := 0;
    if |s| >= 2 {
      k := OnesSumResidue(s[2..]);
      if LoadBe16(s, 0) + OnesSum(s[2..]) >= 0x1_0000 { k := k + 1; }
    }
  }

  lemma ResidueUnique(a: int, b: int, k: int)
    requires a == b + 0xffff * k
    ensures a % 0xffff == b % 0xffff
  {}

  /** Byte-order independence (section 2(B) of RFC 1071): summing in CPU order decides the same data. */
  lemma VerifiesInCpuOrder(s: seq<Byte>)
    ensures Verifies(s) <==> WordSum(s) > 0 && WordSum(s) % 0xffff == 0
  {
    var k := OnesSumResidue(s);
    WordSumParts(s);
    var e: int, r: int := EvenSum(s), OnesSum(s);
    assert 0x100 * r == WordSum(s) + 0xffff * (e - 0x100 * k);
    ResidueUnique(0x100 * r, WordSum(s), e - 0x100 * k);
    if WordSum(s) % 0xffff == 0 {
      ScaledResidueZero(r);
    }
  }

  lemma ScaledResidueZero(r: U16)
    requires 0x100 * r % 0xffff == 0
    ensures r == 0 || r == 0xffff
  {
    assert 0x100 * (0x100 * r) == 0xffff * r + r;
  }

  lemma {:induction false} WordSumAppend(a: seq<Byte>, b: seq<Byte>)
    requires |a| % 2 == 0
    ensures WordSum(a + b) == WordSum(a) + WordSum(b)
  {
    if |a| == 0 {
      assert a + b == b;
    } else {
      assert (a + b)[2..] == a[2..] + b;
      WordSumAppend(a[2..], b);
    }
  }

  lemma {:induction false} WordSumBound(s: seq<Byte>)
    ensures WordSum(s) <= 0xffff * ((|s| + 1) / 2)
  {
    if |s| >= 2 { WordSumBound(s[2..]); }
  }

  // ----- csum_fold_helper, ipv4_csum -----

  /** Upper bound of the accumulator after `i` conditional folds of any 64-bit value. */
  function FoldBound(i: nat): nat
    requires i <= 4
  {
    [0xffff_ffff_ffff_ffff, 0x1_0000_0000_fffe, 0x1_0000_fffe, 0x1_fffe, 0xffff][i]
  }

  lemma FoldOnce(c: nat, i: nat)
    requires i < 4 && c <= FoldBound(i)
    ensures var c' := if c / 0x1_0000 != 0 then c % 0x1_0000 + c / 0x1_0000 else c;
            && c' <= FoldBound(i + 1)
            && c' % 0xffff == c % 0xffff
            && (c' == 0 <==> c == 0)
  {
    ResidueUnique(c, c % 0x1_0000 + c / 0x1_0000, c / 0x1_0000);
  }

  /** Four conditional folds are enough for every 64-bit input: the complement of the result is the one
      16-bit value congruent to the input modulo 65535 that is zero only for zero. */
  method CsumFoldHelper(csum: U64) returns (r: U16)
    ensures (0xffff - r) % 0xffff == csum % 0xffff
    ensures r == 0xffff <==> csum == 0
  {
    var c: nat := csum;
    for i := 0 to 4
      invariant c <= FoldBound(i)
      invariant c % 0xffff == csum % 0xffff
      invariant c == 0 <==> csum == 0
    {
      FoldOnce(c, i);
      if c / 0x1_0000 != 0 {
        c := c % 0x1_0000 + c / 0x1_0000;
      }
    }
    r := 0xffff - c;
  }

  /** `bpf_csum_diff` is declared to return `int`, so its 32-bit result is sign-extended into the accumulator. */
  function SignExtend(d: U32): U64 {
    if d < 0x8000_0000 then d else d + 0xffff_ffff_0000_0000
  }

  lemma SignExtendKeepsResidue(d: U32)
    ensures SignExtend(d) % 0xffff == d % 0xffff
    ensures SignExtend(d) == 0 <==> d == 0
  {
    ResidueUnique(d + 0xffff_ffff_0000_0000, d, 0xffff_ffff_0000_0000 / 0xffff);
  }

  /** Kernel helper: some 32-bit value with the residue of the word sum. */
  method BpfCsumDiff(data: seq<Byte>) returns (d: U32)
    requires |data| == 20
    ensures d % 0xffff == WordSum(data) % 0xffff
  {
    WordSumBound(data);
    d := WordSum(data);
  }

  /** The stored header checksum complements the header it was computed over. */
  method Ipv4Csum(header: seq<Byte>) returns (check: U16)
    requires |header| == 20
    ensures (WordSum(header) + check) % 0xffff == 0
  {
    var d := BpfCsumDiff(header);
    SignExtendKeepsResidue(d);
    check := CsumFoldHelper(SignExtend(d));
    ComplementResidue(WordSum(header), check);
  }

  lemma ComplementResidue(s: nat, r: U16)
    requires (0xffff - r) % 0xffff == s % 0xffff
    ensures (s + r) % 0xffff == 0
  {
    ResidueUnique(s + r, s % 0xffff + r, s / 0xffff);
    var f := 0xffff - r;
    ResidueUnique(f + r, f % 0xffff + r, f / 0xffff);
  }

  // ----- cal_udp_csum -----

  /** Octets of the RFC 768 pseudo header of an Ethernet/IPv4/UDP frame. */
  function PseudoHeader(frame: seq<Byte>): seq<Byte>
    requires |frame| >= 42
  {
    frame[26..34] + [0, frame[23]] + frame[38..40]
  }

  /** What the loop can reach of the UDP segment: 740 words, then at most one octet. */
  function Summed(frame: seq<Byte>): seq<Byte>
    requires |frame| >= 42
  {
    frame[34..if |frame| <= 34 + 1481 then |frame| else 34 + 1481]
  }

  function UdpAccumulator(frame: seq<Byte>): U32
    requires |frame| >= 42
  {
    WordSumBound(PseudoHeader(frame));
    WordSumBound(Summed(frame));
    WordSum(PseudoHeader(frame)) + WordSum(Summed(frame))
  }

  /** The single fold: the two halves are added in 16 bits, so a carry out is lost. */
  function UdpFold(acc: U32): U16 {
    0xffff - (acc % 0x1_0000 + acc / 0x1_0000) % 0x1_0000
  }

  predicate FoldCarries(acc: nat) {
    acc % 0x1_0000 + acc / 0x1_0000 >= 0x1_0000
  }

  lemma WordSumPseudoHeader(frame: seq<Byte>)
    requires |frame| >= 42
    ensures WordSum(PseudoHeader(frame))
         == LoadLe16(frame, 26) + LoadLe16(frame, 28) + LoadLe16(frame, 30) + LoadLe16(frame, 32)
            + 0x100 * (frame[23] as int) + LoadLe16(frame, 38)
  {
    var p := PseudoHeader(frame);
    assert p[2..][2..] == p[4..];
    assert p[4..][2..] == p[6..];
    assert p[6..][2..] == p[8..];
    assert p[8..][2..] == p[10..];
    assert p[10..][2..] == [];
    assert WordSum(p[10..]) == LoadLe16(frame, 38);
    assert WordSum(p[8..]) == 0x100 * (frame[23] as int) + WordSum(p[10..]);
    assert WordSum(p[4..]) == LoadLe16(frame, 30) + LoadLe16(frame, 32) + WordSum(p[8..]);
  }

  lemma WordSumSnoc(s: seq<Byte>, i: nat)
    requires i % 2 == 0 && i + 2 <= |s|
    ensures WordSum(s[..i + 2]) == WordSum(s[..i]) + LoadLe16(s, i)
  {
    assert s[..i + 2] == s[..i] + s[i..i + 2];
    WordSumAppend(s[..i], s[i..i + 2]);
    assert WordSum(s[i..i + 2]) == LoadLe16(s[i..i + 2], 0);
  }

  /** 32-bit accumulation. */
  function Add32(a: U32, b: nat): (r: U32)
    ensures a + b < 0x1_0000_0000 ==> r == a + b
  {
    (a + b) % 0x1_0000_0000
  }

  /** The loop of `cal_udp_csum` over the UDP header and payload, and its odd last octet. */
  method AddSegment(frame: seq<Byte>, start: U32) returns (acc: U32)
    requires |frame| >= 42 && start <= 6 * 0xffff
    ensures acc == start + WordSum(Summed(frame))
  {
    acc := start;
    ghost var udp := Summed(frame);
    var buf, i := 34, 0;
    while i < 1480
      invariant 0 <= i <= 1480 && i % 2 == 0 && buf == 34 + i <= |frame|
      invariant i <= |udp| && acc == start + WordSum(udp[..i])
    {
      if buf + 2 > |frame| {
        break;
      }
      WordSumSnoc(udp, i);
      WordSumBound(udp[..i + 2]);
      assert LoadLe16(frame, buf) == LoadLe16(udp, i);
      acc := Add32(acc, LoadLe16(frame, buf));
      buf, i := buf + 2, i + 2;
    }
    if buf + 1 <= |frame| {
      assert udp == udp[..i] + [frame[buf]];
      WordSumAppend(udp[..i], [frame[buf]]);
      WordSumBound(udp);
      acc := Add32(acc, frame[buf]);
    } else {
      assert udp == udp[..i];
    }
  }

  /** `cal_udp_csum`; its 32-bit accumulator never overflows, whatever the frame. */
  method CalUdpCsum(frame: seq<Byte>) returns (csum: U16)
    requires |frame| >= 42
    ensures csum == UdpFold(UdpAccumulator(frame))
  {
    WordSumPseudoHeader(frame);
    var acc := Add32(0, LoadLe16(frame, 26));
    acc := Add32(acc, LoadLe16(frame, 28));
    acc := Add32(acc, LoadLe16(frame, 30));
    acc := Add32(acc, LoadLe16(frame, 32));
    acc := Add32(acc, 0x100 * (frame[23] as int));
    acc := Add32(acc, LoadLe16(frame, 38));
    acc := AddSegment(frame, acc);
    csum := UdpFold(acc);
  }

  /** Small replies do not reach the cap. */
  lemma SmallSegmentsAreSummedWhole(frame: seq<Byte>)
    requires 42 <= |frame| <= 34 + 1481
    ensures UdpAccumulator(frame) == WordSum(PseudoHeader(frame) + frame[34..])
  {
    assert Summed(frame) == frame[34..];
    WordSumAppend(PseudoHeader(frame), frame[34..]);
  }

  /** A receiver takes a datagram whose checksum field is zero (none was computed) or verifies. */
  predicate UdpAccepted(frame: seq<Byte>)
    requires |frame| >= 42
  {
    LoadBe16(frame, 40) == 0 || Verifies(PseudoHeader(frame) + frame[34..])
  }

  lemma WordSumWithField(frame: seq<Byte>, blank: seq<Byte>)
    requires |frame| == |blank| >= 42
    requires frame[..40] == blank[..40] && frame[42..] == blank[42..] && blank[40] == blank[41] == 0
    ensures PseudoHeader(frame) == PseudoHeader(blank)
    ensures WordSum(frame[34..]) == WordSum(blank[34..]) + LoadLe16(frame, 40)
  {
    forall s: seq<Byte> | |s| >= 42
      ensures WordSum(s[34..]) == WordSum(s[34..40]) + (LoadLe16(s, 40) + WordSum(s[42..]))
    {
      assert s[34..] == s[34..40] + s[40..];
      WordSumAppend(s[34..40], s[40..]);
      assert s[40..][2..] == s[42..];
    }
    assert frame[34..40] == frame[..40][34..40] == blank[34..40];
    assert frame[26..34] == frame[..40][26..34];
    assert frame[38..40] == frame[..40][38..40];
    assert frame[23] == frame[..40][23];
  }

  /** The stored UDP checksum is accepted exactly when the halves of the accumulator add without a carry;
      with a carry it is one more than the right complement, and is refused. */
  lemma UdpChecksumExact(frame: seq<Byte>, blank: seq<Byte>)
    requires 42 <= |frame| == |blank| <= 34 + 1481
    requires frame[..40] == blank[..40] && frame[42..] == blank[42..] && blank[40] == blank[41] == 0
    requires WordSum(PseudoHeader(blank)) > 0
    requires LoadLe16(frame, 40) == UdpFold(UdpAccumulator(blank))
    ensures UdpAccepted(frame) <==> !FoldCarries(UdpAccumulator(blank))
    ensures FoldCarries(UdpAccumulator(blank)) ==>
              var acc := UdpAccumulator(blank);
              LoadLe16(frame, 40) == 0xffff - OnesAdd(acc % 0x1_0000, acc / 0x1_0000) + 1
  {
    WordSumWithField(frame, blank);
    SmallSegmentsAreSummedWhole(blank);
    WordSumAppend(PseudoHeader(blank), blank[34..]);
    WordSumAppend(PseudoHeader(frame), frame[34..]);
    var acc := UdpAccumulator(blank);
    var lo: int, hi: int := acc % 0x1_0000, acc / 0x1_0000;
    var field: int := LoadLe16(frame, 40);
    var whole := PseudoHeader(frame) + frame[34..];
    assert WordSum(whole) == acc + field;
    VerifiesInCpuOrder(whole);
    if FoldCarries(acc) {
      assert field == 0x1_ffff - lo - hi;
      ResidueUnique(acc + field, 1, hi + 2);
    } else {
      assert field == 0xffff - lo - hi;
      ResidueUnique(acc + field, 0, hi + 1);
    }
  }
}
