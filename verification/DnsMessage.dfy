/** A decoder for DNS messages, written from section 4.1 of RFC 1035, and what it reads in the reply that
    the XDP program assembles. */
module DnsMessage {
  import opened Words
  import opened DnsName

  datatype Query = Query(name: Name, qtype: U16, qclass: U16)

  datatype Record = Record(owner: Name, rtype: U16, rclass: U16, ttl: U32, rdata: seq<Byte>)

  datatype Message = Message(id: U16, flags: U16, questions: seq<Query>,
                             answers: seq<Record>, authority: seq<Record>, additional: seq<Record>)

  datatype Read<+T> = Read(item: T, next: nat)

  // ----- Decoder -----

  /** A domain name (section 4.1.4): labels up to a zero octet or a pointer to a prior position. */
  function ReadName(m: seq<Byte>, off: nat, start: nat): (r: Option<Read<Name>>)
    ensures r.Some? ==> off < r.value.next <= |m|
    decreases start, |m| - off
  {
    if off >= |m| then None
    else if m[off] == 0 then Some(Read([], off + 1))
    else if m[off] < 0x40 then
      var end := off + 1 + m[off];
      if end > |m| then None
      else
        var rest :- ReadName(m, end, start);
        Some(Read([m[off + 1..end]] + rest.item, rest.next))
    else if m[off] < 0xc0 || off + 1 >= |m| then None
    else
      var target := LoadBe16(m, off) - 0xc000;
      if target >= start then None
      else
        var prior :- ReadName(m, target, target);
        Some(Read(prior.item, off + 2))
  }

  function ReadQuestion(m: seq<Byte>, off: nat): (r: Option<Read<Query>>)
    ensures r.Some? ==> off + 5 <= r.value.next <= |m|
  {
    var name :- ReadName(m, off, off);
    if name.next + 4 > |m| then None
    else Some(Read(Query(name.item, LoadBe16(m, name.next), LoadBe16(m, name.next + 2)), name.next + 4))
  }

  function ReadRecord(m: seq<Byte>, off: nat): (r: Option<Read<Record>>)
    ensures r.Some? ==> off + 11 <= r.value.next <= |m|
  {
    var name :- ReadName(m, off, off);
    var at := name.next;
    if at + 10 > |m| then None
    else
      var end := at + 10 + LoadBe16(m, at + 8);
      if end > |m| then None
      else
        var data := m[at + 10..end];
        Some(Read(Record(name.item, LoadBe16(m, at), LoadBe16(m, at + 2), LoadBe32(m, at + 4), data), end))
  }

  function ReadQuestions(m: seq<Byte>, off: nat, count: nat): (r: Option<Read<seq<Query>>>)
    requires off <= |m|
    ensures r.Some? ==> off + 5 * count <= r.value.next <= |m|
    decreases count
  {
    if count == 0 then Some(Read([], off))
    else
      var first :- ReadQuestion(m, off);
      var rest :- ReadQuestions(m, first.next, count - 1);
      Some(Read([first.item] + rest.item, rest.next))
  }

  function ReadRecords(m: seq<Byte>, off: nat, count: nat): (r: Option<Read<seq<Record>>>)
    requires off <= |m|
    ensures r.Some? ==> off + 11 * count <= r.value.next <= |m|
    decreases count
  {
    if count == 0 then Some(Read([], off))
    else
      var first :- ReadRecord(m, off);
      var rest :- ReadRecords(m, first.next, count - 1);
      Some(Read([first.item] + rest.item, rest.next))
  }

  /** A whole message: the four sections in order, with nothing left over. */
  function Decode(m: seq<Byte>): Option<Message> {
    if |m| < 12 then None
    else
      var qd :- ReadQuestions(m, 12, LoadBe16(m, 4));
      var an :- ReadRecords(m, qd.next, LoadBe16(m, 6));
      var ns :- ReadRecords(m, an.next, LoadBe16(m, 8));
      var ar :- ReadRecords(m, ns.next, LoadBe16(m, 10));
      if ar.next != |m| then None
      else Some(Message(LoadBe16(m, 0), LoadBe16(m, 2), qd.item, an.item, ns.item, ar.item))
  }

  // ----- The assembled reply -----

  const A_RECORD_TYPE: U16 := 1
  const DNS_CLASS_IN: U16 := 1

  /** `struct dns_response` followed by the address: 16 octets. */
  function AnswerOctets(ip: seq<Byte>, ttl: U32): seq<Byte> {
    Be16(0xc00c) + Be16(A_RECORD_TYPE) + Be16(DNS_CLASS_IN) + Be32(ttl) + Be16(4) + ip
  }

  /** `m` is a header with one answer announced, the question, and the answer. */
  predicate IsReplyMessage(m: seq<Byte>, question: seq<Byte>, ip: seq<Byte>, ttl: U32) {
    && |ip| == 4
    && |m| == 12 + |question| + 16
    && LoadBe16(m, 6) == 1
    && m[12..12 + |question|] == question
    && m[12 + |question|..] == AnswerOctets(ip, ttl)
  }

  lemma SliceOfSlice(m: seq<Byte>, off: nat, n: nat, i: nat, j: nat)
    requires i <= j <= n && off + n <= |m|
    ensures m[off..off + n][i..j] == m[off + i..off + j]
  {
    var inner, outer := m[off..off + n][i..j], m[off + i..off + j];
    forall k | 0 <= k < j - i
      ensures inner[k] == outer[k]
    {
      assert inner[k] == m[off..off + n][i + k] == m[off + (i + k)];
      assert outer[k] == m[off + i + k];
    }
  }

  lemma WireParts(labels: Name)
    requires FitLabels(labels) && labels != []
    ensures FitLabel(labels[0]) && FitLabels(labels[1..]) && |Wire(labels)| == 1 + |labels[0]| + |Wire(labels[1..])|
    ensures var w, n := Wire(labels), |labels[0]|;
            w[0] == n && w[1..1 + n] == labels[0] && w[1 + n..|w|] == Wire(labels[1..])
  {
    assert labels[0] in labels;
    Parts(labels[0], Wire(labels[1..]));
  }

  lemma Parts(first: seq<Byte>, rest: seq<Byte>)
    requires FitLabel(first)
    ensures var w, n := [|first|] + first + rest, |first|;
            w[0] == n && w[1..1 + n] == first && w[1 + n..|w|] == rest
  {}

  lemma FirstOfWire(m: seq<Byte>, off: nat, labels: Name)
    requires FitLabels(labels) && labels != [] && off + |Wire(labels)| < |m|
    requires m[off..off + |Wire(labels)|] == Wire(labels)
    ensures FitLabel(labels[0]) && FitLabels(labels[1..]) && |Wire(labels)| == 1 + |labels[0]| + |Wire(labels[1..])|
    ensures var n := |labels[0]|;
            && m[off] == n && m[off + 1..off + 1 + n] == labels[0]
            && m[off + 1 + n..off + |Wire(labels)|] == Wire(labels[1..])
  {
    WireParts(labels);
    SlicedParts(m, off, Wire(labels), |labels[0]|);
  }

  lemma SlicedParts(m: seq<Byte>, off: nat, w: seq<Byte>, n: nat)
    requires off + |w| < |m| && 1 + n <= |w| && m[off..off + |w|] == w
    ensures m[off] == w[0] && m[off + 1..off + 1 + n] == w[1..1 + n] && m[off + 1 + n..off + |w|] == w[1 + n..|w|]
  {
    assert m[off] == m[off..off + |w|][0];
    SliceOfSlice(m, off, |w|, 1, 1 + n);
    SliceOfSlice(m, off, |w|, 1 + n, |w|);
  }

  lemma {:induction false} ReadWireName(m: seq<Byte>, off: nat, start: nat, labels: Name)
    requires ValidLabels(labels) && off + |Wire(labels)| < |m|
    requires m[off..off + |Wire(labels)|] == Wire(labels) && m[off + |Wire(labels)|] == 0
    ensures ReadName(m, off, start) == Some(Read(labels, off + |Wire(labels)| + 1))
    decreases |labels|
  {
    if labels != [] {
      FirstOfWire(m, off, labels);
      ReadWireName(m, off + 1 + |labels[0]|, start, labels[1..]);
      assert labels == [labels[0]] + labels[1..];
    }
  }

  lemma AnswerFields(m: seq<Byte>, at: nat, ip: seq<Byte>, ttl: U32)
    requires |ip| == 4 && at + 16 == |m| && m[at..] == AnswerOctets(ip, ttl)
    ensures LoadBe16(m, at) == 0xc00c && LoadBe16(m, at + 2) == A_RECORD_TYPE && LoadBe16(m, at + 4) == DNS_CLASS_IN
    ensures LoadBe32(m, at + 6) == ttl && LoadBe16(m, at + 10) == 4 && m[at + 12..] == ip
  {
    var a := AnswerOctets(ip, ttl);
    assert forall i | 0 <= i < 16 :: m[at + i] == m[at..][i] == a[i];
    assert m[at + 12..] == m[at..][12..] == a[12..] == ip;
    assert a[6..10] == Be32(ttl);
    assert a[6] == a[6..10][0] && a[7] == a[6..10][1] && a[8] == a[6..10][2] && a[9] == a[6..10][3];
  }

  lemma QuestionFields(m: seq<Byte>, labels: Name, qtype: U16, qclass: U16)
    requires ValidLabels(labels)
    requires var q := QuestionOctets(labels, qtype, qclass); 12 + |q| <= |m| && m[12..12 + |q|] == q
    ensures var w := |Wire(labels)|;
            && m[12..12 + w] == Wire(labels) && m[12 + w] == 0
            && LoadBe16(m, 13 + w) == qtype && LoadBe16(m, 15 + w) == qclass
  {
    var q := QuestionOctets(labels, qtype, qclass);
    var w := |Wire(labels)|;
    assert forall i | 0 <= i < |q| :: m[12 + i] == m[12..12 + |q|][i] == q[i];
    assert m[12..12 + w] == q[..w];
    assert q[w + 1..] == Be16(qtype) + Be16(qclass);
    assert q[w + 1..w + 3] == Be16(qtype) && q[w + 3..] == Be16(qclass);
  }

  lemma ReplyQuestionReads(m: seq<Byte>, labels: Name, qtype: U16, qclass: U16)
    requires ValidLabels(labels)
    requires var q := QuestionOctets(labels, qtype, qclass); 12 + |q| <= |m| && m[12..12 + |q|] == q
    ensures ReadName(m, 12, 12) == Some(Read(labels, 13 + |Wire(labels)|))
    ensures ReadQuestion(m, 12)
            == Some(Read(Query(labels, qtype, qclass), 12 + |QuestionOctets(labels, qtype, qclass)|))
  {
    QuestionFields(m, labels, qtype, qclass);
    ReadWireName(m, 12, 12, labels);
  }

  lemma ReplyAnswerReads(m: seq<Byte>, at: nat, labels: Name, ip: seq<Byte>, ttl: U32)
    requires 12 < at && at + 16 == |m| && |ip| == 4 && m[at..] == AnswerOctets(ip, ttl)
    requires ReadName(m, 12, 12).Some? && ReadName(m, 12, 12).value.item == labels
    ensures ReadName(m, at, at) == Some(Read(labels, at + 2))
    ensures ReadRecord(m, at) == Some(Read(Record(labels, A_RECORD_TYPE, DNS_CLASS_IN, ttl, ip), |m|))
  {
    AnswerFields(m, at, ip, ttl);
    assert m[at] == 0xc0;
    assert m[at + 12..] == m[at + 12..at + 16];
  }

  /** The reply decodes, and then to exactly the question and one A answer owned by its name, if and only
      if the query it was made from announced one question and no authority or additional records: those
      three counts are copied from the query. */
  lemma ReplyDecodes(m: seq<Byte>, labels: Name, qtype: U16, qclass: U16, ip: seq<Byte>, ttl: U32)
    requires ValidLabels(labels)
    requires IsReplyMessage(m, QuestionOctets(labels, qtype, qclass), ip, ttl)
    ensures Decode(m).Some? <==> LoadBe16(m, 4) == 1 && LoadBe16(m, 8) == 0 && LoadBe16(m, 10) == 0
    ensures Decode(m).Some? ==>
              Decode(m).value == Message(LoadBe16(m, 0), LoadBe16(m, 2), [Query(labels, qtype, qclass)],
                                         [Record(labels, A_RECORD_TYPE, DNS_CLASS_IN, ttl, ip)], [], [])
  {
    var at := 12 + |QuestionOctets(labels, qtype, qclass)|;
    ReplyQuestionReads(m, labels, qtype, qclass);
    ReplyAnswerReads(m, at, labels, ip, ttl);
    var qd := LoadBe16(m, 4);
    if qd == 0 {
      AnswerFields(m, at, ip, ttl);
      assert ReadRecords(m, 12, 1).Some? ==> ReadRecords(m, 12, 1).value.next == at + 7;
    } else if qd == 1 {
      var q, a := Query(labels, qtype, qclass), Record(labels, A_RECORD_TYPE, DNS_CLASS_IN, ttl, ip);
      assert [q] + [] == [q] && [a] + [] == [a];
      assert ReadQuestions(m, at, 0) == Some(Read([], at));
      assert ReadRecords(m, |m|, 0) == Some(Read([], |m|));
    } else {
      assert ReadQuestions(m, at, qd - 1).Some? ==> ReadQuestions(m, at, qd - 1).value.next >= at + 6;
    }
  }
}
