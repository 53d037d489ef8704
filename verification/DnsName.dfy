/** DNS names on the wire (section 3.1 of RFC 1035) and the 260-octet lookup key that the XDP program
    parses out of a query and the Go data plane packs from a hostname. */
module DnsName {
  import opened Words

  /** `MAX_DNS_NAME_LENGTH` on both sides. */
  const NAME_SIZE: nat := 256

  type Name = seq<seq<Byte>>

  /** `struct dns_query`. */
  datatype Key = Key(qtype: U16, qclass: U16, name: seq<Byte>)

  /** A label whose length fits the octet in front of it. */
  predicate FitLabel(octets: seq<Byte>) {
    1 <= |octets| <= 63
  }

  predicate FitLabels(labels: Name) {
    forall l <- labels :: FitLabel(l)
  }

  /** Without an octet that looks like the end of the name. */
  predicate ValidLabels(labels: Name) {
    FitLabels(labels) && forall l <- labels :: 0 !in l
  }

  /** The counted labels, without the terminating zero octet. */
  function Wire(labels: Name): seq<Byte>
    requires FitLabels(labels)
  {
    if labels == [] then []
    else assert FitLabel(labels[0]); [|labels[0]|] + labels[0] + Wire(labels[1..])
  }

  /** A name that the Go packer accepts into the name array of a key. */
  predicate Packable(labels: Name) {
    FitLabels(labels) && |Wire(labels)| <= NAME_SIZE
  }

  /** A name without zeros whose terminating zero fits too. RFC 1035 allows at most 255 octets in all, so every
      legal name is one. */
  predicate ValidName(labels: Name) {
    ValidLabels(labels) && |Wire(labels)| < NAME_SIZE
  }

  function Zeros(n: nat): (z: seq<Byte>)
    ensures |z| == n && forall i | 0 <= i < n :: z[i] == 0
  {
    seq(n, _ => 0)
  }

  /** The name array of a key: the octets, zero-filled to its fixed size. */
  function Padded(octets: seq<Byte>): (p: seq<Byte>)
    requires |octets| <= NAME_SIZE
    ensures |p| == NAME_SIZE
  {
    octets + Zeros(NAME_SIZE - |octets|)
  }

  /** The key the Go side stores for a name. */
  function GoKey(labels: Name, qtype: U16, qclass: U16): Key
    requires Packable(labels)
  {
    Key(qtype, qclass, Padded(Wire(labels)))
  }

  lemma {:induction false} WireHasNoZero(labels: Name)
    requires ValidLabels(labels)
    ensures 0 !in Wire(labels)
  {
    if labels != [] {
      assert FitLabel(labels[0]) && 0 !in labels[0];
      WireHasNoZero(labels[1..]);
    }
  }

  lemma FirstCount(labels: Name, zeros: nat)
    requires FitLabels(labels)
    ensures labels != [] <==> var w := Wire(labels) + Zeros(zeros); w != [] && w[0] != 0
  {
    if labels != [] {
      assert FitLabel(labels[0]);
    }
  }

  lemma SameCounted(x: seq<Byte>, y: seq<Byte>, p: seq<Byte>, q: seq<Byte>)
    requires FitLabel(x) && FitLabel(y) && [|x|] + (x + p) == [|y|] + (y + q)
    ensures x == y && p == q
  {
    var w := [|x|] + (x + p);
    assert w[0] == |x| == |y|;
    assert w[1..] == x + p && w[1..] == y + q;
    assert (x + p)[..|x|] == x && (y + q)[..|y|] == y;
    assert (x + p)[|x|..] == p && (y + q)[|y|..] == q;
  }

  lemma Regroup(a: seq<Byte>, b: seq<Byte>, c: seq<Byte>, d: seq<Byte>)
    ensures a + b + c + d == a + (b + (c + d))
  {}

  lemma WireSplit(labels: Name, tail: seq<Byte>)
    requires FitLabels(labels) && labels != []
    ensures FitLabel(labels[0]) && FitLabels(labels[1..])
    ensures Wire(labels) + tail == [|labels[0]|] + (labels[0] + (Wire(labels[1..]) + tail))
  {
    assert labels[0] in labels;
    Regroup([|labels[0]|], labels[0], Wire(labels[1..]), tail);
  }

  /** Counted labels are read back, whatever number of zeros follows. */
  lemma {:induction false} WireInjective(a: Name, b: Name, x: nat, y: nat)
    requires FitLabels(a) && FitLabels(b) && Wire(a) + Zeros(x) == Wire(b) + Zeros(y)
    ensures a == b
  {
    FirstCount(a, x);
    FirstCount(b, y);
    if a != [] {
      WireSplit(a, Zeros(x));
      WireSplit(b, Zeros(y));
      SameCounted(a[0], b[0], Wire(a[1..]) + Zeros(x), Wire(b[1..]) + Zeros(y));
      WireInjective(a[1..], b[1..], x, y);
      assert a == [a[0]] + a[1..] && b == [b[0]] + b[1..];
    }
  }

  /** Zero-filling loses nothing of octets that are not zero. */
  lemma PaddedInjective(a: seq<Byte>, b: seq<Byte>)
    requires |a| <= NAME_SIZE && |b| <= NAME_SIZE && 0 !in a && 0 !in b
    requires Padded(a) == Padded(b)
    ensures a == b
  {
    assert forall i | 0 <= i < |a| :: Padded(b)[i] == a[i] != 0;
    assert forall i | 0 <= i < |b| :: Padded(a)[i] == b[i] != 0;
    assert |a| < NAME_SIZE ==> Padded(a)[|a|] == 0;
    assert |b| < NAME_SIZE ==> Padded(b)[|b|] == 0;
    assert a == Padded(a)[..|a|] && b == Padded(b)[..|b|];
  }

  /** Distinct names, types or classes never share a key. */
  lemma KeyInjective(a: Name, b: Name, ta: U16, tb: U16, ca: U16, cb: U16)
    requires Packable(a) && Packable(b)
    requires GoKey(a, ta, ca) == GoKey(b, tb, cb)
    ensures a == b && ta == tb && ca == cb
  {
    WireInjective(a, b, NAME_SIZE - |Wire(a)|, NAME_SIZE - |Wire(b)|);
  }

  // ----- parse_query -----

  /** Position of the first zero octet of the packet in `at..end`. */
  function FirstZero(pkt: seq<Byte>, at: nat, end: nat): (r: Option<nat>)
    ensures r.Some? ==> at <= r.value < end && r.value < |pkt| && pkt[r.value] == 0
    ensures forall j | at <= j < |pkt| && j < (if r.Some? then r.value else end) :: pkt[j] != 0
    decreases end - at
  {
    if at >= end || at >= |pkt| then None
    else if pkt[at] == 0 then Some(at)
    else FirstZero(pkt, at + 1, end)
  }

  datatype Parsed = NoName | Question(length: nat, key: Key)

  /** What a query at `start` parses to. A question cut off before its type and class still counts as
      one, with both left zero. */
  function Parse(pkt: seq<Byte>, start: nat): Parsed {
    match FirstZero(pkt, start, start + NAME_SIZE)
    case None => NoName
    case Some(z) =>
      Question(z - start + 5, Key(if z + 5 <= |pkt| then LoadBe16(pkt, z + 1) else 0,
                                  if z + 5 <= |pkt| then LoadBe16(pkt, z + 3) else 0,
                                  Padded(pkt[start..z])))
  }

  method ParseQuery(pkt: seq<Byte>, start: nat) returns (length: int, key: Key)
    requires start <= |pkt|
    ensures length == match Parse(pkt, start) case NoName => -1 case Question(n, _) => n
    ensures length >= 0 ==> key == Parse(pkt, start).key
  {
    var name := Zeros(NAME_SIZE);
    var recordType: U16, class_: U16 := 0, 0;
    var cursor, namepos := start, 0;
    for i := 0 to NAME_SIZE
      invariant namepos == i && cursor == start + i <= |pkt|
      invariant forall j | start <= j < cursor :: pkt[j] != 0
      invariant name == Padded(pkt[start..cursor])
    {
      if cursor + 1 > |pkt| {
        break;
      }
      if pkt[cursor] == 0 {
        assert FirstZero(pkt, start, start + NAME_SIZE) == Some(cursor);
        if cursor + 5 <= |pkt| {
          SwappedLoadIsNetworkOrder(pkt, cursor + 1);
          SwappedLoadIsNetworkOrder(pkt, cursor + 3);
          recordType := Swap16(LoadLe16(pkt, cursor + 1));
          class_ := Swap16(LoadLe16(pkt, cursor + 3));
        }
        return namepos + 1 + 2 + 2, Key(recordType, class_, name);
      }
      assert pkt[start..cursor + 1] == pkt[start..cursor] + [pkt[cursor]];
      name := name[namepos := pkt[cursor]];
      namepos := namepos + 1;
      cursor := cursor + 1;
    }
    assert FirstZero(pkt, start, start + NAME_SIZE).None?;
    return -1, Key(recordType, class_, name);
  }

  /** The octets of a question: name, terminator, type and class (section 4.1.2 of RFC 1035). */
  function QuestionOctets(labels: Name, qtype: U16, qclass: U16): seq<Byte>
    requires ValidLabels(labels)
  {
    Wire(labels) + [0] + Be16(qtype) + Be16(qclass)
  }

  predicate HasQuestion(pkt: seq<Byte>, start: nat, labels: Name, qtype: U16, qclass: U16)
    requires ValidLabels(labels)
  {
    var q := QuestionOctets(labels, qtype, qclass);
    start + |q| <= |pkt| && pkt[start..start + |q|] == q
  }

  lemma QuestionParses(pkt: seq<Byte>, start: nat, labels: Name, qtype: U16, qclass: U16)
    requires ValidName(labels) && HasQuestion(pkt, start, labels, qtype, qclass)
    ensures Parse(pkt, start) == Question(|QuestionOctets(labels, qtype, qclass)|, GoKey(labels, qtype, qclass))
  {
    var w := Wire(labels);
    var q := QuestionOctets(labels, qtype, qclass);
    WireHasNoZero(labels);
    assert forall i | 0 <= i < |q| :: pkt[start + i] == pkt[start..start + |q|][i] == q[i];
    assert forall j | start <= j < start + |w| :: pkt[j] == w[j - start];
    assert pkt[start..start + |w|] == w;
    assert pkt[start + |w|] == q[|w|] == 0;
    assert FirstZero(pkt, start, start + NAME_SIZE) == Some(start + |w|);
    assert q[|w| + 1..] == Be16(qtype) + Be16(qclass);
  }

  /** The five octets after a name, cut into terminator, type and class. */
  lemma QuestionSlices(pkt: seq<Byte>, start: nat, n: nat)
    requires start + n + 5 <= |pkt|
    ensures pkt[start..start + n + 5]
            == pkt[start..start + n] + [pkt[start + n]] + Be16(LoadBe16(pkt, start + n + 1))
               + Be16(LoadBe16(pkt, start + n + 3))
  {
    assert pkt[start + n + 1..start + n + 3] == Be16(LoadBe16(pkt, start + n + 1));
    assert pkt[start + n + 3..start + n + 5] == Be16(LoadBe16(pkt, start + n + 3));
    assert pkt[start..start + n + 5] == pkt[start..start + n] + [pkt[start + n]] + pkt[start + n + 1..start + n + 3]
           + pkt[start + n + 3..start + n + 5];
  }

  lemma KeyLocatesQuestion(pkt: seq<Byte>, start: nat, labels: Name, qtype: U16, qclass: U16)
    requires ValidName(labels) && qtype != 0 && Parse(pkt, start).Question?
    requires Parse(pkt, start).key == GoKey(labels, qtype, qclass)
    ensures HasQuestion(pkt, start, labels, qtype, qclass)
  {
    var n := Parse(pkt, start).length - 5;
    WireHasNoZero(labels);
    PaddedInjective(pkt[start..start + n], Wire(labels));
    QuestionSlices(pkt, start, n);
  }

  /** Key agreement: a packet parses to the key the Go side packed exactly when it holds that question,
      octet for octet. In particular a question cut off before its class never matches. */
  lemma KeyAgreement(pkt: seq<Byte>, start: nat, labels: Name, qtype: U16, qclass: U16)
    requires ValidName(labels) && qtype != 0
    ensures (exists n :: Parse(pkt, start) == Question(n, GoKey(labels, qtype, qclass)))
       <==> HasQuestion(pkt, start, labels, qtype, qclass)
    ensures HasQuestion(pkt, start, labels, qtype, qclass) ==>
              Parse(pkt, start) == Question(|QuestionOctets(labels, qtype, qclass)|, GoKey(labels, qtype, qclass))
  {
    if HasQuestion(pkt, start, labels, qtype, qclass) {
      QuestionParses(pkt, start, labels, qtype, qclass);
    }
    if n :| Parse(pkt, start) == Question(n, GoKey(labels, qtype, qclass)) {
      KeyLocatesQuestion(pkt, start, labels, qtype, qclass);
    }
  }

  /** A name that leaves no room for its terminator is packed but never matched. */
  lemma OverlongNeverMatches(pkt: seq<Byte>, start: nat, labels: Name, qtype: U16, qclass: U16)
    requires Packable(labels) && ValidLabels(labels)
    requires Parse(pkt, start).Question? && Parse(pkt, start).key == GoKey(labels, qtype, qclass)
    ensures ValidName(labels)
  {
    WireHasNoZero(labels);
    assert Parse(pkt, start).key.name[NAME_SIZE - 1] == 0;
    assert Padded(Wire(labels))[..|Wire(labels)|] == Wire(labels);
  }
}
