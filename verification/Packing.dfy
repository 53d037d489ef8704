/** Hostnames packed into DNS keys by the Go side, with the escapes of the presentation format (section 5.1 of
    RFC 1035). */
module Packing {
  import opened Words
  import opened Text
  import opened DnsName
  import opened DnsMessage

  // ----- Names in the presentation format -----

  /** Go strings are octets, and a character stands for one. */
  function OctetOf(c: char): Byte {
    c as int % 0x100
  }

  /** What a name spells: dots between labels, and the octets of labels. */
  datatype Symbol = Dot | Octet(value: Byte)

  /** Three digits, which after a backslash spell an octet. */
  predicate IsDdd(s: string) {
    |s| >= 3 && IsDigits(s[..3])
  }

  function Ddd(s: string): Byte
    requires IsDdd(s)
  {
    DigitsValue(s[..3]) % 0x100
  }

  /** A backslash takes the special meaning from what follows it. */
  function Symbols(s: string): seq<Symbol>
    decreases |s|
  {
    if s == "" then []
    else if s[0] == '.' then [Dot] + Symbols(s[1..])
    else if s[0] != '\\' || |s| == 1 then [Octet(OctetOf(s[0]))] + Symbols(s[1..])
    else if IsDdd(s[1..]) then [Octet(Ddd(s[1..]))] + Symbols(s[4..])
    else [Octet(OctetOf(s[1]))] + Symbols(s[2..])
  }

  predicate EndsInDot(syms: seq<Symbol>) {
    syms != [] && syms[|syms| - 1] == Dot
  }

  /** The labels between the dots. */
  function Pieces(syms: seq<Symbol>): (r: Name)
    ensures r != []
  {
    if syms == [] then [[]]
    else
      Grown(Pieces(syms[..|syms| - 1]), syms[|syms| - 1])
  }

  /** A dot begins a new label, and an octet makes the last one longer. */
  function Grown(labels: Name, x: Symbol): (r: Name)
    requires labels != []
    ensures r != []
  {
    if x == Dot then labels + [[]] else labels[|labels| - 1 := labels[|labels| - 1] + [x.value]]
  }

  /** The labels of a dotted name. */
  function Labels(s: string): Name {
    Pieces(Symbols(s))
  }

  /** `dns.PackDomainName` without compression into the 256 octets of a key: the labels packed, if the name
      is fully qualified and they fit. */
  function PackDomainName(s: string): (r: Option<Name>)
    ensures r.Some? ==> Packable(r.value)
  {
    var syms := Symbols(s);
    if s == "" || syms == [Dot] then Some([])
    else if !EndsInDot(syms) then None
    else if Packable(Pieces(syms[..|syms| - 1])) then Some(Pieces(syms[..|syms| - 1]))
    else None
  }

  /** The A and AAAA keys of a packed name. */
  function EntryKeys(packed: Option<Name>): set<Key>
    requires packed.Some? ==> Packable(packed.value)
  {
    if packed.None? then {} else {GoKey(packed.value, 1, DNS_CLASS_IN), GoKey(packed.value, 28, DNS_CLASS_IN)}
  }

  function Dotted(name: string): string {
    name + "."
  }

  /** Keys an update of the hostname writes, and keys a deletion of it removes. */
  function WrittenKeys(name: string): set<Key> {
    EntryKeys(PackDomainName(Dotted(name)))
  }

  function DeletedKeys(name: string): set<Key> {
    EntryKeys(PackDomainName(name))
  }

  lemma DddDot(s: string)
    ensures IsDdd(Dotted(s)) == IsDdd(s) && (IsDdd(s) ==> Ddd(Dotted(s)) == Ddd(s))
  {
    if |s| >= 3 {
      assert Dotted(s)[..3] == s[..3];
    } else if |s| == 2 {
      assert Dotted(s)[..3][2] == '.';
    }
  }

  /** A dot at the end of the symbols is a dot at the end of the name, and adding another adds just that. */
  lemma {:induction false} FinalDot(s: string)
    requires EndsInDot(Symbols(s))
    ensures s[|s| - 1] == '.' && Symbols(Dotted(s)) == Symbols(s) + [Dot]
    decreases |s|
  {
    if s == "." {
      assert Dotted(s)[1..] == "." && "."[1..] == "";
    } else {
      var n := if s[0] == '.' || s[0] != '\\' || |s| == 1 then 1 else if IsDdd(s[1..]) then 4 else 2;
      FinalDotRest(s, n);
      FinalDot(s[n..]);
    }
  }

  lemma FinalDotRest(s: string, n: nat)
    requires 1 <= n <= |s|
    ensures Dotted(s)[n..] == Dotted(s[n..]) && Dotted(s)[1..] == Dotted(s[1..])
    ensures IsDdd(Dotted(s)[1..]) == IsDdd(s[1..]) && (IsDdd(s[1..]) ==> Ddd(Dotted(s)[1..]) == Ddd(s[1..]))
  {
    DddDot(s[1..]);
    assert Dotted(s)[1..] == Dotted(s[1..]);
  }

  /** A second dot at the end leaves an empty label, so such a name is never packed. */
  lemma FullyQualifiedIsNotWritten(s: string)
    requires EndsInDot(Symbols(s))
    ensures PackDomainName(Dotted(s)).None?
  {
    FinalDot(s);
    var syms := Symbols(s);
    assert (syms + [Dot])[..|syms|] == syms;
    var pieces := Pieces(syms);
    assert pieces[|pieces| - 1] == [] && !FitLabel(pieces[|pieces| - 1]);
  }

  // ----- Names without escapes -----

  predicate Unescaped(s: string) {
    forall i | 0 <= i < |s| :: s[i] as int < 0x100 && s[i] != '\\'
  }

  /** Hostnames without escapes or zero octets. */
  predicate IsHost(s: string) {
    forall i | 0 <= i < |s| :: 0 < s[i] as int < 0x100 && s[i] != '\\'
  }

  /** The names that symbols and labels were taken from. */
  function Spelled(syms: seq<Symbol>): string {
    seq(|syms|, i requires 0 <= i < |syms| => if syms[i] == Dot then '.' else syms[i].value as char)
  }

  function Rejoined(labels: Name): seq<Symbol>
    requires labels != []
  {
    if |labels| == 1 then Word(labels[0])
    else Rejoined(labels[..|labels| - 1]) + [Dot] + Word(labels[|labels| - 1])
  }

  function Word(octets: seq<Byte>): seq<Symbol> {
    seq(|octets|, i requires 0 <= i < |octets| => Octet(octets[i]))
  }

  lemma {:induction false} SymbolsOf(s: string)
    requires Unescaped(s)
    ensures |Symbols(s)| == |s|
    ensures forall i | 0 <= i < |s| :: Symbols(s)[i] == if s[i] == '.' then Dot else Octet(s[i] as int)
    decreases |s|
  {
    if s != "" {
      SymbolsOf(s[1..]);
    }
  }

  lemma SpelledSymbols(s: string)
    requires Unescaped(s)
    ensures Spelled(Symbols(s)) == s
  {
    SymbolsOf(s);
  }

  /** The presentation format: a dot, a character that stands for itself, any but a digit after a backslash, or three
      digits after one. */
  predicate Writes(w: string, x: Symbol) {
    || (w == "." && x == Dot)
    || (|w| == 1 && w[0] !in ".\\" && x == Octet(w[0] as int % 0x100))
    || (|w| == 2 && w[0] == '\\' && !('0' <= w[1] <= '9') && x == Octet(w[1] as int % 0x100))
    || (|w| == 4 && w[0] == '\\' && IsDigits(w[1..]) && x == Octet(DigitsValue(w[1..]) % 0x100))
  }

  lemma SymbolsCons(w: string, x: Symbol, rest: string)
    requires Writes(w, x)
    ensures Symbols(w + rest) == [x] + Symbols(rest)
  {
    var s := w + rest;
    assert s[|w|..] == rest;
    if |w| == 4 {
      assert s[1..][..3] == w[1..];
    }
  }

  function Concat(ws: seq<string>): string {
    if ws == [] then "" else ws[0] + Concat(ws[1..])
  }

  /** Whatever way the symbols are written, they are read back. */
  lemma {:induction false} WrittenIsRead(ws: seq<string>, syms: seq<Symbol>)
    requires |ws| == |syms| && forall i | 0 <= i < |ws| :: Writes(ws[i], syms[i])
    ensures Symbols(Concat(ws)) == syms
    decreases |ws|
  {
    if ws != [] {
      WrittenIsRead(ws[1..], syms[1..]);
      SymbolsCons(ws[0], syms[0], Concat(ws[1..]));
    }
  }

  /** Taking symbols apart into labels loses nothing. */
  lemma {:induction false} RejoinedPieces(syms: seq<Symbol>)
    ensures Rejoined(Pieces(syms)) == syms
    decreases |syms|
  {
    if syms == [] {
      assert Word([]) == [];
    } else {
      var n := |syms| - 1;
      var before := Pieces(syms[..n]);
      var k := |before| - 1;
      RejoinedPieces(syms[..n]);
      assert syms == syms[..n] + [syms[n]];
      if syms[n] == Dot {
        assert (before + [[]])[..k + 1] == before && Word([]) == [];
      } else {
        assert before[k := before[k] + [syms[n].value]][..k] == before[..k];
        assert Word(before[k] + [syms[n].value]) == Word(before[k]) + [syms[n]];
      }
    }
  }

  /** A packed name comes from one row of symbols only. */
  lemma SamePacked(s: string, t: string)
    requires s != "" && t != "" && PackDomainName(s).Some? && PackDomainName(s) == PackDomainName(t)
    ensures Symbols(s) == Symbols(t)
  {
    PackedSymbols(s);
    PackedSymbols(t);
  }

  lemma PackedSymbols(s: string)
    requires s != "" && PackDomainName(s).Some?
    ensures var labels := PackDomainName(s).value;
            Symbols(s) == if labels == [] then [Dot] else Rejoined(labels) + [Dot]
  {
    var syms := Symbols(s);
    if syms != [Dot] {
      RejoinedPieces(syms[..|syms| - 1]);
      assert syms == syms[..|syms| - 1] + [Dot];
    }
  }

  /** And a name without escapes is the only one of its symbols. */
  lemma PackedFrom(s: string, t: string)
    requires Unescaped(s) && Unescaped(t) && s != "" && t != ""
    requires PackDomainName(s).Some? && PackDomainName(s) == PackDomainName(t)
    ensures s == t
  {
    SamePacked(s, t);
    SpelledSymbols(s);
    SpelledSymbols(t);
  }

  lemma DottedSymbols(s: string)
    requires Unescaped(s)
    ensures Unescaped(Dotted(s)) && Symbols(Dotted(s)) == Symbols(s) + [Dot]
  {
    SymbolsOf(s);
    SymbolsOf(Dotted(s));
  }

  lemma {:induction false} PiecesWithoutZero(syms: seq<Symbol>)
    requires Octet(0) !in syms
    ensures forall l <- Pieces(syms) :: 0 !in l
    decreases |syms|
  {
    if syms != [] {
      var n := |syms| - 1;
      PiecesWithoutZero(syms[..n]);
      var before := Pieces(syms[..n]);
      assert before[|before| - 1] in before;
    }
  }

  lemma PackedHostIsValid(h: string)
    requires IsHost(h) && PackDomainName(Dotted(h)).Some?
    ensures ValidLabels(PackDomainName(Dotted(h)).value)
  {
    var syms := Symbols(h);
    SymbolsOf(h);
    DottedSymbols(h);
    assert (syms + [Dot])[..|syms|] == syms;
    PiecesWithoutZero(syms);
  }

  lemma NotPacked(h: string)
    requires h != "" && h[|h| - 1] != '.'
    ensures PackDomainName(h).None?
  {
    if EndsInDot(Symbols(h)) {
      FinalDot(h);
    }
  }

  // ----- What a deletion removes -----

  lemma KeysInCommon(p: Name, q: Name)
    requires Packable(p) && Packable(q)
    ensures EntryKeys(Some(p)) * EntryKeys(Some(q)) != {} <==> p == q
  {
    if k :| k in EntryKeys(Some(p)) && k in EntryKeys(Some(q)) {
      KeyInjective(p, q, k.qtype, k.qtype, k.qclass, k.qclass);
    }
    assert GoKey(p, 1, DNS_CLASS_IN) in EntryKeys(Some(p));
  }

  /** Deleting `h` removes something that updating `g` wrote exactly when both are packed, and to the same labels:
      a deletion does not add the dot that an update adds. */
  lemma DeletionExactly(h: string, g: string)
    ensures WrittenKeys(g) * DeletedKeys(h) != {} <==>
            PackDomainName(h).Some? && PackDomainName(h) == PackDomainName(Dotted(g))
  {
    var p, q := PackDomainName(Dotted(g)), PackDomainName(h);
    if p.Some? && q.Some? {
      KeysInCommon(p.value, q.value);
    }
  }

  /** For names without escapes, that is when `h` is `g` with a final dot, or both are empty. */
  lemma DeletionNeedsTheDot(h: string, g: string)
    requires Unescaped(h) && Unescaped(g)
    ensures WrittenKeys(g) * DeletedKeys(h) != {} <==> WrittenKeys(g) != {} && (h == Dotted(g) || h == g == "")
  {
    DeletionExactly(h, g);
    DottedSymbols(g);
    var p := PackDomainName(Dotted(g));
    if p.Some? {
      assert GoKey(p.value, 1, DNS_CLASS_IN) in WrittenKeys(g);
      if h != "" && PackDomainName(h) == p {
        PackedFrom(h, Dotted(g));
      }
      if h == "" && PackDomainName(h) == p {
        NoLabels(Dotted(g));
      }
    }
  }

  /** Only the root is packed to no labels at all. */
  lemma NoLabels(s: string)
    requires PackDomainName(s) == Some([])
    ensures s == "" || Symbols(s) == [Dot]
  {}

  /** Deleting a hostname removes nothing of what updating it wrote, unless it is empty. */
  lemma DeletionIsVoid(h: string)
    ensures WrittenKeys(h) * DeletedKeys(h) != {} <==> h == ""
  {
    DeletionExactly(h, h);
    if h == "" {
      DottedSymbols(h);
    } else if PackDomainName(h).Some? {
      FullyQualifiedIsNotWritten(h);
    }
  }
}
