/** Machine words, the byte orders in which the data plane reads and writes them, and options. */
module Words {

  type Byte = b: int | 0 <= b < 0x100
  type U16 = w: int | 0 <= w < 0x1_0000
  type U32 = w: int | 0 <= w < 0x1_0000_0000
  type U64 = w: int | 0 <= w < 0x1_0000_0000_0000_0000

  datatype Option<+T> = None | Some(value: T) {
    predicate IsFailure() {
      None?
    }

    function PropagateFailure<U>(): Option<U>
      requires None?
    {
      None
    }

    function Extract(): T
      requires Some?
    {
      value
    }
  }

  /** `__builtin_bswap16`, which is what `bpf_htons` and `bpf_ntohs` are on a little-endian machine. */
  function Swap16(w: U16): U16 {
    w % 0x100 * 0x100 + w / 0x100
  }

  function Swap32(w: U32): U32 {
    Swap16(w % 0x1_0000) * 0x1_0000 + Swap16(w / 0x1_0000)
  }

  /** A swapped word read as its two bytes. */
  lemma Swap16Bytes(lo: Byte, hi: Byte)
    ensures Swap16(hi * 0x100 + lo) == lo * 0x100 + hi
  {
    var w: int := hi * 0x100 + lo;
    assert w % 0x100 == lo && w / 0x100 == hi;
  }

  lemma Swap16Involutive(w: U16)
    ensures Swap16(Swap16(w)) == w
  {
    Swap16Bytes(w % 0x100, w / 0x100);
    Swap16Bytes(w / 0x100, w % 0x100);
  }

  /** A 16-bit load by the little-endian CPU. */
  function LoadLe16(s: seq<Byte>, i: nat): U16
    requires i + 1 < |s|
  {
    var lo: int, hi: int := s[i], s[i + 1];
    lo + 0x100 * hi
  }

  /** A 16-bit field in network order. */
  function LoadBe16(s: seq<Byte>, i: nat): U16
    requires i + 1 < |s|
  {
    var hi: int, lo: int := s[i], s[i + 1];
    0x100 * hi + lo
  }

  function LoadBe32(s: seq<Byte>, i: nat): U32
    requires i + 3 < |s|
  {
    0x1_0000 * LoadBe16(s, i) + LoadBe16(s, i + 2)
  }

  function Le16(w: U16): seq<Byte> {
    [w % 0x100, w / 0x100]
  }

  function Be16(w: U16): seq<Byte> {
    [w / 0x100, w % 0x100]
  }

  function Be32(w: U32): seq<Byte> {
    Be16(w / 0x1_0000) + Be16(w % 0x1_0000)
  }

  /** Loading a word in CPU order and swapping it gives the network-order field. */
  lemma SwappedLoadIsNetworkOrder(s: seq<Byte>, i: nat)
    requires i + 1 < |s|
    ensures Swap16(LoadLe16(s, i)) == LoadBe16(s, i)
  {}

  // ----- Sequences -----

  lemma AnySnoc<T>(xs: seq<T>, p: T -> bool)
    requires xs != []
    ensures var n := |xs| - 1;
            (exists x <- xs :: p(x)) <==> (exists x <- xs[..n] :: p(x)) || p(xs[n])
  {
    assert xs == xs[..|xs| - 1] + [xs[|xs| - 1]];
  }
}
