/** The Go string routines that the control plane builds its names with. */
module Text {
  import opened Words

  /** Length of the longest prefix of `s` without a separator. */
  function TokenLength(s: string, seps: set<char>): (n: nat)
    ensures n <= |s| && (forall i | 0 <= i < n :: s[i] !in seps) && (n < |s| ==> s[n] in seps)
  {
    if s == "" || s[0] in seps then 0 else 1 + TokenLength(s[1..], seps)
  }

  predicate Free(s: string, seps: set<char>) {
    forall i | 0 <= i < |s| :: s[i] !in seps
  }

  /** `strings.FieldsFunc`: empty fields are dropped. */
  function Fields(s: string, seps: set<char>): seq<string>
    decreases |s|
  {
    if s == "" then []
    else if s[0] in seps then Fields(s[1..], seps)
    else var n := TokenLength(s, seps); [s[..n]] + Fields(s[n..], seps)
  }

  /** `strings.Split` on one character: empty pieces are kept. */
  function Split(s: string, sep: char): seq<string>
    decreases |s|
  {
    var n := TokenLength(s, {sep});
    if n == |s| then [s] else [s[..n]] + Split(s[n + 1..], sep)
  }

  lemma {:induction false} FieldsAreTokens(s: string, seps: set<char>)
    ensures forall f <- Fields(s, seps) :: f != "" && Free(f, seps)
    decreases |s|
  {
    if s == "" {
    } else if s[0] in seps {
      FieldsAreTokens(s[1..], seps);
    } else {
      FieldsAreTokens(s[TokenLength(s, seps)..], seps);
    }
  }

  lemma {:induction false} SplitPiecesFree(s: string, sep: char, seps: set<char>)
    requires Free(s, seps)
    ensures forall p <- Split(s, sep) :: Free(p, seps + {sep})
    decreases |s|
  {
    var n := TokenLength(s, {sep});
    if n < |s| {
      SplitPiecesFree(s[n + 1..], sep, seps);
    }
  }

  lemma TokenLengthIs(token: string, rest: string, seps: set<char>)
    requires Free(token, seps) && (rest == "" || rest[0] in seps)
    ensures TokenLength(token + rest, seps) == |token|
  {
    var s := token + rest;
    assert forall i | 0 <= i < |token| :: s[i] == token[i];
    assert rest != "" ==> s[|token|] == rest[0];
  }

  /** A separator-free field in front of a separator comes off whole. */
  lemma FieldsCons(field: string, sep: char, rest: string, seps: set<char>)
    requires field != "" && Free(field, seps) && sep in seps
    ensures Fields(field + [sep] + rest, seps) == [field] + Fields(rest, seps)
  {
    var s := field + ([sep] + rest);
    assert field + [sep] + rest == s;
    TokenLengthIs(field, [sep] + rest, seps);
    assert s[0] == field[0] && s[..|field|] == field && s[|field|..] == [sep] + rest;
    assert ([sep] + rest)[1..] == rest;
  }

  lemma FieldsLast(field: string, seps: set<char>)
    requires field != "" && Free(field, seps)
    ensures Fields(field, seps) == [field]
  {
    assert field + "" == field;
    TokenLengthIs(field, "", seps);
    assert field[..|field|] == field && field[|field|..] == "";
    assert [field] + [] == [field];
  }

  lemma SplitCons(piece: string, sep: char, rest: string)
    requires sep !in piece
    ensures Split(piece + [sep] + rest, sep) == [piece] + Split(rest, sep)
  {
    var s := piece + ([sep] + rest);
    assert piece + [sep] + rest == s;
    TokenLengthIs(piece, [sep] + rest, {sep});
    assert s[..|piece|] == piece && s[|piece| + 1..] == rest;
  }

  lemma SplitLast(piece: string, sep: char)
    requires sep !in piece
    ensures Split(piece, sep) == [piece]
  {
    assert piece + "" == piece;
    TokenLengthIs(piece, "", {sep});
  }

  /** Pieces with a separator between each two. */
  function Join(pieces: seq<string>, sep: char): string {
    if pieces == [] then ""
    else if |pieces| == 1 then pieces[0]
    else pieces[0] + [sep] + Join(pieces[1..], sep)
  }

  /** Splitting cuts at every separator and at nothing else. */
  lemma {:induction false} SplitExactly(s: string, sep: char)
    ensures Join(Split(s, sep), sep) == s && Split(s, sep) != [] && forall p <- Split(s, sep) :: sep !in p
    decreases |s|
  {
    var n := TokenLength(s, {sep});
    if n < |s| {
      SplitExactly(s[n + 1..], sep);
      assert s == s[..n] + [sep] + s[n + 1..];
      assert Split(s, sep)[1..] == Split(s[n + 1..], sep);
    }
  }

  // ----- Decimal numbers -----

  function Digit(d: nat): char
    requires d < 10
  {
    "0123456789"[d]
  }

  function DigitValue(c: char): nat
    requires '0' <= c <= '9'
  {
    c as int - '0' as int
  }

  predicate IsDigits(s: string) {
    forall i | 0 <= i < |s| :: '0' <= s[i] <= '9'
  }

  /** `%d` of a natural number. */
  function Decimal(n: nat): (s: string)
    ensures s != "" && IsDigits(s)
  {
    if n < 10 then [Digit(n)] else Decimal(n / 10) + [Digit(n % 10)]
  }

  function DigitsValue(s: string): nat
    requires IsDigits(s)
  {
    if s == "" then 0 else 10 * DigitsValue(s[..|s| - 1]) + DigitValue(s[|s| - 1])
  }

  datatype ParsedUint = Uint(value: nat) | SyntaxError | RangeError

  /** `strconv.ParseUint(s, 10, bits)`, for `max` the largest value of that width. */
  function ParseUint(s: string, max: nat): ParsedUint {
    if s == "" || !IsDigits(s) then SyntaxError
    else if DigitsValue(s) > max then RangeError
    else Uint(DigitsValue(s))
  }

  lemma {:induction false} DecimalValue(n: nat)
    ensures DigitsValue(Decimal(n)) == n
  {
    var s := Decimal(n);
    if n >= 10 {
      DecimalValue(n / 10);
      assert s[..|s| - 1] == Decimal(n / 10);
    } else {
      assert s[..|s| - 1] == "";
    }
  }

  lemma DecimalRoundTrip(n: nat, max: nat)
    requires n <= max
    ensures ParseUint(Decimal(n), max) == Uint(n)
  {
    DecimalValue(n);
  }

  lemma DecimalInjective(a: nat, b: nat)
    requires Decimal(a) == Decimal(b)
    ensures a == b
  {
    DecimalValue(a);
    DecimalValue(b);
  }

  lemma DecimalFree(n: nat, seps: set<char>)
    requires forall c <- seps :: !('0' <= c <= '9')
    ensures Free(Decimal(n), seps)
  {}

  /** `%d` of any integer. */
  function DecimalInt(n: int): string {
    if n < 0 then "-" + Decimal(-n) else Decimal(n)
  }

  /** What `weight, _ := strconv.ParseUint(s, 10, 32)` leaves in `weight`: zero on a syntax error, the
      largest value on a range error. */
  function ParseUint32OrDefault(s: string): U32 {
    match ParseUint(s, 0xffff_ffff)
    case Uint(v) => v
    case SyntaxError => 0
    case RangeError => 0xffff_ffff
  }

  lemma DecimalIntReadBack(n: int)
    ensures ParseUint32OrDefault(DecimalInt(n)) == if n < 0 then 0 else if n > 0xffff_ffff then 0xffff_ffff else n
    ensures var s := DecimalInt(n);
            if n >= 0 then IsDigits(s) && DigitsValue(s) == n
            else s[0] == '-' && IsDigits(s[1..]) && DigitsValue(s[1..]) == -n
  {
    if n < 0 {
      DecimalValue(-n);
      assert DecimalInt(n)[0] == '-' && DecimalInt(n)[1..] == Decimal(-n);
    } else {
      DecimalValue(n);
    }
  }

  /** The text after the last separator, and the text before it, are determined by the whole. */
  lemma LastSeparator(a: string, x: string, b: string, y: string, sep: char)
    requires a + [sep] + x == b + [sep] + y && sep !in x && sep !in y
    ensures a == b && x == y
  {
    var s := a + [sep] + x;
    assert s == b + [sep] + y && s[|a|] == sep && s[|b|] == sep;
    assert forall i | |a| < i < |s| :: s[i] == x[i - |a| - 1] && s[i] in x;
    assert forall i | |b| < i < |s| :: s[i] == y[i - |b| - 1] && s[i] in y;
    assert a == s[..|a|] && b == s[..|b|];
    assert x == s[|a| + 1..] && y == s[|b| + 1..];
  }

  lemma DecimalSuffixInjective(a: string, m: nat, b: string, n: nat, sep: char)
    requires !('0' <= sep <= '9')
    requires a + [sep] + Decimal(m) == b + [sep] + Decimal(n)
    ensures a == b && m == n
  {
    LastSeparator(a, Decimal(m), b, Decimal(n), sep);
    DecimalInjective(m, n);
  }

  // ----- Letter case (ASCII) -----

  function LowerChar(c: char): char {
    if 'A' <= c <= 'Z' then (c as int + 32) as char else c
  }

  function Lower(s: string): (r: string)
    ensures |r| == |s| && forall i | 0 <= i < |s| :: r[i] == LowerChar(s[i])
  {
    seq(|s|, i requires 0 <= i < |s| => LowerChar(s[i]))
  }

  predicate EqualFold(a: string, b: string) {
    Lower(a) == Lower(b)
  }

  /** The two characters are the upper and the lower case of one letter. */
  predicate SameLetter(upper: char, lower: char) {
    'A' <= upper <= 'Z' && lower as int == upper as int + 32
  }

  /** Equal under folding: the same characters in the same places, up to the case of a letter. */
  lemma EqualFoldExactly(a: string, b: string)
    ensures EqualFold(a, b) <==>
            && |a| == |b|
            && forall i | 0 <= i < |a| :: a[i] == b[i] || SameLetter(a[i], b[i]) || SameLetter(b[i], a[i])
  {
    if EqualFold(a, b) {
      assert forall i | 0 <= i < |a| :: Lower(a)[i] == Lower(b)[i];
    } else if |a| == |b| {
      assert exists i | 0 <= i < |a| :: Lower(a)[i] != Lower(b)[i];
    }
  }
}
