/** The byte-string helpers of Go's strings and strconv packages that the parsers rely on. */
module GoText {
  import opened Wrappers

  type byte = x: int | 0 <= x < 256
  type Bytes = seq<byte>

  const SPACE: byte := 0x20
  const TAB: byte := 0x09
  const NEWLINE: byte := 0x0A
  const RETURN: byte := 0x0D
  const QUOTE: byte := 0x22
  const OPEN_PAREN: byte := 0x28
  const CLOSE_PAREN: byte := 0x29
  const PLUS: byte := 0x2B
  const DASH: byte := 0x2D
  const ZERO: byte := 0x30
  const EQUALS: byte := 0x3D
  const AT: byte := 0x40
  const BACKSLASH: byte := 0x5C

  // ----- strings.IndexByte -----

  /** The first position of `c` at or after `from`. */
  function IndexFrom(s: Bytes, c: byte, from: nat): (r: Option<nat>)
    requires from <= |s|
    ensures r.Some? ==> from <= r.value < |s| && s[r.value] == c && forall k :: from <= k < r.value ==> s[k] != c
    ensures r.None? ==> forall k :: from <= k < |s| ==> s[k] != c
    decreases |s| - from
  {
    if from == |s| then None else if s[from] == c then Some(from) else IndexFrom(s, c, from + 1)
  }

  // ----- bytes.Count -----

  function CountByte(s: Bytes, c: byte): nat {
    if s == [] then 0 else (if s[0] == c then 1 else 0) + CountByte(s[1..], c)
  }

  lemma {:induction false} CountOfConcat(a: Bytes, b: Bytes, c: byte)
    ensures CountByte(a + b, c) == CountByte(a, c) + CountByte(b, c)
  {
    if a == [] {
      assert a + b == b;
    } else {
      assert (a + b)[1..] == a[1..] + b;
      CountOfConcat(a[1..], b, c);
    }
  }

  lemma {:induction false} NoneCounted(s: Bytes, c: byte)
    requires c !in s
    ensures CountByte(s, c) == 0
  {
    if s != [] {
      NoneCounted(s[1..], c);
    }
  }

  lemma OneCounted(c: byte)
    ensures CountByte([c], c) == 1
  {
  }

  // ----- strings.TrimSpace -----

  predicate IsAsciiSpace(b: byte) {
    0x09 <= b <= 0x0D || b == 0x20
  }

  /** Whether the two bytes encode U+0085 or U+00A0. */
  predicate IsSpace2(a: byte, b: byte) {
    a == 0xC2 && (b == 0x85 || b == 0xA0)
  }

  /** Whether the three bytes encode U+1680, U+2000-U+200A, U+2028, U+2029, U+202F, U+205F or U+3000. */
  predicate IsSpace3(a: byte, b: byte, c: byte) {
    || (a == 0xE1 && b == 0x9A && c == 0x80)
    || (a == 0xE2 && b == 0x80 && (0x80 <= c <= 0x8A || c == 0xA8 || c == 0xA9 || c == 0xAF))
    || (a == 0xE2 && b == 0x81 && c == 0x9F)
    || (a == 0xE3 && b == 0x80 && c == 0x80)
  }

  /** The length of the white-space character that `s` starts with, 0 when there is none. */
  function SpaceAtStart(s: Bytes): (n: nat)
    ensures n <= |s|
  {
    if |s| >= 1 && IsAsciiSpace(s[0]) then 1
    else if |s| >= 2 && IsSpace2(s[0], s[1]) then 2
    else if |s| >= 3 && IsSpace3(s[0], s[1], s[2]) then 3
    else 0
  }

  /** The length of the white-space character that `s` ends with, 0 when there is none. */
  function SpaceAtEnd(s: Bytes): (n: nat)
    ensures n <= |s|
  {
    var k := |s|;
    if k >= 1 && IsAsciiSpace(s[k - 1]) then 1
    else if k >= 2 && IsSpace2(s[k - 2], s[k - 1]) then 2
    else if k >= 3 && IsSpace3(s[k - 3], s[k - 2], s[k - 1]) then 3
    else 0
  }

  function TrimLeft(s: Bytes): (t: Bytes)
    ensures |t| <= |s| && t == s[|s| - |t|..] && SpaceAtStart(t) == 0
  {
    var n := SpaceAtStart(s);
    if n == 0 then s else TrimLeft(s[n..])
  }

  function TrimRight(s: Bytes): (t: Bytes)
    ensures t <= s && SpaceAtEnd(t) == 0
  {
    var n := SpaceAtEnd(s);
    if n == 0 then s else TrimRight(s[..|s| - n])
  }

  function TrimSpace(s: Bytes): Bytes {
    TrimRight(TrimLeft(s))
  }

  /** Text that neither starts nor ends with white space, which trimming leaves alone. */
  predicate Trimmed(s: Bytes) {
    SpaceAtStart(s) == 0 && SpaceAtEnd(s) == 0
  }

  // ----- strconv.Itoa and strconv.Atoi -----

  const MAX_INT: int := 0x7FFF_FFFF_FFFF_FFFF

  predicate IsInt64(n: int) {
    -MAX_INT - 1 <= n <= MAX_INT
  }

  predicate IsDigit(b: byte) {
    0x30 <= b <= 0x39
  }

  predicate AllDigits(s: Bytes) {
    forall k :: 0 <= k < |s| ==> IsDigit(s[k])
  }

  function Decimal(n: nat): (s: Bytes)
    ensures s != [] && AllDigits(s)
  {
    if n < 10 then [ZERO + n] else Decimal(n / 10) + [ZERO + n % 10]
  }

  function Itoa(n: int): Bytes {
    if n < 0 then [DASH] + Decimal(-n) else Decimal(n)
  }

  function DigitsValue(s: Bytes): nat
    requires AllDigits(s)
  {
    if s == [] then 0 else 10 * DigitsValue(s[..|s| - 1]) + (s[|s| - 1] - ZERO)
  }

  function Numeral(negative: bool, digits: Bytes): Option<int> {
    if digits == [] || !AllDigits(digits) then None
    else
      var size: int := DigitsValue(digits);
      var n := if negative then -size else size;
      if IsInt64(n) then Some(n) else None
  }

  /** An optional sign and at least one digit, with a value of 64 bits. */
  function Atoi(s: Bytes): Option<int> {
    if s != [] && s[0] == DASH then Numeral(true, s[1..])
    else if s != [] && s[0] == PLUS then Numeral(false, s[1..])
    else Numeral(false, s)
  }

  lemma {:induction false} DecimalReadsBack(n: nat)
    ensures DigitsValue(Decimal(n)) == n
  {
    if n >= 10 {
      DecimalReadsBack(n / 10);
      assert Decimal(n)[..|Decimal(n)| - 1] == Decimal(n / 10);
    } else {
      assert Decimal(n)[..0] == [];
    }
  }

  lemma AtoiOfItoa(n: int)
    ensures Atoi(Itoa(n)) == if IsInt64(n) then Some(n) else None
  {
    hide DigitsValue;
    if n < 0 {
      DecimalReadsBack(-n);
      assert Itoa(n)[0] == DASH && Itoa(n)[1..] == Decimal(-n);
    } else {
      DecimalReadsBack(n);
      assert IsDigit(Itoa(n)[0]);
    }
  }

  /** Text whose first and last bytes are printable ASCII is trimmed. */
  lemma TrimmedByEnds(s: Bytes)
    requires s != [] && 0x20 < s[0] < 0x80 && 0x20 < s[|s| - 1] < 0x80
    ensures Trimmed(s)
  {
  }

  lemma ItoaEnds(n: int)
    ensures Itoa(n) != [] && 0x20 < Itoa(n)[0] < 0x80 && IsDigit(Itoa(n)[|Itoa(n)| - 1])
    ensures if n < 0 then Itoa(n)[0] == DASH else AllDigits(Itoa(n))
  {
  }

  lemma FirstIs(s: Bytes, c: byte, from: nat, k: nat)
    requires from <= k < |s| && s[k] == c && forall j :: from <= j < k ==> s[j] != c
    ensures IndexFrom(s, c, from) == Some(k)
  {
  }

  lemma TrimmedStays(s: Bytes)
    requires Trimmed(s)
    ensures TrimSpace(s) == s
  {
  }

  lemma TrimSpaceTrims(s: Bytes)
    ensures Trimmed(TrimSpace(s))
  {
    var t := TrimLeft(s);
    var r := TrimRight(t);
    assert r <= t && forall k :: 0 <= k < |r| ==> r[k] == t[k];
  }

  lemma FrontOfBack(s: Bytes, t: Bytes, r: Bytes)
    requires |t| <= |s| && t == s[|s| - |t|..] && r <= t
    ensures forall k :: 0 <= k < |r| ==> r[k] in s
  {
    forall k | 0 <= k < |r| ensures r[k] in s {
      assert r[k] == t[k] == s[|s| - |t| + k];
    }
  }

  lemma TrimSpaceIsPart(s: Bytes)
    ensures forall k :: 0 <= k < |TrimSpace(s)| ==> TrimSpace(s)[k] in s
  {
    FrontOfBack(s, TrimLeft(s), TrimRight(TrimLeft(s)));
  }

  lemma NothingToTrim()
    ensures TrimSpace([]) == []
  {
  }

  /** Trimming takes only white space away. */
  lemma TrimSpaceKeeps(s: Bytes, c: byte)
    requires c in s && 0x20 < c < 0x80
    ensures c in TrimSpace(s)
  {
    TrimLeftKeeps(s, c);
    TrimRightKeeps(TrimLeft(s), c);
  }

  lemma {:induction false} TrimLeftKeeps(s: Bytes, c: byte)
    requires c in s && 0x20 < c < 0x80
    ensures c in TrimLeft(s)
  {
    var n := SpaceAtStart(s);
    if n > 0 {
      var k :| 0 <= k < |s| && s[k] == c;
      assert s[n..][k - n] == c;
      TrimLeftKeeps(s[n..], c);
    }
  }

  lemma {:induction false} TrimRightKeeps(s: Bytes, c: byte)
    requires c in s && 0x20 < c < 0x80
    ensures c in TrimRight(s)
  {
    var n := SpaceAtEnd(s);
    if n > 0 {
      var k :| 0 <= k < |s| && s[k] == c;
      assert s[..|s| - n][k] == c;
      TrimRightKeeps(s[..|s| - n], c);
    }
  }

  lemma NoNumberWith(s: Bytes, c: byte)
    requires c in s && !IsDigit(c) && c != DASH && c != PLUS
    ensures Atoi(s) == None
  {
    var k :| 0 <= k < |s| && s[k] == c;
    if s[0] == DASH || s[0] == PLUS {
      assert s[1..][k - 1] == c;
    }
  }
}
