/** Go's %q (strconv.Quote), for any text. Which characters outside ASCII are printed as they are is left
    to a parameter, because it follows from the tables of printable characters. */
module GoQuote {
  import opened GoText
  import Utf8

  /** Printable ASCII apart from the quote and the backslash is printed as it is. */
  predicate Unescaped(b: byte) {
    0x20 <= b <= 0x7E && b != QUOTE && b != BACKSLASH
  }

  /** The bytes that stand in a quoted text: never a control character. */
  predicate Quotable(b: byte) {
    b >= 0x20 && b != 0x7F
  }

  function HexDigit(n: nat): (d: byte)
    requires n < 16
    ensures 0x30 <= d <= 0x39 || 0x61 <= d <= 0x66
  {
    if n < 10 then ZERO + n else 0x61 + (n - 10)
  }

  function Hex(n: nat, digits: nat): (h: Bytes)
    ensures |h| == digits && forall k :: 0 <= k < |h| ==> 0x30 <= h[k] <= 0x39 || 0x61 <= h[k] <= 0x66
  {
    if digits == 0 then [] else Hex(n / 16, digits - 1) + [HexDigit(n % 16)]
  }

  /** How one ASCII byte is printed. */
  function EscapeAscii(b: byte): (e: Bytes)
    requires b < 0x80
    ensures if Unescaped(b) then e == [b] else IsEscape(e, b == QUOTE) && |e| > 1
  {
    if Unescaped(b) then [b]
    else if b == QUOTE || b == BACKSLASH then [BACKSLASH, b]
    else if b == 0x07 then [BACKSLASH, 0x61]
    else if b == 0x08 then [BACKSLASH, 0x62]
    else if b == 0x0C then [BACKSLASH, 0x66]
    else if b == 0x0A then [BACKSLASH, 0x6E]
    else if b == 0x0D then [BACKSLASH, 0x72]
    else if b == 0x09 then [BACKSLASH, 0x74]
    else if b == 0x0B then [BACKSLASH, 0x76]
    else [BACKSLASH, 0x78] + Hex(b, 2)
  }

  /** A backslash with printable ASCII behind it; a quote only when that is what is escaped. */
  predicate IsEscape(e: Bytes, quote: bool) {
    && e != [] && e[0] == BACKSLASH
    && (forall k :: 0 <= k < |e| ==> 0x20 < e[k] < 0x7F && e[k] != EQUALS && (e[k] == QUOTE ==> quote))
  }

  function TailBits(b: byte): (n: int)
    requires b >= 0x80
    ensures 0 <= n < 0x80
  {
    var n: int := b;
    n - 0x80
  }

  function CodePoint(c: Bytes): nat
    requires 2 <= |c| <= 4 && Utf8.CharLen(c) == |c|
  {
    var lead: int := c[0];
    var t1 := TailBits(c[1]);
    if |c| == 2 then (lead - 0xC0) * 0x40 + t1
    else if |c| == 3 then (lead - 0xE0) * 0x1000 + t1 * 0x40 + TailBits(c[2])
    else (lead - 0xF0) * 0x40000 + t1 * 0x1000 + TailBits(c[2]) * 0x40 + TailBits(c[3])
  }

  /** How many bytes the next rune of `s` takes: a character, or a byte that belongs to none. */
  function HeadLen(s: Bytes): (n: nat)
    requires s != []
    ensures 0 < n <= |s| && n <= 4
  {
    if Utf8.CharLen(s) == 0 then 1 else Utf8.CharLen(s)
  }

  /** The next rune of `s` is printed as it is. */
  predicate PlainHead(s: Bytes, isPrint: Bytes -> bool)
    requires s != []
  {
    var n := Utf8.CharLen(s);
    if n == 0 then false else if n == 1 then Unescaped(s[0]) else isPrint(s[..n])
  }

  function EscapeHead(s: Bytes, isPrint: Bytes -> bool): Bytes
    requires s != []
  {
    var n := Utf8.CharLen(s);
    if n == 0 then [BACKSLASH, 0x78] + Hex(s[0], 2)
    else if n == 1 then EscapeAscii(s[0])
    else if isPrint(s[..n]) then s[..n]
    else
      Utf8.CharLenOfPrefix(s, n);
      var code := CodePoint(s[..n]);
      if code < 0x10000 then [BACKSLASH, 0x75] + Hex(code, 4) else [BACKSLASH, 0x55] + Hex(code, 8)
  }

  /** The text between the quotes. */
  function Escaped(s: Bytes, isPrint: Bytes -> bool): Bytes {
    if s == [] then [] else EscapeHead(s, isPrint) + Escaped(s[HeadLen(s)..], isPrint)
  }

  /** Text that is printed as it is. */
  predicate Plain(s: Bytes, isPrint: Bytes -> bool) {
    s == [] || (PlainHead(s, isPrint) && Plain(s[HeadLen(s)..], isPrint))
  }

  lemma HeadEscapes(s: Bytes, isPrint: Bytes -> bool)
    requires s != []
    ensures var e, n := EscapeHead(s, isPrint), HeadLen(s);
            && (if PlainHead(s, isPrint) then e == s[..n] else |e| > n)
            && (forall k :: 0 <= k < |e| ==> Quotable(e[k]))
            && (QUOTE in e ==> QUOTE in s[..n])
            && CountByte(e, EQUALS) == CountByte(s[..n], EQUALS)
  {
    var e, n := EscapeHead(s, isPrint), HeadLen(s);
    if n == 1 && s[0] == EQUALS {
      assert e == [EQUALS] == s[..n];
    } else {
      assert EQUALS !in s[..n] && EQUALS !in e;
      NoneCounted(s[..n], EQUALS);
      NoneCounted(e, EQUALS);
    }
    if Utf8.CharLen(s) == 1 {
      assert s[..n] == [s[0]];
    }
  }

  /** Quoting leaves plain text alone and makes every other text longer; it adds no '=' and no quote. */
  lemma {:induction false} EscapedSize(s: Bytes, isPrint: Bytes -> bool)
    ensures if Plain(s, isPrint) then Escaped(s, isPrint) == s else |Escaped(s, isPrint)| > |s|
    ensures QUOTE in Escaped(s, isPrint) ==> QUOTE in s
    ensures CountByte(Escaped(s, isPrint), EQUALS) == CountByte(s, EQUALS)
    ensures forall k :: 0 <= k < |Escaped(s, isPrint)| ==> Quotable(Escaped(s, isPrint)[k])
    decreases |s|
  {
    hide CountByte, EscapeHead, PlainHead, Quotable;
    if s == [] {
      NoneCounted([], EQUALS);
    } else {
      var n := HeadLen(s);
      var head, rest, e := s[..n], s[n..], EscapeHead(s, isPrint);
      assert s == head + rest;
      HeadEscapes(s, isPrint);
      EscapedSize(rest, isPrint);
      CountOfConcat(e, Escaped(rest, isPrint), EQUALS);
      CountOfConcat(head, rest, EQUALS);
    }
  }

  lemma {:induction false} PlainHasNoQuote(s: Bytes, isPrint: Bytes -> bool)
    requires Plain(s, isPrint)
    ensures QUOTE !in s
    decreases |s|
  {
    if s != [] {
      PlainHasNoQuote(s[HeadLen(s)..], isPrint);
      assert s == s[..HeadLen(s)] + s[HeadLen(s)..];
    }
  }

  predicate PlainAscii(s: Bytes) {
    forall k :: 0 <= k < |s| ==> Unescaped(s[k])
  }

  /** Printable ASCII is plain whatever else is printable. */
  lemma {:induction false} AsciiIsPlain(s: Bytes, isPrint: Bytes -> bool)
    requires PlainAscii(s)
    ensures Plain(s, isPrint)
  {
    if s != [] {
      assert Unescaped(s[0]) && Utf8.CharLen(s) == 1;
      AsciiIsPlain(s[1..], isPrint);
    }
  }
}
