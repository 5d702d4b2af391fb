/** UTF-8 clipping: pkgs/repo/read_preview_io.go, pkgs/agents/runner/runner.go and
    pkgs/tasks/apijson/truncate.go, against the syntax of section 4 of RFC 3629. */
module Utf8 {
  import opened GoText

  // ----- section 4 of RFC 3629 -----

  predicate IsTail(b: byte) {
    0x80 <= b <= 0xBF
  }

  predicate StartsThree(a: byte, b: byte) {
    || (a == 0xE0 && 0xA0 <= b <= 0xBF)
    || (0xE1 <= a <= 0xEC && IsTail(b))
    || (a == 0xED && 0x80 <= b <= 0x9F)
    || (0xEE <= a <= 0xEF && IsTail(b))
  }

  predicate StartsFour(a: byte, b: byte) {
    || (a == 0xF0 && 0x90 <= b <= 0xBF)
    || (0xF1 <= a <= 0xF3 && IsTail(b))
    || (a == 0xF4 && 0x80 <= b <= 0x8F)
  }

  /** The length of the character that `s` starts with, 0 when it starts with none. */
  function CharLen(s: Bytes): (n: nat)
    ensures n <= |s|
    ensures n > 0 ==> n == LeaderLen(s[0]) && !IsTail(s[0]) && forall k :: 0 < k < n ==> IsTail(s[k])
  {
    if |s| >= 1 && s[0] < 0x80 then 1
    else if |s| >= 2 && 0xC2 <= s[0] <= 0xDF && IsTail(s[1]) then 2
    else if |s| >= 3 && StartsThree(s[0], s[1]) && IsTail(s[2]) then 3
    else if |s| >= 4 && StartsFour(s[0], s[1]) && IsTail(s[2]) && IsTail(s[3]) then 4
    else 0
  }

  /** The length that a first byte announces, 0 for a byte that starts no character. */
  function LeaderLen(b: byte): (n: nat)
    ensures n <= 4 && (n > 0 ==> !IsTail(b))
  {
    if b < 0x80 then 1
    else if b < 0xC2 then 0
    else if b < 0xE0 then 2
    else if b < 0xF0 then 3
    else if b < 0xF5 then 4
    else 0
  }

  predicate Valid(s: Bytes) {
    s == [] || (CharLen(s) > 0 && Valid(s[CharLen(s)..]))
  }

  lemma CharLenOfPrefix(s: Bytes, i: nat)
    requires i <= |s| && CharLen(s) > 0
    ensures CharLen(s[..i]) == if CharLen(s) <= i then CharLen(s) else 0
  {
  }

  /** A position of valid text where no character is cut. */
  predicate AtStart(s: Bytes, i: nat)
    requires i <= |s|
  {
    i == |s| || !IsTail(s[i])
  }

  lemma CutInsideChar(s: Bytes, i: nat)
    requires 0 < i < CharLen(s)
    ensures !Valid(s[..i]) && !Valid(s[i..]) && !AtStart(s, i)
  {
    CharLenOfPrefix(s, i);
    assert s[i..][0] == s[i];
  }

  lemma CutBehindChar(s: Bytes, i: nat)
    requires 0 < CharLen(s) <= i <= |s|
    ensures var n := CharLen(s);
            && Valid(s[..i]) == Valid(s[n..][..i - n]) && Valid(s[i..]) == Valid(s[n..][i - n..])
            && AtStart(s, i) == AtStart(s[n..], i - n)
  {
    CharLenOfPrefix(s, i);
    assert s[..i][CharLen(s)..] == s[CharLen(s)..][..i - CharLen(s)];
    assert s[i..] == s[CharLen(s)..][i - CharLen(s)..];
  }

  /** In valid text the bytes that are not continuation bytes mark exactly where it can be cut. */
  lemma {:induction false} CutsAtStarts(s: Bytes, i: nat)
    requires Valid(s) && i <= |s|
    ensures Valid(s[..i]) <==> AtStart(s, i)
    ensures Valid(s[i..]) <==> AtStart(s, i)
    decreases |s|
  {
    if i == 0 {
      CutAtFront(s);
    } else {
      ValidStep(s);
      hide CharLen, Valid, AtStart;
      var n := CharLen(s);
      if i < n {
        CutInsideChar(s, i);
      } else {
        CutBehindChar(s, i);
        CutsAtStarts(s[n..], i - n);
      }
    }
  }

  lemma CutAtFront(s: Bytes)
    requires Valid(s)
    ensures Valid(s[..0]) && Valid(s[0..]) && AtStart(s, 0)
  {
    assert s[..0] == [] && s[0..] == s;
  }

  lemma ValidStep(s: Bytes)
    requires s != []
    ensures Valid(s) <==> CharLen(s) > 0 && Valid(s[CharLen(s)..])
  {
  }

  lemma CharLenOfConcat(a: Bytes, b: Bytes)
    requires CharLen(a) > 0
    ensures CharLen(a + b) == CharLen(a)
  {
    assert (a + b)[..|a|] == a;
  }

  lemma {:induction false} ValidConcat(a: Bytes, b: Bytes)
    requires Valid(a) && Valid(b)
    ensures Valid(a + b)
    decreases |a|
  {
    if a == [] {
      assert a + b == b;
    } else {
      ValidStep(a);
      ValidStep(a + b);
      hide CharLen, Valid;
      var n := CharLen(a);
      CharLenOfConcat(a, b);
      assert (a + b)[n..] == a[n..] + b;
      ValidConcat(a[n..], b);
    }
  }

  /** The character of valid text that a cut at `n` would split. */
  lemma {:induction false} CharAround(t: Bytes, n: nat) returns (j: nat)
    requires Valid(t) && n < |t| && IsTail(t[n])
    ensures j < n <= j + 3 && LeaderLen(t[j]) > n - j && forall k :: j < k <= n ==> IsTail(t[k])
    decreases |t|
  {
    var c := CharLen(t);
    if n < c {
      j := 0;
    } else {
      assert t[n] == t[c..][n - c];
      var i := CharAround(t[c..], n - c);
      j := c + i;
      assert t[c..][i] == t[j];
      forall k | j < k <= n ensures IsTail(t[k]) {
        assert t[k] == t[c..][k - c];
      }
    }
  }

  // ----- trimTrailingPartialRune -----

  /** A first byte at `i` announces more bytes than `data` has left. */
  ghost predicate Dangling(data: Bytes, i: nat) {
    i < |data| && LeaderLen(data[i]) > |data| - i && forall k :: i < k < |data| ==> IsTail(data[k])
  }

  ghost predicate SeamTrimmed(data: Bytes, r: Bytes) {
    r <= data && if r == data then forall i :: !Dangling(data, i) else Dangling(data, |r|)
  }

  method TrimTrailingPartialRune(data: Bytes) returns (r: Bytes)
    ensures SeamTrimmed(data, r)
  {
    if |data| == 0 {
      return data;
    }
    var limit := |data| - 4;
    if limit < 0 {
      limit := 0;
    }
    var i := |data| - 1;
    while i >= limit
      invariant limit - 1 <= i < |data|
      invariant forall k :: i < k < |data| ==> IsTail(data[k])
    {
      if IsTail(data[i]) {
        i := i - 1;
        continue;
      }
      var runeLen: int;
      var b := data[i];
      if b < 0x80 {
        runeLen := 1;
      } else if b < 0xC2 {
        return data;
      } else if b < 0xE0 {
        runeLen := 2;
      } else if b < 0xF0 {
        runeLen := 3;
      } else if b < 0xF5 {
        runeLen := 4;
      } else {
        return data;
      }
      if i + runeLen > |data| {
        return data[..i];
      }
      return data;
    }
    return data;
  }

  lemma SplitDangles(t: Bytes, n: nat)
    requires Valid(t) && n < |t| && IsTail(t[n])
    ensures exists j: nat :: Dangling(t[..n], j)
  {
    var j := CharAround(t, n);
    assert Dangling(t[..n], j);
  }

  lemma DanglingIsInvalid(data: Bytes, i: nat)
    requires Dangling(data, i)
    ensures !Valid(data)
  {
    if Valid(data) {
      CutsAtStarts(data, i);
    }
  }

  /** On the first `n` bytes of valid text the trim leaves the longest valid prefix, and drops at
      most three bytes. */
  lemma TrimMendsTheSeam(t: Bytes, n: nat, r: Bytes)
    requires Valid(t) && n <= |t| && SeamTrimmed(t[..n], r)
    ensures Valid(r) && r <= t && |r| <= n <= |r| + 3
    ensures forall m :: |r| < m <= n ==> !Valid(t[..m])
  {
    hide Valid, CharLen;
    var data := t[..n];
    if r == data {
      if n < |t| && IsTail(t[n]) {
        SplitDangles(t, n);
      }
      CutsAtStarts(t, n);
    } else {
      var i := |r|;
      CutsAtStarts(t, i);
      assert r == t[..i] && data[i] == t[i];
      DanglingIsInvalid(data, i);
      forall m | i < m <= n ensures !Valid(t[..m]) {
        if m < n { CutsAtStarts(t, m); }
      }
    }
  }

  /** Text that is invalid in its interior is not always left alone: FF C3 loses its last byte. */
  lemma InvalidTextIsTrimmedToo(r: Bytes)
    requires SeamTrimmed([0xFF, 0xC3], r)
    ensures r == [0xFF] && !Valid(r)
  {
    assert Dangling([0xFF, 0xC3], 1);
    assert !Dangling([0xFF, 0xC3], 0);
    assert r == [0xFF, 0xC3][..|r|];
  }

  // ----- clipRawOutput -----

  const MAX_RESULT_RAW_OUTPUT_BYTES := 64 * 1024

  method ClipRawOutput(s: Bytes) returns (out: Bytes, clipped: bool)
    ensures clipped <==> |s| > MAX_RESULT_RAW_OUTPUT_BYTES
    ensures |out| <= |s| && out == s[|s| - |out|..] && |out| <= MAX_RESULT_RAW_OUTPUT_BYTES
    ensures !clipped ==> out == s
    ensures Valid(s) ==> Valid(out)
    ensures Valid(s) ==> forall j: nat :: |s| - MAX_RESULT_RAW_OUTPUT_BYTES <= j < |s| - |out| ==> !Valid(s[j..])
    ensures Valid(s) && clipped ==> |out| + 3 >= MAX_RESULT_RAW_OUTPUT_BYTES
  {
    if |s| <= MAX_RESULT_RAW_OUTPUT_BYTES {
      return s, false;
    }
    ghost var from := |s| - MAX_RESULT_RAW_OUTPUT_BYTES;
    var start := |s| - MAX_RESULT_RAW_OUTPUT_BYTES;
    while start < |s| && IsTail(s[start])
      invariant from <= start <= |s|
      invariant forall k :: from <= k < start ==> IsTail(s[k])
    {
      start := start + 1;
    }
    if Valid(s) {
      forall k | from <= k <= start ensures Valid(s[k..]) <==> k == start {
        CutsAtStarts(s, k);
      }
      if start > from {
        var j := CharAround(s, start - 1);
      }
    }
    return s[start..], true;
  }

  // ----- TruncateUTF8ByBytes -----

  /** What utf8.DecodeRuneInString consumes: a character, or one byte where there is none. */
  function DecodeLen(s: Bytes): (n: nat)
    requires s != []
    ensures 0 < n <= |s|
  {
    if CharLen(s) > 0 then CharLen(s) else 1
  }

  /** A position that decoding from the start comes to. */
  predicate Boundary(s: Bytes, i: nat) {
    i == 0 || (s != [] && DecodeLen(s) <= i && Boundary(s[DecodeLen(s)..], i - DecodeLen(s)))
  }

  lemma BoundaryBehind(s: Bytes, b: nat)
    requires s != [] && 0 < b
    ensures Boundary(s, b) <==> DecodeLen(s) <= b && Boundary(s[DecodeLen(s)..], b - DecodeLen(s))
  {
  }

  lemma {:induction false} NextBoundary(s: Bytes, e: nat)
    requires e < |s| && Boundary(s, e)
    ensures var next := e + DecodeLen(s[e..]); Boundary(s, next) && forall b :: e < b < next ==> !Boundary(s, b)
    decreases |s|
  {
    hide CharLen, DecodeLen;
    var n := DecodeLen(s);
    if e == 0 {
      assert s[0..] == s;
    } else {
      var next := e + DecodeLen(s[e..]);
      assert s[n..][e - n..] == s[e..];
      NextBoundary(s[n..], e - n);
      BoundaryBehind(s, next);
      forall b | e < b < next ensures !Boundary(s, b) {
        BoundaryBehind(s, b);
      }
    }
  }

  /** In valid text decoding comes to exactly the positions where the text can be cut. */
  lemma {:induction false} BoundaryOfValid(s: Bytes, i: nat)
    requires Valid(s) && i <= |s|
    ensures Boundary(s, i) <==> Valid(s[..i])
    decreases |s|
  {
    if i == 0 {
      assert s[..0] == [];
    } else {
      var n := CharLen(s);
      CharLenOfPrefix(s, i);
      if n <= i {
        assert s[..i][n..] == s[n..][..i - n];
        BoundaryOfValid(s[n..], i - n);
      }
    }
  }

  const ELLIPSIS: Bytes := [0xE2, 0x80, 0xA6]

  /** The longest prefix of whole runes that fits into `limit` bytes. */
  ghost predicate LongestFit(s: Bytes, end: nat, limit: nat) {
    end <= limit && Boundary(s, end) && forall b :: end < b <= limit ==> !Boundary(s, b)
  }

  ghost predicate Truncation(s: Bytes, maxBytes: int, out: Bytes) {
    if maxBytes <= 0 then out == []
    else if |s| <= maxBytes then out == s
    else if maxBytes <= 3 then out == ELLIPSIS[..maxBytes]
    else
      && 3 <= |out| <= |s| + 3 && LongestFit(s, |out| - 3, maxBytes - 3)
      && out == s[..|out| - 3] + ELLIPSIS
  }

  method TruncateUTF8ByBytes(s: Bytes, maxBytes: int) returns (out: Bytes)
    ensures Truncation(s, maxBytes, out) && (0 < maxBytes ==> |out| <= maxBytes)
  {
    assert Boundary(s, 0);
    hide Boundary, DecodeLen;
    if maxBytes <= 0 {
      return [];
    }
    if |s| <= maxBytes {
      return s;
    }
    if maxBytes <= |ELLIPSIS| {
      return ELLIPSIS[..maxBytes];
    }
    var limit := maxBytes - |ELLIPSIS|;
    var end := 0;
    var i := 0;
    while i < |s|
      invariant i == end <= limit && Boundary(s, end)
    {
      NextBoundary(s, i);
      var sz := DecodeLen(s[i..]);
      if i + sz > limit {
        break;
      }
      i := i + sz;
      end := i;
    }
    if end == 0 {
      assert s[..0] + ELLIPSIS == ELLIPSIS;
      return ELLIPSIS;
    }
    return s[..end] + ELLIPSIS;
  }

  /** Valid text stays valid, except that a limit of one or two bytes cuts the ellipsis itself. */
  lemma TruncationValidity(s: Bytes, maxBytes: int, out: Bytes)
    requires Valid(s) && Truncation(s, maxBytes, out)
    ensures Valid(out) <==> !(1 <= maxBytes <= 2 && maxBytes < |s|)
  {
    if 0 < maxBytes < |s| {
      assert CharLen(ELLIPSIS) == 3 && Valid(ELLIPSIS);
      CharLenOfPrefix(ELLIPSIS, 1);
      CharLenOfPrefix(ELLIPSIS, 2);
      if maxBytes > 3 {
        BoundaryOfValid(s, |out| - 3);
        ValidConcat(s[..|out| - 3], ELLIPSIS);
      } else if maxBytes == 3 {
        assert ELLIPSIS[..3] == ELLIPSIS;
      }
    }
  }

  // ----- clipSummary -----

  const MAX_SUMMARY_RUNES := 512

  /** The replacement character U+FFFD, which stands for a byte that belongs to no character. */
  const REPLACEMENT: Bytes := [0xEF, 0xBF, 0xBD]

  /** The runes of `s`, each in its encoding. */
  function Runes(s: Bytes): (rs: seq<Bytes>)
    ensures forall k :: 0 <= k < |rs| ==> rs[k] != [] && CharLen(rs[k]) == |rs[k]|
  {
    if s == [] then []
    else if CharLen(s) > 0 then [s[..CharLen(s)]] + Runes(s[CharLen(s)..])
    else [REPLACEMENT] + Runes(s[1..])
  }

  function Concat(rs: seq<Bytes>): Bytes {
    if rs == [] then [] else rs[0] + Concat(rs[1..])
  }

  function ClipSummary(s: Bytes): (Bytes, bool) {
    if |Runes(s)| <= MAX_SUMMARY_RUNES then (s, false) else (Concat(Runes(s)[..MAX_SUMMARY_RUNES]), true)
  }

  lemma {:induction false} RunesOfConcat(rs: seq<Bytes>)
    requires forall k :: 0 <= k < |rs| ==> rs[k] != [] && CharLen(rs[k]) == |rs[k]|
    ensures Runes(Concat(rs)) == rs && Valid(Concat(rs))
  {
    if rs != [] {
      var rest := Concat(rs[1..]);
      assert (rs[0] + rest)[..|rs[0]|] == rs[0] && (rs[0] + rest)[|rs[0]|..] == rest;
      LongerSameChar(rs[0], rest);
      RunesOfConcat(rs[1..]);
    }
  }

  lemma LongerSameChar(c: Bytes, more: Bytes)
    requires c != [] && CharLen(c) == |c|
    ensures CharLen(c + more) == |c|
  {
    assert (c + more)[..|c|] == c;
  }

  lemma FirstRune(s: Bytes)
    requires CharLen(s) > 0
    ensures Runes(s) == [s[..CharLen(s)]] + Runes(s[CharLen(s)..])
  {
  }

  lemma FirstOfConcat(first: Bytes, later: seq<Bytes>, s: Bytes)
    requires first <= s && Concat(later) <= s[|first|..]
    ensures Concat([first] + later) <= s
  {
    hide Concat;
    ConcatCons(first, later);
    assert s == first + s[|first|..];
  }

  lemma ConcatCons(first: Bytes, later: seq<Bytes>)
    ensures Concat([first] + later) == first + Concat(later)
  {
    assert ([first] + later)[1..] == later;
  }

  lemma FrontCons<T>(first: T, rest: seq<T>, n: nat)
    requires 0 < n <= 1 + |rest|
    ensures ([first] + rest)[..n] == [first] + rest[..n - 1]
  {
  }

  lemma {:induction false} ConcatOfRunes(s: Bytes, n: nat)
    requires Valid(s) && n <= |Runes(s)|
    ensures Concat(Runes(s)[..n]) <= s
    decreases |s|
  {
    if n > 0 {
      hide Runes, CharLen, Concat;
      var c := CharLen(s);
      NoRunes();
      FirstRune(s);
      ConcatOfRunes(s[c..], n - 1);
      FrontCons(s[..c], Runes(s[c..]), n);
      FirstOfConcat(s[..c], Runes(s[c..])[..n - 1], s);
    }
  }

  lemma NoRunes()
    ensures Runes([]) == []
  {
  }

  /** The clipped summary has at most 512 runes, exactly that many when it was clipped; clipping
      makes it valid, keeps the front of valid text, and changes nothing the second time. */
  lemma SummaryIsClipped(s: Bytes)
    ensures var (out, clipped) := ClipSummary(s);
            && (clipped ==> |Runes(out)| == MAX_SUMMARY_RUNES && Valid(out))
            && (!clipped ==> out == s && |Runes(s)| <= MAX_SUMMARY_RUNES)
            && (Valid(s) ==> out <= s && Valid(out))
            && ClipSummary(out) == (out, false)
  {
    if |Runes(s)| > MAX_SUMMARY_RUNES {
      RunesOfConcat(Runes(s)[..MAX_SUMMARY_RUNES]);
      if Valid(s) {
        ConcatOfRunes(s, MAX_SUMMARY_RUNES);
      }
    }
  }
}
