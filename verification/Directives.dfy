/** The skip directive: its printed form (cmd/funclogmeasure/inject_directives.go) and its parser
    (cmd/funclogmeasure/skip_directive.go). */
module Directives {
  import opened GoQuote
  import opened GoText
  import opened Wrappers

  /** Printable text without blanks, quotes and '='. */
  predicate Word(s: Bytes) {
    s != [] && forall k :: 0 <= k < |s| ==> 0x20 < s[k] < 0x7F && s[k] != QUOTE && s[k] != EQUALS
  }

  /** The bytes of a literal that is one word. */
  function Literal(s: string): (b: Bytes)
    requires s != "" && forall k :: 0 <= k < |s| ==> ' ' < s[k] <= '~' && s[k] != '"' && s[k] != '='
    ensures |b| == |s| && Word(b) && forall k :: 0 <= k < |s| ==> b[k] == s[k] as int
  {
    seq(|s|, k requires 0 <= k < |s| => s[k] as int)
  }

  const SLASHES: Bytes := Literal("//")
  const MARK: Bytes := Literal("funclogmeasure:skip")
  const CATEGORY: Bytes := Literal("category")
  const REASON: Bytes := Literal("reason")

  const TOOL_NOOP: Bytes := Literal("tool-required-noop")
  const HOT_PATH: Bytes := Literal("hot-path")
  const DELEGATE: Bytes := Literal("delegate-already-logs")
  const RE_EXPORT: Bytes := Literal("re-export-wrapper")

  const MIN_DIRECTIVE_REASON := 20

  predicate ValidCategory(c: Bytes) {
    c == TOOL_NOOP || c == HOT_PATH || c == DELEGATE || c == RE_EXPORT
  }

  // ----- the parser -----

  /** strings.Trim(v, "\""). */
  function TrimQuotes(v: Bytes): (t: Bytes)
    ensures |t| <= |v|
    decreases |v|
  {
    if v != [] && v[0] == QUOTE then TrimQuotes(v[1..])
    else if v != [] && v[|v| - 1] == QUOTE then TrimQuotes(v[..|v| - 1])
    else v
  }

  /** The first blank or tab at or after `from`. */
  function BlankFrom(s: Bytes, from: nat): (r: Option<nat>)
    requires from <= |s|
    ensures r.Some? ==> from <= r.value < |s| && (s[r.value] == SPACE || s[r.value] == TAB)
    ensures r.Some? ==> forall k :: from <= k < r.value ==> s[k] != SPACE && s[k] != TAB
    ensures r.None? ==> forall k :: from <= k < |s| ==> s[k] != SPACE && s[k] != TAB
    decreases |s| - from
  {
    if from == |s| then None else if s[from] == SPACE || s[from] == TAB then Some(from) else BlankFrom(s, from + 1)
  }

  type Fields = map<Bytes, Bytes>

  /** One key and value: the value found, and what is left to read, if reading goes on. */
  datatype Pair = End | Last(key: Bytes, value: Bytes) | More(key: Bytes, value: Bytes, rest: Bytes)

  /** The value that `v`, which stands behind the '=', starts with. */
  function PairBehind(key: Bytes, v: Bytes): (p: Pair)
    ensures p.More? ==> |p.rest| <= |v|
  {
    if v == [] then End
    else if v[0] == QUOTE then
      match IndexFrom(v, QUOTE, 1)
      case None => Last(key, TrimQuotes(v))
      case Some(end) => More(key, v[1..end], TrimSpace(v[end + 1..]))
    else
      match BlankFrom(v, 0)
      case None => Last(key, v)
      case Some(sp) => More(key, v[..sp], v[sp..])
  }

  function NextPair(text: Bytes): (p: Pair)
    ensures p.More? ==> |p.rest| < |text|
  {
    var rest := TrimSpace(text);
    match IndexFrom(rest, EQUALS, 0)
    case None => End
    case Some(eq) => PairBehind(TrimSpace(rest[..eq]), TrimSpace(rest[eq + 1..]))
  }

  function FieldsOf(text: Bytes, out: Fields): Fields
    decreases |text|
  {
    match NextPair(text)
    case End => out
    case Last(key, value) => out[key := value]
    case More(key, value, rest) => FieldsOf(rest, out[key := value])
  }

  method ParseDirectiveKV(rest0: Bytes) returns (out: Fields)
    ensures out == FieldsOf(rest0, map[])
  {
    hide TrimSpace, TrimQuotes;
    var rest := rest0;
    out := map[];
    while rest != []
      invariant FieldsOf(rest0, map[]) == FieldsOf(rest, out)
      decreases |rest|
    {
      ghost var text := rest;
      rest := TrimSpace(rest);
      if rest == [] {
        return;
      }
      var eq := IndexFrom(rest, EQUALS, 0);
      if eq.None? {
        return;
      }
      var key := TrimSpace(rest[..eq.value]);
      rest := TrimSpace(rest[eq.value + 1..]);
      if rest == [] {
        return;
      }
      if rest[0] == QUOTE {
        var end := IndexFrom(rest, QUOTE, 1);
        if end.None? {
          out := out[key := TrimQuotes(rest)];
          return;
        }
        out := out[key := rest[1..end.value]];
        rest := TrimSpace(rest[end.value + 1..]);
        continue;
      }
      var sp := BlankFrom(rest, 0);
      if sp.None? {
        out := out[key := rest];
        return;
      }
      out := out[key := rest[..sp.value]];
      rest := rest[sp.value..];
    }
    NothingToRead(out);
  }

  lemma NothingToRead(out: Fields)
    ensures FieldsOf([], out) == out
  {
    hide TrimSpace;
    NothingToTrim();
  }

  datatype SkipDirective = SkipDirective(category: Bytes, reason: Bytes)

  function FieldOr(fields: Fields, key: Bytes): Bytes {
    if key in fields then fields[key] else []
  }

  function TrimPrefix(s: Bytes, prefix: Bytes): (t: Bytes)
    ensures |t| <= |s|
  {
    if prefix <= s then s[|prefix|..] else s
  }

  /** parseDirectiveFields, with every error as None. */
  function ParseDirectiveFields(text: Bytes): Option<SkipDirective> {
    var rest := TrimSpace(TrimPrefix(text, MARK));
    var fields := FieldsOf(rest, map[]);
    var category, reason := FieldOr(fields, CATEGORY), FieldOr(fields, REASON);
    if rest == [] || !ValidCategory(category) || |TrimSpace(reason)| < MIN_DIRECTIVE_REASON then None
    else Some(SkipDirective(category, reason))
  }

  /** The directive of a doc comment: that of the first line that starts as one, if it is valid. */
  function ParseSkipDirective(doc: seq<Bytes>): Option<SkipDirective> {
    if doc == [] then None
    else
      var text := TrimSpace(TrimPrefix(doc[0], SLASHES));
      if MARK <= text then ParseDirectiveFields(text) else ParseSkipDirective(doc[1..])
  }

  // ----- the printer -----

  /** The part of the directive behind the mark and a blank. */
  function PrintFields(category: Bytes, reason: Bytes, isPrint: Bytes -> bool): Bytes {
    CATEGORY + [EQUALS] + category + [SPACE] + REASON + [EQUALS] + [QUOTE] + Escaped(reason, isPrint) + [QUOTE]
  }

  function PrintDirective(category: Bytes, reason: Bytes, isPrint: Bytes -> bool): Bytes {
    SLASHES + MARK + [SPACE] + PrintFields(category, reason, isPrint)
  }

  // ----- reading a printed directive -----

  predicate SolidEnds(s: Bytes) {
    s != [] && 0x20 < s[0] < 0x80 && 0x20 < s[|s| - 1] < 0x80
  }

  lemma CategoriesAreWords(c: Bytes)
    requires ValidCategory(c)
    ensures Word(c)
  {
  }

  lemma SolidStays(s: Bytes)
    requires SolidEnds(s)
    ensures TrimSpace(s) == s
  {
    TrimmedByEnds(s);
  }

  lemma LeadingBlankGoes(s: Bytes)
    requires SolidEnds(s)
    ensures TrimSpace([SPACE] + s) == s
  {
    TrimmedByEnds(s);
    assert ([SPACE] + s)[1..] == s;
    assert TrimLeft([SPACE] + s) == TrimLeft(s) == s;
  }

  /** How `key=v` is taken apart. */
  lemma KeyAndValue(key: Bytes, v: Bytes, text: Bytes)
    requires Word(key) && SolidEnds(v) && text == key + [EQUALS] + v
    ensures IndexFrom(text, EQUALS, 0) == Some(|key|) && text[..|key|] == key && text[|key| + 1..] == v
    ensures SolidEnds(key) && SolidEnds(text)
  {
    assert forall k :: 0 <= k < |key| ==> text[k] == key[k];
    assert text[|key|] == EQUALS;
    FirstIs(text, EQUALS, 0, |key|);
  }

  lemma PairKeyAndValue(key: Bytes, v: Bytes, text: Bytes)
    requires Word(key) && SolidEnds(v) && text == key + [EQUALS] + v
    ensures TrimSpace(text) == text && TrimSpace(key) == key && TrimSpace(v) == v
  {
    hide TrimSpace;
    KeyAndValue(key, v, text);
    SolidStays(text);
    SolidStays(key);
    SolidStays(v);
  }

  lemma BlankAt(word: Bytes, more: Bytes)
    requires Word(word)
    ensures BlankFrom(word + [SPACE] + more, 0) == Some(|word|)
  {
    var s := word + [SPACE] + more;
    assert s[|word|] == SPACE;
    assert forall k :: 0 <= k < |word| ==> s[k] == word[k];
  }

  lemma PairIsBehind(read: Bytes, key: Bytes, v: Bytes)
    requires Word(key) && SolidEnds(v) && TrimSpace(read) == key + [EQUALS] + v
    ensures NextPair(read) == PairBehind(key, v)
  {
    hide TrimSpace, PairBehind;
    var text := key + [EQUALS] + v;
    KeyAndValue(key, v, text);
    PairKeyAndValue(key, v, text);
  }

  lemma PlainPair(key: Bytes, word: Bytes, more: Bytes)
    requires Word(key) && Word(word) && SolidEnds(more)
    ensures NextPair(key + [EQUALS] + word + [SPACE] + more) == More(key, word, [SPACE] + more)
  {
    hide TrimSpace, NextPair;
    var v := word + [SPACE] + more;
    var text := key + [EQUALS] + v;
    assert key + [EQUALS] + word + [SPACE] + more == text;
    assert v[0] == word[0];
    PairKeyAndValue(key, v, text);
    PairIsBehind(text, key, v);
    BlankAt(word, more);
    assert v[..|word|] == word && v[|word|..] == [SPACE] + more;
  }

  lemma QuotedValue(key: Bytes, inner: Bytes, end: nat)
    requires IndexFrom(inner + [QUOTE], QUOTE, 0) == Some(end)
    ensures PairBehind(key, [QUOTE] + inner + [QUOTE])
         == More(key, (inner + [QUOTE])[..end], TrimSpace((inner + [QUOTE])[end + 1..]))
  {
    hide TrimSpace, TrimQuotes, BlankFrom;
    var w := inner + [QUOTE];
    var v := [QUOTE] + inner + [QUOTE];
    assert v == [QUOTE] + w;
    assert forall j :: 1 <= j < |v| ==> v[j] == w[j - 1];
    FirstIs(v, QUOTE, 1, end + 1);
    assert v[1..end + 1] == w[..end] && v[end + 2..] == w[end + 1..];
  }

  lemma QuotedPair(key: Bytes, inner: Bytes, end: nat)
    requires Word(key) && IndexFrom(inner + [QUOTE], QUOTE, 0) == Some(end)
    ensures NextPair([SPACE] + key + [EQUALS] + [QUOTE] + inner + [QUOTE])
         == More(key, (inner + [QUOTE])[..end], TrimSpace((inner + [QUOTE])[end + 1..]))
  {
    hide TrimSpace, NextPair, PairBehind, IndexFrom;
    var v := [QUOTE] + inner + [QUOTE];
    var text := key + [EQUALS] + v;
    assert [SPACE] + key + [EQUALS] + [QUOTE] + inner + [QUOTE] == [SPACE] + text;
    LeadingBlankGoes(text);
    PairIsBehind([SPACE] + text, key, v);
    QuotedValue(key, inner, end);
  }

  /** Where the value of the reason ends: at the first quote of the quoted text or behind it. */
  function ReasonEnd(reason: Bytes, isPrint: Bytes -> bool): (end: nat)
    ensures end <= |Escaped(reason, isPrint)| && QUOTE !in (Escaped(reason, isPrint) + [QUOTE])[..end]
  {
    var w := Escaped(reason, isPrint) + [QUOTE];
    assert w[|Escaped(reason, isPrint)|] == QUOTE;
    IndexFrom(w, QUOTE, 0).value
  }

  lemma FieldsOfPrinted(category: Bytes, reason: Bytes, isPrint: Bytes -> bool)
    requires ValidCategory(category)
    ensures var w, end := Escaped(reason, isPrint) + [QUOTE], ReasonEnd(reason, isPrint);
            FieldsOf(PrintFields(category, reason, isPrint), map[])
            == FieldsOf(TrimSpace(w[end + 1..]), map[CATEGORY := category, REASON := w[..end]])
  {
    hide TrimSpace, NextPair, Escaped, ValidCategory;
    var q := Escaped(reason, isPrint);
    var more := REASON + [EQUALS] + [QUOTE] + q + [QUOTE];
    CategoriesAreWords(category);
    KeysAreWords();
    PlainPair(CATEGORY, category, more);
    assert PrintFields(category, reason, isPrint) == CATEGORY + [EQUALS] + category + [SPACE] + more;
    var w := q + [QUOTE];
    assert w[|q|] == QUOTE;
    QuotedPair(REASON, q, ReasonEnd(reason, isPrint));
    assert [SPACE] + more == [SPACE] + REASON + [EQUALS] + [QUOTE] + q + [QUOTE];
  }

  lemma KeysAreWords()
    ensures Word(CATEGORY) && Word(REASON) && CATEGORY != REASON
  {
    assert |CATEGORY| == 8 && |REASON| == 6;
  }

  // ----- which reasons come back -----

  lemma PartCounts(s: Bytes, a: nat, b: nat, c: byte)
    requires a <= b <= |s|
    ensures CountByte(s[a..b], c) <= CountByte(s, c)
  {
    assert s == s[..a] + (s[a..b] + s[b..]);
    CountOfConcat(s[..a], s[a..b] + s[b..], c);
    CountOfConcat(s[a..b], s[b..], c);
  }

  lemma TrimCounts(s: Bytes, c: byte)
    ensures CountByte(TrimSpace(s), c) <= CountByte(s, c)
  {
    var t := TrimLeft(s);
    PartCounts(s, |s| - |t|, |s|, c);
    assert s[|s| - |t|..|s|] == t;
    PartCounts(t, 0, |TrimRight(t)|, c);
    assert t[0..|TrimRight(t)|] == TrimRight(t);
  }

  lemma {:induction false} TrimQuotesCounts(v: Bytes, c: byte)
    ensures CountByte(TrimQuotes(v), c) <= CountByte(v, c)
    decreases |v|
  {
    if v != [] && v[0] == QUOTE {
      TrimQuotesCounts(v[1..], c);
      PartCounts(v, 1, |v|, c);
      assert v[1..|v|] == v[1..];
    } else if v != [] && v[|v| - 1] == QUOTE {
      TrimQuotesCounts(v[..|v| - 1], c);
      PartCounts(v, 0, |v| - 1, c);
    }
  }

  lemma BehindEquals(rest: Bytes, eq: nat)
    requires eq < |rest| && rest[eq] == EQUALS
    ensures CountByte(TrimSpace(rest[eq + 1..]), EQUALS) < CountByte(rest, EQUALS)
  {
    assert rest == rest[..eq] + ([EQUALS] + rest[eq + 1..]);
    CountOfConcat(rest[..eq], [EQUALS] + rest[eq + 1..], EQUALS);
    CountOfConcat([EQUALS], rest[eq + 1..], EQUALS);
    OneCounted(EQUALS);
    TrimCounts(rest[eq + 1..], EQUALS);
  }

  /** A value and what follows it have one '=' less than the text they are read from. */
  lemma PairCounts(text: Bytes)
    ensures var p := NextPair(text);
            && (!p.End? ==> CountByte(p.value, EQUALS) < CountByte(text, EQUALS))
            && (p.More? ==> CountByte(p.rest, EQUALS) < CountByte(text, EQUALS))
  {
    hide TrimSpace, CountByte, PairBehind;
    var rest := TrimSpace(text);
    TrimCounts(text, EQUALS);
    match IndexFrom(rest, EQUALS, 0)
    case None =>
    case Some(eq) =>
      BehindEquals(rest, eq);
      ValueCounts(TrimSpace(rest[..eq]), TrimSpace(rest[eq + 1..]));
  }

  lemma ValueCounts(key: Bytes, v: Bytes)
    ensures var p := PairBehind(key, v);
            && (!p.End? ==> CountByte(p.value, EQUALS) <= CountByte(v, EQUALS))
            && (p.More? ==> CountByte(p.rest, EQUALS) <= CountByte(v, EQUALS))
  {
    hide TrimSpace, TrimQuotes, CountByte, BlankFrom;
    if v != [] && v[0] == QUOTE {
      QuotedCounts(v);
    } else if v != [] {
      WordCounts(v);
    }
  }

  lemma QuotedCounts(v: Bytes)
    requires v != [] && v[0] == QUOTE
    ensures match IndexFrom(v, QUOTE, 1)
            case None => CountByte(TrimQuotes(v), EQUALS) <= CountByte(v, EQUALS)
            case Some(end) =>
              && CountByte(v[1..end], EQUALS) <= CountByte(v, EQUALS)
              && CountByte(TrimSpace(v[end + 1..]), EQUALS) <= CountByte(v, EQUALS)
  {
    hide TrimSpace, TrimQuotes, CountByte;
    TrimQuotesCounts(v, EQUALS);
    match IndexFrom(v, QUOTE, 1)
    case None =>
    case Some(end) =>
      PartCounts(v, 1, end, EQUALS);
      PartCounts(v, end + 1, |v|, EQUALS);
      assert v[end + 1..|v|] == v[end + 1..];
      TrimCounts(v[end + 1..], EQUALS);
  }

  lemma WordCounts(v: Bytes)
    ensures match BlankFrom(v, 0)
            case None => true
            case Some(sp) =>
              CountByte(v[..sp], EQUALS) <= CountByte(v, EQUALS) && CountByte(v[sp..], EQUALS) <= CountByte(v, EQUALS)
  {
    hide CountByte;
    match BlankFrom(v, 0)
    case None =>
    case Some(sp) =>
      PartCounts(v, 0, sp, EQUALS);
      PartCounts(v, sp, |v|, EQUALS);
      assert v[sp..|v|] == v[sp..];
  }

  lemma {:induction false} LaterValues(text: Bytes, out: Fields, key: Bytes)
    requires key in out
    ensures key in FieldsOf(text, out)
    ensures FieldsOf(text, out)[key] == out[key]
              || CountByte(FieldsOf(text, out)[key], EQUALS) < CountByte(text, EQUALS)
    decreases |text|
  {
    hide NextPair, CountByte;
    PairCounts(text);
    match NextPair(text)
    case End =>
    case Last(k, value) =>
    case More(k, value, rest) => LaterValues(rest, out[k := value], key);
  }

  /** Without quotes the value of the reason is all of the quoted text, and nothing follows it. */
  lemma QuoteFreeEnd(reason: Bytes, isPrint: Bytes -> bool)
    requires QUOTE !in reason
    ensures var w := Escaped(reason, isPrint) + [QUOTE];
            && ReasonEnd(reason, isPrint) == |Escaped(reason, isPrint)|
            && w[..ReasonEnd(reason, isPrint)] == Escaped(reason, isPrint)
            && w[ReasonEnd(reason, isPrint) + 1..] == []
  {
    hide Escaped;
    var q := Escaped(reason, isPrint);
    EscapedSize(reason, isPrint);
    assert forall k :: 0 <= k < |q| ==> (q + [QUOTE])[k] == q[k];
    FirstIs(q + [QUOTE], QUOTE, 0, |q|);
  }

  /** What follows the value of the reason has no more '=' than the reason. */
  lemma TailCounts(reason: Bytes, isPrint: Bytes -> bool)
    ensures CountByte(TrimSpace((Escaped(reason, isPrint) + [QUOTE])[ReasonEnd(reason, isPrint) + 1..]), EQUALS)
              <= CountByte(reason, EQUALS)
  {
    hide Escaped, CountByte, TrimSpace;
    var w, end := Escaped(reason, isPrint) + [QUOTE], ReasonEnd(reason, isPrint);
    EscapedSize(reason, isPrint);
    CountOfConcat(Escaped(reason, isPrint), [QUOTE], EQUALS);
    NoneCounted([QUOTE], EQUALS);
    PartCounts(w, end + 1, |w|, EQUALS);
    assert w[end + 1..|w|] == w[end + 1..];
    TrimCounts(w[end + 1..], EQUALS);
  }

  /** The reason comes back exactly if it was printed without escapes: behind it nothing can be
      read that has all the '=' of a reason with quotes. */
  lemma ReasonRead(category: Bytes, reason: Bytes, isPrint: Bytes -> bool)
    requires ValidCategory(category)
    ensures var fields := FieldsOf(PrintFields(category, reason, isPrint), map[]);
            && REASON in fields && (fields[REASON] == reason <==> Plain(reason, isPrint))
            && (Plain(reason, isPrint) ==> fields == map[CATEGORY := category, REASON := reason])
  {
    hide TrimSpace, NextPair, Escaped, CountByte, ValidCategory, PrintFields, ReasonEnd;
    var w, end := Escaped(reason, isPrint) + [QUOTE], ReasonEnd(reason, isPrint);
    FieldsOfPrinted(category, reason, isPrint);
    EscapedSize(reason, isPrint);
    KeysAreWords();
    hide Plain;
    if Plain(reason, isPrint) { PlainHasNoQuote(reason, isPrint); }
    if QUOTE in reason {
      LaterValues(TrimSpace(w[end + 1..]), map[CATEGORY := category, REASON := w[..end]], REASON);
      TailCounts(reason, isPrint);
      assert w[..end] != reason;
    } else {
      QuoteFreeEnd(reason, isPrint);
      NothingLeft(map[CATEGORY := category, REASON := w[..end]]);
    }
  }

  lemma NothingLeft(out: Fields)
    ensures FieldsOf(TrimSpace([]), out) == out
  {
    hide FieldsOf, TrimSpace;
    NothingToTrim();
    NothingToRead(out);
  }

  lemma PrintedEnds(category: Bytes, reason: Bytes, isPrint: Bytes -> bool)
    ensures SolidEnds(PrintFields(category, reason, isPrint))
              && SolidEnds(MARK + [SPACE] + PrintFields(category, reason, isPrint))
  {
    hide Escaped;
    KeysAreWords();
    MarkIsWord();
    var fields := PrintFields(category, reason, isPrint);
    assert fields[0] == CATEGORY[0] && fields[|fields| - 1] == QUOTE;
    var text := MARK + [SPACE] + fields;
    assert text[0] == MARK[0] && text[|text| - 1] == QUOTE;
  }

  lemma MarkIsWord()
    ensures Word(MARK) && Word(SLASHES)
  {
  }

  lemma PrefixGoes(prefix: Bytes, s: Bytes)
    ensures TrimPrefix(prefix + s, prefix) == s
  {
    assert (prefix + s)[..|prefix|] == prefix;
  }

  /** What the parser of doc comments makes of a printed directive. */
  lemma PrintedIsRead(category: Bytes, reason: Bytes, isPrint: Bytes -> bool)
    requires ValidCategory(category)
    ensures TrimSpace(TrimPrefix(PrintDirective(category, reason, isPrint), SLASHES))
              == MARK + [SPACE] + PrintFields(category, reason, isPrint)
    ensures TrimSpace(TrimPrefix(MARK + [SPACE] + PrintFields(category, reason, isPrint), MARK))
              == PrintFields(category, reason, isPrint)
  {
    hide TrimSpace, TrimPrefix, PrintFields, ValidCategory, SolidEnds;
    var fields := PrintFields(category, reason, isPrint);
    var text := MARK + [SPACE] + fields;
    PrintedEnds(category, reason, isPrint);
    assert PrintDirective(category, reason, isPrint) == SLASHES + text;
    PrefixGoes(SLASHES, text);
    SolidStays(text);
    assert text == MARK + ([SPACE] + fields);
    PrefixGoes(MARK, [SPACE] + fields);
    LeadingBlankGoes(fields);
  }

  lemma FieldsPrinted(category: Bytes, reason: Bytes, isPrint: Bytes -> bool)
    ensures PrintFields(category, reason, isPrint) != []
              && MARK <= MARK + [SPACE] + PrintFields(category, reason, isPrint)
  {
    var m := MARK + [SPACE] + PrintFields(category, reason, isPrint);
    assert m[..|MARK|] == MARK;
  }

  /** A printed directive, alone or behind other lines of a doc comment, is read back with its
      category and its reason exactly if the reason is printed without escapes, which is to say that it
      is valid text of printable characters without quote and backslash, and has at least 20 bytes
      within its outer white space. */
  lemma {:induction false} DirectiveRoundTrip(doc: seq<Bytes>, category: Bytes, reason: Bytes, isPrint: Bytes -> bool)
    requires ValidCategory(category)
    requires forall k :: 0 <= k < |doc| ==> !(MARK <= TrimSpace(TrimPrefix(doc[k], SLASHES)))
    ensures ParseSkipDirective(doc + [PrintDirective(category, reason, isPrint)])
              == Some(SkipDirective(category, reason))
       <==> Plain(reason, isPrint) && |TrimSpace(reason)| >= MIN_DIRECTIVE_REASON
    decreases |doc|
  {
    hide TrimSpace, FieldsOf, PrintFields, ValidCategory;
    var all := doc + [PrintDirective(category, reason, isPrint)];
    if doc == [] {
      PrintedIsRead(category, reason, isPrint);
      ReasonRead(category, reason, isPrint);
      KeysAreWords();
      FieldsPrinted(category, reason, isPrint);
    } else {
      assert all[1..] == doc[1..] + [PrintDirective(category, reason, isPrint)];
      DirectiveRoundTrip(doc[1..], category, reason, isPrint);
    }
  }
}
