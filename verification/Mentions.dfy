/** The @-mention parser (pkgs/repo/mentions.go, mentions_paren.go) and the printed form of a
    mention (pkgs/repo/root.go). */
module Mentions {
  import opened Wrappers
  import opened GoText

  datatype Mention = Mention(path: Bytes, startLine: int, endLine: int, hasRange: bool, rawStart: nat, rawEnd: nat)

  predicate IsMentionDelimiter(c: byte) {
    c == SPACE || c == TAB || c == NEWLINE || c == RETURN || c == AT
  }

  // ----- the grammar, as recursive functions -----

  function ParseMentionLineRangeInner(inner: Bytes): Option<(int, int)> {
    match IndexFrom(inner, DASH, 0)
    case None => None
    case Some(dash) =>
      var a := Atoi(TrimSpace(inner[..dash]));
      var b := Atoi(TrimSpace(inner[dash + 1..]));
      if a.None? || b.None? then None else Some((a.value, b.value))
  }

  /** What a parenthesis means: a part of the path, a range that ends the mention, or a range
      without a path, after which the search goes on behind the '@'. */
  datatype Paren = PathByte | Range(mention: Mention) | NoPath

  function HandleMentionOpenParen(s: Bytes, i: nat, pathStart: nat, rawStart: nat): (p: Paren)
    requires rawStart < pathStart <= i < |s|
    ensures p.Range? ==> i < p.mention.rawEnd <= |s| && p.mention.rawStart == rawStart && p.mention.hasRange
  {
    match IndexFrom(s, CLOSE_PAREN, i)
    case None => PathByte
    case Some(close) =>
      if close == i then PathByte
      else
        match ParseMentionLineRangeInner(TrimSpace(s[i + 1..close]))
        case None => PathByte
        case Some(lines) =>
          if close + 1 < |s| && !IsMentionDelimiter(s[close + 1]) then PathByte
          else
            var path := TrimSpace(s[pathStart..i]);
            if path == [] then NoPath
            else Range(Mention(path, lines.0, lines.1, true, rawStart, close + 1))
  }

  /** Where the scan of one token stops: at the end of a plain path, behind a range, or nowhere. */
  datatype Token = Plain(end: nat) | Ranged(mention: Mention) | Restart

  function ScanToken(s: Bytes, i: nat, pathStart: nat, rawStart: nat): (t: Token)
    requires rawStart < pathStart <= i <= |s|
    ensures t.Plain? ==> i <= t.end <= |s|
    ensures t.Ranged? ==> i < t.mention.rawEnd <= |s| && t.mention.rawStart == rawStart
    decreases |s| - i
  {
    if i == |s| then Plain(i)
    else if s[i] == OPEN_PAREN then
      match HandleMentionOpenParen(s, i, pathStart, rawStart)
      case PathByte => ScanToken(s, i + 1, pathStart, rawStart)
      case Range(m) => Ranged(m)
      case NoPath => Restart
    else if IsMentionDelimiter(s[i]) then Plain(i)
    else ScanToken(s, i + 1, pathStart, rawStart)
  }

  function PlainMention(s: Bytes, rawStart: nat, end: nat): seq<Mention>
    requires rawStart < end <= |s|
  {
    var path := TrimSpace(s[rawStart + 1..end]);
    if path == [] then [] else [Mention(path, 0, 0, false, rawStart, end)]
  }

  /** The mentions of `s` from position `i` on. */
  function MentionsFrom(s: Bytes, i: nat): seq<Mention>
    requires i <= |s|
    decreases |s| - i, 1
  {
    match IndexFrom(s, AT, i)
    case None => []
    case Some(at) => MentionsBehind(s, at, ScanToken(s, at + 1, at + 1, at))
  }

  /** The mentions from the '@' at `at` on, whose token is `t`. */
  function MentionsBehind(s: Bytes, at: nat, t: Token): seq<Mention>
    requires at < |s| && (t.Plain? ==> at < t.end <= |s|) && (t.Ranged? ==> at < t.mention.rawEnd <= |s|)
    decreases |s| - at, 0
  {
    match t
    case Plain(end) => PlainMention(s, at, end) + MentionsFrom(s, end)
    case Ranged(m) => [m] + MentionsFrom(s, m.rawEnd)
    case Restart => MentionsFrom(s, at + 1)
  }

  // ----- the parser -----

  method ParseFileMentions(s: Bytes) returns (out: seq<Mention>)
    ensures out == MentionsFrom(s, 0)
  {
    hide HandleMentionOpenParen, TrimSpace, MentionsFrom, MentionsBehind, ScanToken, PlainMention;
    out := [];
    var i := 0;
    label outer:
    while i < |s|
      invariant 0 <= i <= |s|
      invariant MentionsFrom(s, 0) == out + MentionsFrom(s, i)
      decreases |s| - i
    {
      MentionsStep(s, i);
      var j := IndexFrom(s, AT, i);
      if j.None? {
        return;
      }
      i := j.value;
      var rawStart := i;
      i := i + 1;
      var pathStart := i;
      while i < |s|
        invariant pathStart <= i <= |s|
        invariant ScanToken(s, pathStart, pathStart, rawStart) == ScanToken(s, i, pathStart, rawStart)
      {
        ScanStep(s, i, pathStart, rawStart);
        var c := s[i];
        if c == OPEN_PAREN {
          match HandleMentionOpenParen(s, i, pathStart, rawStart)
          case NoPath =>
            BehindToken(s, rawStart, Restart, out);
            i := rawStart + 1;
            continue outer;
          case Range(mention) =>
            BehindToken(s, rawStart, Ranged(mention), out);
            out := out + [mention];
            i := mention.rawEnd;
            continue outer;
          case PathByte =>
            i := i + 1;
            continue;
        }
        if IsMentionDelimiter(c) {
          break;
        }
        i := i + 1;
      }
      ScanEnds(s, rawStart, i);
      BehindToken(s, rawStart, Plain(i), out);
      PlainMentionIs(s, rawStart, i);
      var path := TrimSpace(s[pathStart..i]);
      if path != [] {
        out := out + [Mention(path, 0, 0, false, rawStart, i)];
      }
    }
    MentionsStep(s, |s|);
  }

  lemma ScanStep(s: Bytes, i: nat, pathStart: nat, rawStart: nat)
    requires rawStart < pathStart <= i < |s|
    ensures ScanToken(s, i, pathStart, rawStart) ==
            if s[i] == OPEN_PAREN then
              match HandleMentionOpenParen(s, i, pathStart, rawStart)
              case PathByte => ScanToken(s, i + 1, pathStart, rawStart)
              case Range(m) => Ranged(m)
              case NoPath => Restart
            else if IsMentionDelimiter(s[i]) then Plain(i)
            else ScanToken(s, i + 1, pathStart, rawStart)
  {
  }

  lemma ScanEnds(s: Bytes, at: nat, end: nat)
    requires at < end <= |s| && (end < |s| ==> IsMentionDelimiter(s[end]))
    ensures ScanToken(s, end, at + 1, at) == Plain(end)
  {
  }

  lemma PlainMentionIs(s: Bytes, rawStart: nat, end: nat)
    requires rawStart < end <= |s|
    ensures var path := TrimSpace(s[rawStart + 1..end]);
            PlainMention(s, rawStart, end) == if path == [] then [] else [Mention(path, 0, 0, false, rawStart, end)]
  {
    hide TrimSpace;
  }

  /** What a token adds to the mentions found in front of it. */
  lemma BehindToken(s: Bytes, at: nat, t: Token, out: seq<Mention>)
    requires at < |s| && (t.Plain? ==> at < t.end <= |s|) && (t.Ranged? ==> at < t.mention.rawEnd <= |s|)
    ensures t.Plain? ==> out + MentionsBehind(s, at, t) == (out + PlainMention(s, at, t.end)) + MentionsFrom(s, t.end)
    ensures t.Ranged? ==> out + MentionsBehind(s, at, t) == (out + [t.mention]) + MentionsFrom(s, t.mention.rawEnd)
    ensures t.Restart? ==> MentionsBehind(s, at, t) == MentionsFrom(s, at + 1)
  {
    hide MentionsFrom, PlainMention;
  }

  lemma MentionsStep(s: Bytes, i: nat)
    requires i <= |s|
    ensures MentionsFrom(s, i) ==
            match IndexFrom(s, AT, i)
            case None => []
            case Some(at) => MentionsBehind(s, at, ScanToken(s, at + 1, at + 1, at))
  {
  }

  // ----- spans -----

  /** The spans of `ms` lie within `s` behind `i`, in order and apart, and each starts at an '@'. */
  ghost predicate SpansOk(s: Bytes, i: nat, ms: seq<Mention>) {
    && (forall k :: 0 <= k < |ms| ==>
         i <= ms[k].rawStart < ms[k].rawEnd <= |s| && s[ms[k].rawStart] == AT && ms[k].path != [])
    && (forall j, k :: 0 <= j < k < |ms| ==> ms[j].rawEnd <= ms[k].rawStart)
  }

  lemma {:induction false} SpansAreOk(s: Bytes, i: nat)
    requires i <= |s|
    ensures SpansOk(s, i, MentionsFrom(s, i))
    decreases |s| - i
  {
    hide HandleMentionOpenParen, TrimSpace, ScanToken, IndexFrom;
    match IndexFrom(s, AT, i)
    case None =>
    case Some(at) =>
      match ScanToken(s, at + 1, at + 1, at)
      case Plain(end) => SpansAreOk(s, end);
      case Ranged(m) => SpansAreOk(s, m.rawEnd); RangedHasPath(s, at + 1, at + 1, at);
      case Restart => SpansAreOk(s, at + 1);
  }

  lemma {:induction false} RangedHasPath(s: Bytes, i: nat, pathStart: nat, rawStart: nat)
    requires rawStart < pathStart <= i <= |s|
    ensures var t := ScanToken(s, i, pathStart, rawStart); t.Ranged? ==> t.mention.path != []
    decreases |s| - i
  {
    if i < |s| {
      RangedHasPath(s, i + 1, pathStart, rawStart);
    }
  }

  // ----- printing and parsing back -----

  /** What a mention says, without where it stands. */
  datatype Ref = Ref(path: Bytes, startLine: int, endLine: int, hasRange: bool)

  function RefOf(m: Mention): Ref {
    Ref(m.path, m.startLine, m.endLine, m.hasRange)
  }

  /** A path that one token can hold, with a '(' or without, and lines of 64 bits. */
  predicate Clean(r: Ref) {
    && r.path != [] && Trimmed(r.path) && (forall k :: 0 <= k < |r.path| ==> !IsMentionDelimiter(r.path[k]))
    && IsInt64(r.startLine) && IsInt64(r.endLine) && (!r.hasRange ==> r.startLine == 0 == r.endLine)
  }

  predicate Printable(r: Ref) {
    Clean(r) && OPEN_PAREN !in r.path
  }

  function RangeText(r: Ref): Bytes {
    [OPEN_PAREN] + Itoa(r.startLine) + [DASH] + Itoa(r.endLine) + [CLOSE_PAREN]
  }

  /** mentionLabel, behind its leading word. */
  function Label(r: Ref): Bytes {
    if r.hasRange then [AT] + r.path + RangeText(r) else [AT] + r.path
  }

  /** Text between mentions: free of '@', and set off from the mention in front of it. */
  predicate Gap(text: Bytes, behindMention: bool) {
    AT !in text && (behindMention && text != [] ==> IsMentionDelimiter(text[0]))
  }

  /** Mentions with the text in front of each of them. */
  type Items = seq<(Bytes, Ref)>

  function Render(items: Items, tail: Bytes): Bytes {
    if items == [] then tail else items[0].0 + Label(items[0].1) + Render(items[1..], tail)
  }

  predicate Gapped(items: Items, tail: Bytes, behindMention: bool) {
    if items == [] then Gap(tail, behindMention)
    else Gap(items[0].0, behindMention) && Gapped(items[1..], tail, true)
  }

  /** What a printed mention reads back as: a range from a negative line is taken into the path,
      because the first '-' ends the start line. */
  function ReadBack(r: Ref): Ref {
    if r.hasRange && r.startLine < 0 then Ref(r.path + RangeText(r), 0, 0, false) else r
  }

  lemma {:induction false} SkipPath(s: Bytes, i: nat, end: nat, pathStart: nat, rawStart: nat)
    requires rawStart < pathStart <= i <= end <= |s|
    requires forall k :: i <= k < end ==> s[k] != OPEN_PAREN && !IsMentionDelimiter(s[k])
    ensures ScanToken(s, i, pathStart, rawStart) == ScanToken(s, end, pathStart, rawStart)
    decreases end - i
  {
    hide HandleMentionOpenParen;
    if i < end {
      SkipPath(s, i + 1, end, pathStart, rawStart);
    }
  }

  lemma EmptyIsNoNumber()
    ensures Atoi(TrimSpace([])) == None
  {
  }

  lemma TrimmedNumber(n: int)
    requires IsInt64(n)
    ensures Atoi(TrimSpace(Itoa(n))) == Some(n)
  {
    hide Atoi, Itoa;
    ItoaEnds(n);
    TrimmedByEnds(Itoa(n));
    TrimmedStays(Itoa(n));
    AtoiOfItoa(n);
  }

  /** The text between the parentheses parses to the two lines unless it starts with a '-'. */
  lemma InnerReadsBack(start: int, end: int)
    requires IsInt64(start) && IsInt64(end)
    ensures var inner := Itoa(start) + [DASH] + Itoa(end);
            && TrimSpace(inner) == inner
            && ParseMentionLineRangeInner(inner) == if start < 0 then None else Some((start, end))
  {
    hide TrimSpace, Atoi, Itoa, Trimmed;
    var a, b := Itoa(start), Itoa(end);
    var inner := a + [DASH] + b;
    ItoaEnds(start);
    ItoaEnds(end);
    TrimmedByEnds(inner);
    TrimmedStays(inner);
    if start < 0 {
      assert inner[0] == a[0] == DASH;
      FirstIs(inner, DASH, 0, 0);
      assert inner[..0] == [];
      EmptyIsNoNumber();
    } else {
      assert forall k :: 0 <= k < |a| ==> inner[k] == a[k] && IsDigit(a[k]);
      FirstIs(inner, DASH, 0, |a|);
      assert inner[..|a|] == a && inner[|a| + 1..] == b;
      TrimmedNumber(start);
      TrimmedNumber(end);
    }
  }

  lemma NumberBytes(n: int, k: nat)
    requires k < |Itoa(n)|
    ensures Itoa(n)[k] == DASH || IsDigit(Itoa(n)[k])
  {
  }

  /** Within "(a-b)" there is one '(' at the start, one ')' at the end, and no delimiter. */
  lemma RangeTextBytes(r: Ref, k: nat)
    requires 0 < k < |RangeText(r)|
    ensures RangeText(r)[k] != OPEN_PAREN && !IsMentionDelimiter(RangeText(r)[k])
    ensures RangeText(r)[k] == CLOSE_PAREN <==> k == |RangeText(r)| - 1
  {
    hide Itoa;
    var a, b := |Itoa(r.startLine)|, |Itoa(r.endLine)|;
    if k <= a {
      NumberBytes(r.startLine, k - 1);
    } else if a + 1 < k < a + b + 2 {
      NumberBytes(r.endLine, k - a - 2);
    }
  }

  lemma ScanRange(s: Bytes, open: nat, r: Ref, pathStart: nat, rawStart: nat)
    requires rawStart < pathStart < open && open + |RangeText(r)| <= |s| && Clean(r)
    requires s[pathStart..open] == r.path && s[open..open + |RangeText(r)|] == RangeText(r)
    requires open + |RangeText(r)| < |s| ==> IsMentionDelimiter(s[open + |RangeText(r)|])
    ensures HandleMentionOpenParen(s, open, pathStart, rawStart)
         == if r.startLine < 0 then PathByte
            else Range(Mention(r.path, r.startLine, r.endLine, true, rawStart, open + |RangeText(r)|))
  {
    hide TrimSpace, Atoi, Itoa, Trimmed, ParseMentionLineRangeInner;
    var t := RangeText(r);
    var close := open + |t| - 1;
    forall j | open <= j <= close ensures s[j] == CLOSE_PAREN <==> j == close {
      assert s[j] == s[open..open + |t|][j - open];
      if j > open { RangeTextBytes(r, j - open); }
    }
    FirstIs(s, CLOSE_PAREN, open, close);
    var inner := Itoa(r.startLine) + [DASH] + Itoa(r.endLine);
    assert t == [OPEN_PAREN] + inner + [CLOSE_PAREN];
    forall k | 0 <= k < |inner| ensures s[open + 1 + k] == inner[k] {
      assert s[open + 1 + k] == s[open..open + |t|][1 + k] == t[1 + k];
    }
    assert s[open + 1..close] == inner;
    InnerReadsBack(r.startLine, r.endLine);
    TrimmedStays(r.path);
  }

  lemma ScanPath(s: Bytes, at: nat, path: Bytes)
    requires at + 1 + |path| <= |s| && s[at + 1..at + 1 + |path|] == path
    requires forall k :: 0 <= k < |path| ==> path[k] != OPEN_PAREN && !IsMentionDelimiter(path[k])
    ensures ScanToken(s, at + 1, at + 1, at) == ScanToken(s, at + 1 + |path|, at + 1, at)
  {
    hide HandleMentionOpenParen, ScanToken, Trimmed;
    var ps := at + 1;
    forall k | ps <= k < ps + |path| ensures s[k] == path[k - ps] {
      assert s[k] == s[ps..ps + |path|][k - ps];
    }
    SkipPath(s, ps, ps + |path|, ps, at);
  }

  lemma ScanRangeText(s: Bytes, at: nat, open: nat, r: Ref)
    requires at + 1 < open && open + |RangeText(r)| <= |s| && Clean(r)
    requires s[at + 1..open] == r.path && s[open..open + |RangeText(r)|] == RangeText(r)
    requires open + |RangeText(r)| < |s| ==> IsMentionDelimiter(s[open + |RangeText(r)|])
    ensures var end := open + |RangeText(r)|;
            ScanToken(s, open, at + 1, at)
            == if r.startLine < 0 then Plain(end) else Ranged(Mention(r.path, r.startLine, r.endLine, true, at, end))
  {
    hide HandleMentionOpenParen, Itoa, Clean;
    var end := open + |RangeText(r)|;
    ScanRange(s, open, r, at + 1, at);
    assert s[open] == s[open..end][0] == OPEN_PAREN;
    if r.startLine < 0 {
      forall k | open < k < end ensures s[k] != OPEN_PAREN && !IsMentionDelimiter(s[k]) {
        assert s[k] == s[open..end][k - open];
        RangeTextBytes(r, k - open);
      }
      SkipPath(s, open + 1, end, at + 1, at);
    }
  }

  lemma LabelParts(s: Bytes, at: nat, r: Ref)
    requires at + |Label(r)| <= |s| && s[at..at + |Label(r)|] == Label(r)
    ensures var open, end := at + 1 + |r.path|, at + |Label(r)|;
            && s[at] == AT && s[at + 1..open] == r.path
            && s[at + 1..end] == (if r.hasRange then r.path + RangeText(r) else r.path)
            && (r.hasRange ==> end == open + |RangeText(r)| && s[open..end] == RangeText(r))
  {
    hide RangeText;
    var open, end := at + 1 + |r.path|, at + |Label(r)|;
    var w := s[at..end];
    assert s[at] == w[0];
    assert s[at + 1..open] == w[1..open - at];
    assert s[at + 1..end] == w[1..];
    assert s[open..end] == w[open - at..];
  }

  /** One printed mention, wherever it stands: it is read back whole, and the search goes on
      right behind it. */
  lemma TokenReadsBack(s: Bytes, at: nat, r: Ref)
    requires at + |Label(r)| <= |s| && s[at..at + |Label(r)|] == Label(r) && Printable(r)
    requires at + |Label(r)| < |s| ==> IsMentionDelimiter(s[at + |Label(r)|])
    ensures var end, back := at + |Label(r)|, ReadBack(r);
            MentionsBehind(s, at, ScanToken(s, at + 1, at + 1, at))
            == [Mention(back.path, back.startLine, back.endLine, back.hasRange, at, end)] + MentionsFrom(s, end)
  {
    hide TrimSpace, ScanToken, RangeText, MentionsFrom, IsMentionDelimiter, Trimmed, IsInt64;
    LabelParts(s, at, r);
    ScanPath(s, at, r.path);
    if !r.hasRange {
      ScanEnds(s, at, at + 1 + |r.path|);
    } else {
      ScanRangeText(s, at, at + 1 + |r.path|, r);
    }
    BackTrimmed(r);
  }

  lemma BackTrimmed(r: Ref)
    requires Printable(r)
    ensures ReadBack(r).path != [] && TrimSpace(ReadBack(r).path) == ReadBack(r).path
  {
    hide Itoa;
    if r.hasRange && r.startLine < 0 {
      var p := r.path + RangeText(r);
      assert SpaceAtEnd(p) == 0;
      PathStartsSame(r.path, RangeText(r));
      TrimmedStays(p);
    } else {
      TrimmedStays(r.path);
    }
  }

  /** Text that does not start with white space still does not when text with '(' follows. */
  lemma PathStartsSame(path: Bytes, more: Bytes)
    requires path != [] && SpaceAtStart(path) == 0 && more != [] && more[0] < 0x80
    ensures SpaceAtStart(path + more) == 0
  {
  }

  lemma RenderStartsDelimited(items: Items, tail: Bytes)
    requires Gapped(items, tail, true) && Render(items, tail) != []
    ensures IsMentionDelimiter(Render(items, tail)[0])
  {
    if items != [] && items[0].0 == [] {
      assert Render(items, tail)[0] == Label(items[0].1)[0] == AT;
    }
  }

  lemma ItemParts(items: Items, tail: Bytes, behindMention: bool)
    requires Gapped(items, tail, behindMention) && items != []
    ensures Render(items, tail) == items[0].0 + Label(items[0].1) + Render(items[1..], tail)
    ensures AT !in items[0].0 && Label(items[0].1) != [] && Label(items[0].1)[0] == AT
    ensures Gapped(items[1..], tail, true)
  {
    hide RangeText;
  }

  /** The first mention found in rendered text is the first item's. */
  lemma FirstItemFound(s: Bytes, i: nat, items: Items, tail: Bytes, behindMention: bool)
    requires i <= |s| && s[i..] == Render(items, tail) && Gapped(items, tail, behindMention) && items != []
    ensures var at, end := i + |items[0].0|, i + |items[0].0| + |Label(items[0].1)|;
            && end <= |s| && IndexFrom(s, AT, i) == Some(at)
            && s[at..end] == Label(items[0].1) && s[end..] == Render(items[1..], tail)
            && (end < |s| ==> IsMentionDelimiter(s[end]))
  {
    hide Label, Render, Gapped, IsMentionDelimiter;
    ItemParts(items, tail, behindMention);
    var gap, token, rest := items[0].0, Label(items[0].1), Render(items[1..], tail);
    var at, end := i + |gap|, i + |gap| + |token|;
    ThreeParts(s, i, gap, token, rest);
    assert s[at] == token[0] == AT;
    FirstIs(s, AT, i, at);
    if end < |s| {
      RenderStartsDelimited(items[1..], tail);
      assert s[end] == s[end..][0];
    }
  }

  lemma ThreeParts(s: Bytes, i: nat, a: Bytes, b: Bytes, c: Bytes)
    requires i <= |s| && s[i..] == a + b + c
    ensures var at, end := i + |a|, i + |a| + |b|;
            && end <= |s| && s[at..end] == b && s[end..] == c
            && (forall k :: i <= k < at ==> s[k] == a[k - i]) && (b != [] ==> s[at] == b[0])
  {
    var w := s[i..];
    assert s[i + |a|..i + |a| + |b|] == w[|a|..|a| + |b|] == b;
    assert s[i + |a| + |b|..] == w[|a| + |b|..] == c;
    assert forall k :: i <= k < i + |a| ==> s[k] == w[k - i];
  }

  /** `m` says what the printed `r` reads back as, and its span is the printed text. */
  ghost predicate ReadsBackAs(s: Bytes, m: Mention, r: Ref) {
    RefOf(m) == ReadBack(r) && m.rawStart <= m.rawEnd <= |s| && s[m.rawStart..m.rawEnd] == Label(r)
  }

  lemma FirstReadBack(s: Bytes, i: nat, items: Items, tail: Bytes, behindMention: bool) returns (m: Mention, end: nat)
    requires i <= |s| && s[i..] == Render(items, tail) && Gapped(items, tail, behindMention) && items != []
    requires Printable(items[0].1)
    ensures end <= |s| && s[end..] == Render(items[1..], tail) && Gapped(items[1..], tail, true)
    ensures MentionsFrom(s, i) == [m] + MentionsFrom(s, end) && ReadsBackAs(s, m, items[0].1)
  {
    hide MentionsFrom, MentionsBehind, ScanToken, ReadBack, Printable, Label, IsMentionDelimiter, Render, Gapped;
    var at := i + |items[0].0|;
    end := at + |Label(items[0].1)|;
    ItemParts(items, tail, behindMention);
    FirstItemFound(s, i, items, tail, behindMention);
    TokenReadsBack(s, at, items[0].1);
    MentionsStep(s, i);
    var back := ReadBack(items[0].1);
    m := Mention(back.path, back.startLine, back.endLine, back.hasRange, at, end);
  }

  lemma NoMentionInTail(s: Bytes, i: nat)
    requires i <= |s| && AT !in s[i..]
    ensures MentionsFrom(s, i) == []
  {
    assert forall k :: i <= k < |s| ==> s[k] == s[i..][k - i];
  }

  /** Mentions printed into any text are parsed back in order, each with its own span. */
  lemma {:induction false} PrintedMentionsReadBack(s: Bytes, i: nat, items: Items, tail: Bytes, behindMention: bool)
    requires i <= |s| && s[i..] == Render(items, tail) && Gapped(items, tail, behindMention)
    requires forall k :: 0 <= k < |items| ==> Printable(items[k].1)
    ensures |MentionsFrom(s, i)| == |items|
    ensures forall k :: 0 <= k < |items| ==> ReadsBackAs(s, MentionsFrom(s, i)[k], items[k].1)
    decreases |items|
  {
    if items == [] {
      NoMentionInTail(s, i);
    } else {
      hide MentionsFrom, ReadsBackAs, Render, Gapped, Printable;
      assert Printable(items[0].1);
      var m, end := FirstReadBack(s, i, items, tail, behindMention);
      PrintedMentionsReadBack(s, end, items[1..], tail, true);
    }
  }

  function Refs(ms: seq<Mention>): seq<Ref> {
    seq(|ms|, k requires 0 <= k < |ms| => RefOf(ms[k]))
  }

  function PrintedRefs(items: Items): seq<Ref> {
    seq(|items|, k requires 0 <= k < |items| => items[k].1)
  }
}
