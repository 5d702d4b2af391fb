/** What the mention parser yields, and when mentions printed into a text are parsed back
    (pkgs/repo/mentions.go, mentions_paren.go, mentionLabel in pkgs/repo/root.go). */
module MentionRoundTrips {
  import opened GoText
  import opened Mentions
  import opened Wrappers

  // ----- what the parser yields -----

  /** What every parsed mention is like: a start line is never negative, for the first '-' ends it. */
  predicate Parsed(r: Ref) {
    Clean(r) && (r.hasRange ==> r.startLine >= 0)
  }

  lemma AtoiInRange(s: Bytes)
    ensures Atoi(s).Some? ==> IsInt64(Atoi(s).value) && (DASH !in s ==> Atoi(s).value >= 0)
  {
  }

  lemma LinesAreInRange(inner: Bytes)
    ensures var lines := ParseMentionLineRangeInner(inner);
            lines.Some? ==> 0 <= lines.value.0 && IsInt64(lines.value.0) && IsInt64(lines.value.1)
  {
    hide Atoi, TrimSpace, IsInt64;
    match IndexFrom(inner, DASH, 0)
    case None =>
    case Some(dash) =>
      var a, b := inner[..dash], inner[dash + 1..];
      TrimSpaceIsPart(a);
      AtoiInRange(TrimSpace(a));
      AtoiInRange(TrimSpace(b));
  }

  /** No delimiter has been scanned since the path began. */
  predicate CleanTo(s: Bytes, pathStart: nat, i: nat)
    requires pathStart <= i <= |s|
  {
    forall k :: pathStart <= k < i ==> !IsMentionDelimiter(s[k])
  }

  lemma CleanPath(s: Bytes, pathStart: nat, i: nat)
    requires pathStart <= i <= |s| && CleanTo(s, pathStart, i)
    ensures var path := TrimSpace(s[pathStart..i]);
            Trimmed(path) && forall k :: 0 <= k < |path| ==> !IsMentionDelimiter(path[k])
  {
    hide TrimSpace, Trimmed;
    var raw := s[pathStart..i];
    TrimSpaceTrims(raw);
    TrimSpaceIsPart(raw);
    forall b | b in raw ensures !IsMentionDelimiter(b) {
      var k :| 0 <= k < |raw| && raw[k] == b;
      assert raw[k] == s[pathStart + k];
    }
  }

  lemma RangeIsParsed(s: Bytes, i: nat, pathStart: nat, rawStart: nat)
    requires rawStart < pathStart <= i < |s| && CleanTo(s, pathStart, i)
    ensures var p := HandleMentionOpenParen(s, i, pathStart, rawStart); p.Range? ==> Parsed(RefOf(p.mention))
  {
    hide TrimSpace, ParseMentionLineRangeInner, IsInt64, Trimmed;
    CleanPath(s, pathStart, i);
    match IndexFrom(s, CLOSE_PAREN, i)
    case None =>
    case Some(close) => if close > i { LinesAreInRange(TrimSpace(s[i + 1..close])); }
  }

  lemma {:induction false} TokenIsParsed(s: Bytes, i: nat, pathStart: nat, rawStart: nat)
    requires rawStart < pathStart <= i <= |s| && CleanTo(s, pathStart, i)
    ensures var t := ScanToken(s, i, pathStart, rawStart);
            && (t.Plain? ==> CleanTo(s, pathStart, t.end))
            && (t.Ranged? ==> Parsed(RefOf(t.mention)))
    decreases |s| - i
  {
    hide HandleMentionOpenParen, Parsed, ScanToken;
    if i < |s| {
      ScanStep(s, i, pathStart, rawStart);
      if s[i] == OPEN_PAREN { RangeIsParsed(s, i, pathStart, rawStart); }
      if s[i] == OPEN_PAREN || !IsMentionDelimiter(s[i]) { TokenIsParsed(s, i + 1, pathStart, rawStart); }
    } else {
      ScanEnds(s, rawStart, i);
    }
  }

  lemma {:induction false} ParsedAreParsed(s: Bytes, i: nat)
    requires i <= |s|
    ensures forall k :: 0 <= k < |MentionsFrom(s, i)| ==> Parsed(RefOf(MentionsFrom(s, i)[k]))
    decreases |s| - i
  {
    hide ScanToken, IndexFrom, TrimSpace;
    MentionsStep(s, i);
    match IndexFrom(s, AT, i)
    case None =>
    case Some(at) =>
      TokenIsParsed(s, at + 1, at + 1, at);
      match ScanToken(s, at + 1, at + 1, at)
      case Plain(end) => ParsedAreParsed(s, end); CleanPath(s, at + 1, end);
      case Ranged(m) => ParsedAreParsed(s, m.rawEnd);
      case Restart => ParsedAreParsed(s, at + 1);
  }

  // ----- parentheses that end a mention -----

  /** Whether the '(' at `k` opens a range: the first ')' behind it closes one and stands in front of a
      delimiter or at the end of the text. */
  predicate Opens(s: Bytes, k: nat)
    requires k < |s|
  {
    match IndexFrom(s, CLOSE_PAREN, k)
    case None => false
    case Some(close) =>
      && close > k && ParseMentionLineRangeInner(TrimSpace(s[k + 1..close])).Some?
      && (close + 1 < |s| ==> IsMentionDelimiter(s[close + 1]))
  }

  lemma PathByteExactly(s: Bytes, k: nat, pathStart: nat, rawStart: nat)
    requires rawStart < pathStart <= k < |s|
    ensures HandleMentionOpenParen(s, k, pathStart, rawStart).PathByte? <==> !Opens(s, k)
  {
    hide TrimSpace, ParseMentionLineRangeInner, IsMentionDelimiter;
  }

  /** Whether a '(' between the two positions opens a range. */
  predicate OpensRange(s: Bytes, from: nat, to: nat)
    requires to <= |s|
  {
    exists k :: from <= k < to && s[k] == OPEN_PAREN && Opens(s, k)
  }

  /** Without delimiters in between, the scan gets to `end` exactly if no '(' on its way opens a range. */
  lemma {:induction false} ScanOpens(s: Bytes, i: nat, end: nat, at: nat)
    requires at < i <= end <= |s| && forall k :: i <= k < end ==> !IsMentionDelimiter(s[k])
    ensures var t := ScanToken(s, i, at + 1, at);
            if OpensRange(s, i, end) then t.Restart? || (t.Ranged? && t.mention.hasRange)
            else t == ScanToken(s, end, at + 1, at)
    decreases end - i
  {
    hide HandleMentionOpenParen, Opens, IsMentionDelimiter, ScanToken;
    if i < end {
      ScanOpens(s, i + 1, end, at);
      ScanStep(s, i, at + 1, at);
      if s[i] == OPEN_PAREN { PathByteExactly(s, i, at + 1, at); }
    }
  }

  lemma ParenIsNoRange(inner: Bytes)
    requires OPEN_PAREN in inner
    ensures ParseMentionLineRangeInner(TrimSpace(inner)) == None
  {
    hide TrimSpace, Atoi;
    TrimSpaceKeeps(inner, OPEN_PAREN);
    var t := TrimSpace(inner);
    match IndexFrom(t, DASH, 0)
    case None =>
    case Some(dash) =>
      var k :| 0 <= k < |t| && t[k] == OPEN_PAREN;
      if k < dash {
        assert t[..dash][k] == OPEN_PAREN;
        TrimSpaceKeeps(t[..dash], OPEN_PAREN);
        NoNumberWith(TrimSpace(t[..dash]), OPEN_PAREN);
      } else {
        assert t[dash + 1..][k - dash - 1] == OPEN_PAREN;
        TrimSpaceKeeps(t[dash + 1..], OPEN_PAREN);
        NoNumberWith(TrimSpace(t[dash + 1..]), OPEN_PAREN);
      }
  }

  /** In front of a printed range no '(' of the path opens one: its ')' is followed by a byte of the
      token, or closes the printed range, whose '(' then stands between the two. */
  lemma InsidePath(s: Bytes, k: nat, open: nat, r: Ref)
    requires k < open && open + |RangeText(r)| <= |s| && s[open..open + |RangeText(r)|] == RangeText(r)
    requires forall j :: k <= j < open ==> !IsMentionDelimiter(s[j])
    requires s[k] == OPEN_PAREN
    ensures !Opens(s, k)
  {
    hide TrimSpace, ParseMentionLineRangeInner, Itoa;
    var last := open + |RangeText(r)| - 1;
    forall j | open <= j <= last ensures s[j] == CLOSE_PAREN <==> j == last {
      assert s[j] == s[open..last + 1][j - open];
      if j > open { RangeTextBytes(r, j - open); }
    }
    assert s[open] == s[open..last + 1][0] == OPEN_PAREN;
    match IndexFrom(s, CLOSE_PAREN, k)
    case None =>
    case Some(close) =>
      if close > open {
        assert s[k + 1..close][open - k - 1] == OPEN_PAREN;
        ParenIsNoRange(s[k + 1..close]);
      }
  }

  lemma LabelSize(r: Ref)
    ensures |Label(r)| == 1 + |r.path| + if r.hasRange then |RangeText(r)| else 0
  {
    hide RangeText;
  }

  /** What a printed mention is read as: one with a range always as itself, whatever its path, unless its
      start line is negative; one without exactly if no '(' of its path opens a range. */
  lemma TokenExactly(s: Bytes, at: nat, r: Ref)
    requires at + |Label(r)| <= |s| && s[at..at + |Label(r)|] == Label(r) && Clean(r)
    requires at + |Label(r)| < |s| ==> IsMentionDelimiter(s[at + |Label(r)|])
    ensures var end, t := at + |Label(r)|, ScanToken(s, at + 1, at + 1, at);
            if r.hasRange then
              r.startLine >= 0 ==> t == Ranged(Mention(r.path, r.startLine, r.endLine, true, at, end))
            else if OpensRange(s, at + 1, end) then t.Restart? || (t.Ranged? && t.mention.hasRange)
            else t == Plain(end)
  {
    hide RangeText, ScanToken, Trimmed, IsInt64, IsMentionDelimiter, Opens, Label;
    LabelParts(s, at, r);
    var open := at + 1 + |r.path|;
    LabelSize(r);
    forall k | at + 1 <= k < open ensures !IsMentionDelimiter(s[k]) {
      assert s[k] == s[at + 1..open][k - at - 1];
    }
    ScanOpens(s, at + 1, open, at);
    if r.hasRange {
      forall k | at + 1 <= k < open && s[k] == OPEN_PAREN ensures !Opens(s, k) {
        InsidePath(s, k, open, r);
      }
      ScanRangeText(s, at, open, r);
    } else {
      ScanEnds(s, at, open);
    }
  }

  // ----- the round trip -----

  /** Whether a mention printed at [at, end) of `s` is read back as it is. */
  predicate ReadsBack(s: Bytes, at: nat, end: nat, r: Ref)
    requires end <= |s|
  {
    if r.hasRange then r.startLine >= 0 else !OpensRange(s, at + 1, end)
  }

  lemma RestIs(s: Bytes, i: nat, items: Items, tail: Bytes)
    requires i <= |s| && s[i..] == Render(items, tail) && items != []
    ensures var end := i + |items[0].0| + |Label(items[0].1)|;
            end <= |s| && s[end..] == Render(items[1..], tail)
  {
    hide Label;
    ThreeParts(s, i, items[0].0, Label(items[0].1), Render(items[1..], tail));
  }

  /** Whether every mention of the items printed from `i` on is. */
  predicate AllReadBack(s: Bytes, i: nat, items: Items, tail: Bytes)
    requires i <= |s| && s[i..] == Render(items, tail)
    decreases |items|
  {
    if items == [] then true
    else
      var at := i + |items[0].0|;
      var end := at + |Label(items[0].1)|;
      RestIs(s, i, items, tail);
      ReadsBack(s, at, end, items[0].1) && AllReadBack(s, end, items[1..], tail)
  }

  predicate AllClean(items: Items) {
    forall k :: 0 <= k < |items| ==> Clean(items[k].1)
  }

  predicate FirstHasRange(ms: seq<Mention>) {
    ms != [] && ms[0].hasRange
  }

  lemma PathHasNoAt(s: Bytes, at: nat, end: nat, r: Ref)
    requires at < end <= |s| && s[at + 1..end] == r.path && Clean(r)
    ensures forall k :: at < k < end ==> s[k] != AT
  {
    forall k | at < k < end ensures s[k] != AT {
      assert s[k] == r.path[k - at - 1];
    }
  }

  /** The search for the next '@' passes text without one. */
  lemma {:induction false} NextAt(s: Bytes, i: nat, end: nat)
    requires i <= end <= |s| && forall k :: i <= k < end ==> s[k] != AT
    ensures MentionsFrom(s, i) == MentionsFrom(s, end)
    decreases end - i
  {
    hide MentionsFrom, MentionsBehind, ScanToken;
    if i < end {
      NextAt(s, i + 1, end);
      MentionsStep(s, i);
      MentionsStep(s, i + 1);
    }
  }

  /** The mentions from a printed one on: itself in front of what follows its text, or else what follows alone,
      or first a mention with a range. */
  lemma TokenGives(s: Bytes, at: nat, r: Ref)
    requires at + |Label(r)| <= |s| && s[at..at + |Label(r)|] == Label(r) && Clean(r)
    requires at + |Label(r)| < |s| ==> IsMentionDelimiter(s[at + |Label(r)|])
    ensures var end, t := at + |Label(r)|, ScanToken(s, at + 1, at + 1, at);
            && at < end
            && (ReadsBack(s, at, end, r) ==>
                  MentionsBehind(s, at, t)
                  == [Mention(r.path, r.startLine, r.endLine, r.hasRange, at, end)] + MentionsFrom(s, end))
            && (!ReadsBack(s, at, end, r) && !r.hasRange ==>
                  MentionsBehind(s, at, t) == MentionsFrom(s, end) || FirstHasRange(MentionsBehind(s, at, t)))
  {
    hide Label, MentionsFrom, MentionsBehind, ScanToken, OpensRange, IsMentionDelimiter, TrimSpace, Trimmed, RangeText,
         IsInt64, PlainMention;
    TokenExactly(s, at, r);
    LabelSize(r);
    LabelParts(s, at, r);
    var t, end := ScanToken(s, at + 1, at + 1, at), at + |Label(r)|;
    BehindToken(s, at, t, []);
    var ms := MentionsBehind(s, at, t);
    assert [] + ms == ms;
    if !r.hasRange {
      if t.Plain? {
        PlainMentionIs(s, at, end);
        TrimmedStays(r.path);
      } else if t.Restart? {
        PathHasNoAt(s, at, end, r);
        NextAt(s, at + 1, end);
      }
    }
  }

  /** The same for the first of the printed items. */
  lemma FirstReads(s: Bytes, i: nat, items: Items, tail: Bytes, behindMention: bool)
    requires i <= |s| && s[i..] == Render(items, tail) && Gapped(items, tail, behindMention) && items != []
    requires Clean(items[0].1)
    ensures var at, end, r := i + |items[0].0|, i + |items[0].0| + |Label(items[0].1)|, items[0].1;
            && end <= |s| && s[end..] == Render(items[1..], tail)
            && (ReadsBack(s, at, end, r) ==>
                  MentionsFrom(s, i)
                  == [Mention(r.path, r.startLine, r.endLine, r.hasRange, at, end)] + MentionsFrom(s, end))
            && (!ReadsBack(s, at, end, r) && !r.hasRange ==>
                  MentionsFrom(s, i) == MentionsFrom(s, end) || FirstHasRange(MentionsFrom(s, i)))
  {
    hide Label, Render, Gapped, MentionsFrom, MentionsBehind, ScanToken, ReadsBack, IsMentionDelimiter, Clean;
    FirstItemFound(s, i, items, tail, behindMention);
    TokenGives(s, i + |items[0].0|, items[0].1);
    MentionsStep(s, i);
  }

  // ----- counting '@' -----

  lemma OpensWithParen(r: Ref)
    ensures RangeText(r) != [] && RangeText(r)[0] == OPEN_PAREN
  {
    hide Itoa;
  }

  lemma LabelHasOneAt(r: Ref)
    requires Clean(r)
    ensures CountByte(Label(r), AT) == 1
  {
    hide RangeText, CountByte, Trimmed, IsInt64;
    var t := RangeText(r);
    OneCounted(AT);
    NoneCounted(r.path, AT);
    CountOfConcat([AT], r.path, AT);
    if r.hasRange {
      forall k | 0 <= k < |t| ensures t[k] != AT {
        if k > 0 { RangeTextBytes(r, k); } else { OpensWithParen(r); }
      }
      NoneCounted(t, AT);
      CountOfConcat([AT] + r.path, t, AT);
    }
  }

  lemma {:induction false} RenderedAts(items: Items, tail: Bytes, behindMention: bool)
    requires Gapped(items, tail, behindMention) && AllClean(items)
    ensures CountByte(Render(items, tail), AT) == |items|
  {
    hide CountByte, Label, Clean;
    if items == [] {
      NoneCounted(tail, AT);
    } else {
      var gap, token, rest := items[0].0, Label(items[0].1), Render(items[1..], tail);
      assert Clean(items[0].1);
      LabelHasOneAt(items[0].1);
      NoneCounted(gap, AT);
      CountOfConcat(gap, token, AT);
      CountOfConcat(gap + token, rest, AT);
      RenderedAts(items[1..], tail, true);
    }
  }

  lemma CountOfRest(s: Bytes, i: nat, j: nat, c: byte)
    requires i <= j <= |s|
    ensures CountByte(s[i..], c) == CountByte(s[i..j], c) + CountByte(s[j..], c)
  {
    hide CountByte;
    assert s[i..] == s[i..j] + s[j..];
    CountOfConcat(s[i..j], s[j..], c);
  }

  /** There are no more mentions than '@'s. */
  lemma {:induction false} MentionsAreAts(s: Bytes, i: nat)
    requires i <= |s|
    ensures |MentionsFrom(s, i)| <= CountByte(s[i..], AT)
    decreases |s| - i
  {
    hide ScanToken, CountByte, TrimSpace, MentionsFrom, MentionsBehind;
    MentionsStep(s, i);
    match IndexFrom(s, AT, i)
    case None =>
    case Some(at) =>
      var t := ScanToken(s, at + 1, at + 1, at);
      BehindToken(s, at, t, []);
      var next := if t.Plain? then t.end else if t.Ranged? then t.mention.rawEnd else at + 1;
      CountOfRest(s, i, at, AT);
      CountOfRest(s, at, at + 1, AT);
      CountOfRest(s, at + 1, next, AT);
      assert s[at..at + 1] == [AT];
      OneCounted(AT);
      MentionsAreAts(s, next);
  }

  // ----- the exact condition -----

  lemma NoTail(s: Bytes, i: nat, items: Items, tail: Bytes, behindMention: bool)
    requires i <= |s| && s[i..] == Render(items, tail) && Gapped(items, tail, behindMention) && items == []
    ensures MentionsFrom(s, i) == []
  {
    hide MentionsFrom;
    NoMentionInTail(s, i);
  }

  lemma FirstRef(m: Mention, more: seq<Mention>, items: Items)
    requires items != [] && RefOf(m) == items[0].1
    ensures Refs([m] + more) == PrintedRefs(items) <==> Refs(more) == PrintedRefs(items[1..])
  {
    assert Refs([m] + more) == [RefOf(m)] + Refs(more);
    assert PrintedRefs(items) == [items[0].1] + PrintedRefs(items[1..]);
    assert ([RefOf(m)] + Refs(more))[1..] == Refs(more);
    assert ([items[0].1] + PrintedRefs(items[1..]))[1..] == PrintedRefs(items[1..]);
  }

  lemma SameRefs(ms: seq<Mention>, items: Items)
    ensures Refs(ms) == PrintedRefs(items) ==>
              |ms| == |items| && forall k :: 0 <= k < |ms| ==> RefOf(ms[k]) == items[k].1
  {
    if Refs(ms) == PrintedRefs(items) {
      assert |ms| == |Refs(ms)| == |items|;
      forall k | 0 <= k < |ms| ensures RefOf(ms[k]) == items[k].1 {
        assert RefOf(ms[k]) == Refs(ms)[k];
      }
    }
  }

  /** A first item that does not read back is not made up for by what is found instead. */
  lemma FirstDiffers(s: Bytes, i: nat, items: Items, tail: Bytes, behindMention: bool)
    requires i <= |s| && s[i..] == Render(items, tail) && Gapped(items, tail, behindMention) && items != []
    requires AllClean(items) && i + |items[0].0| + |Label(items[0].1)| <= |s|
    requires !ReadsBack(s, i + |items[0].0|, i + |items[0].0| + |Label(items[0].1)|, items[0].1)
    ensures Refs(MentionsFrom(s, i)) != PrintedRefs(items)
  {
    hide MentionsFrom, Render, Gapped, OpensRange, Label, Clean;
    assert Clean(items[0].1);
    FirstReads(s, i, items, tail, behindMention);
    ParsedAreParsed(s, i);
    ItemParts(items, tail, behindMention);
    RenderedAts(items[1..], tail, true);
    MentionsAreAts(s, i + |items[0].0| + |Label(items[0].1)|);
    SameRefs(MentionsFrom(s, i), items);
  }

  /** The exact condition, from any position that items are printed at. */
  lemma {:induction false} ReadsBackExactly(s: Bytes, i: nat, items: Items, tail: Bytes, behindMention: bool)
    requires i <= |s| && s[i..] == Render(items, tail) && Gapped(items, tail, behindMention) && AllClean(items)
    ensures Refs(MentionsFrom(s, i)) == PrintedRefs(items) <==> AllReadBack(s, i, items, tail)
    decreases |items|
  {
    hide MentionsFrom, Render, Gapped, ReadsBack, Label, Clean;
    if items == [] {
      NoTail(s, i, items, tail, behindMention);
    } else {
      var at, end, r := i + |items[0].0|, i + |items[0].0| + |Label(items[0].1)|, items[0].1;
      assert Clean(items[0].1);
      FirstReads(s, i, items, tail, behindMention);
      ItemParts(items, tail, behindMention);
      ReadsBackExactly(s, end, items[1..], tail, true);
      if ReadsBack(s, at, end, r) {
        FirstRef(Mention(r.path, r.startLine, r.endLine, r.hasRange, at, end), MentionsFrom(s, end), items);
      } else {
        FirstDiffers(s, i, items, tail, behindMention);
      }
    }
  }

  /** Printing and parsing give the same list back exactly if no range starts at a negative line and no
      '(' in the path of a mention without a range opens one. */
  lemma RoundTripExactly(items: Items, tail: Bytes)
    requires Gapped(items, tail, false) && AllClean(items)
    ensures Refs(MentionsFrom(Render(items, tail), 0)) == PrintedRefs(items)
       <==> AllReadBack(Render(items, tail), 0, items, tail)
  {
    hide MentionsFrom, Render, Gapped, AllReadBack, AllClean;
    ReadsBackExactly(Render(items, tail), 0, items, tail, false);
  }

  predicate RangeBetween(s: Bytes, k: nat, close: nat)
    requires k < close < |s|
  {
    && (forall j :: k < j < close ==> s[j] != CLOSE_PAREN)
    && ParseMentionLineRangeInner(TrimSpace(s[k + 1..close])).Some?
  }

  /** Whether the path ends in "(a-b)". */
  predicate EndsInRange(path: Bytes) {
    var last := |path| - 1;
    && last >= 0 && path[last] == CLOSE_PAREN
    && exists k :: 0 <= k < last && path[k] == OPEN_PAREN && RangeBetween(path, k, last)
  }

  lemma ItemStarts(r: Ref)
    ensures Gapped([([], r)], [], false)
  {
    var items: Items := [([], r)];
    assert items[1..] == [];
  }

  lemma OpensAtEnd(s: Bytes, path: Bytes, k: nat)
    requires s == [AT] + path && k < |path| && path[k] == OPEN_PAREN
    requires forall j :: 0 <= j < |path| ==> !IsMentionDelimiter(path[j])
    ensures var last := |path| - 1;
            Opens(s, k + 1) <==> k < last && path[last] == CLOSE_PAREN && RangeBetween(path, k, last)
  {
    hide ParseMentionLineRangeInner, TrimSpace, IsMentionDelimiter;
    var last := |path| - 1;
    assert s[k + 1] == path[k] && s[last + 1] == path[last];
    match IndexFrom(s, CLOSE_PAREN, k + 1)
    case None =>
    case Some(close) =>
      assert s[close] == path[close - 1];
      if close <= last {
        assert s[close + 1] == path[close];
      } else {
        assert s[k + 2..close] == path[k + 1..last];
        forall j | k < j < last ensures path[j] != CLOSE_PAREN { assert path[j] == s[j + 1]; }
      }
  }

  lemma EndsInRangeOpens(r: Ref)
    requires Clean(r) && !r.hasRange
    ensures EndsInRange(r.path) <==> OpensRange(Label(r), 1, |Label(r)|)
  {
    hide ParseMentionLineRangeInner, TrimSpace, Trimmed, IsInt64, Opens, RangeBetween;
    var s, last := Label(r), |r.path| - 1;
    forall k | 0 <= k < |r.path| && r.path[k] == OPEN_PAREN
      ensures Opens(s, k + 1) <==> k < last && r.path[last] == CLOSE_PAREN && RangeBetween(r.path, k, last)
    {
      OpensAtEnd(s, r.path, k);
    }
    if EndsInRange(r.path) {
      var k :| 0 <= k < last && r.path[k] == OPEN_PAREN && RangeBetween(r.path, k, last);
      assert s[k + 1] == OPEN_PAREN && Opens(s, k + 1);
    }
    if OpensRange(s, 1, |s|) {
      var k :| 1 <= k < |s| && s[k] == OPEN_PAREN && Opens(s, k);
      assert r.path[k - 1] == OPEN_PAREN && Opens(s, (k - 1) + 1);
    }
  }

  /** A mention printed alone comes back exactly if its range does not start at a negative line or, without a
      range, its path does not end in one. */
  lemma LabelAlone(r: Ref)
    requires Clean(r)
    ensures Refs(MentionsFrom(Label(r), 0)) == [r]
       <==> if r.hasRange then r.startLine >= 0 else !EndsInRange(r.path)
  {
    hide MentionsFrom, OpensRange, EndsInRange, Label, Clean;
    var items: Items := [([], r)];
    assert items[1..] == [] && Render(items[1..], []) == [];
    assert Render(items, []) == Label(r);
    assert PrintedRefs(items) == [r];
    ItemStarts(r);
    RoundTripExactly(items, []);
    assert AllReadBack(Label(r), 0, items, []) <==> ReadsBack(Label(r), 0, |Label(r)|, r);
    if !r.hasRange { EndsInRangeOpens(r); }
  }

  // ----- lists of which the condition is known -----

  lemma NoParenNoRange(s: Bytes, at: nat, r: Ref)
    requires at + |Label(r)| <= |s| && s[at..at + |Label(r)|] == Label(r)
    requires !r.hasRange && OPEN_PAREN !in r.path
    ensures !OpensRange(s, at + 1, at + |Label(r)|)
  {
    hide Opens;
    var end := at + |Label(r)|;
    LabelParts(s, at, r);
    forall k | at + 1 <= k < end ensures s[k] != OPEN_PAREN {
      assert s[k] == s[at + 1..end][k - at - 1];
    }
  }

  lemma FirstLabel(s: Bytes, i: nat, items: Items, tail: Bytes)
    requires i <= |s| && s[i..] == Render(items, tail) && items != []
    ensures var at, end := i + |items[0].0|, i + |items[0].0| + |Label(items[0].1)|;
            end <= |s| && s[at..end] == Label(items[0].1)
  {
    hide Label;
    ThreeParts(s, i, items[0].0, Label(items[0].1), Render(items[1..], tail));
  }

  /** Without '(' in the paths of mentions without a range, only the lines matter. */
  lemma {:induction false} WithoutParens(s: Bytes, i: nat, items: Items, tail: Bytes)
    requires i <= |s| && s[i..] == Render(items, tail)
    requires forall k :: 0 <= k < |items| && !items[k].1.hasRange ==> OPEN_PAREN !in items[k].1.path
    ensures AllReadBack(s, i, items, tail)
       <==> forall k :: 0 <= k < |items| && items[k].1.hasRange ==> items[k].1.startLine >= 0
    decreases |items|
  {
    hide Render, Label, OpensRange;
    if items != [] {
      RestIs(s, i, items, tail);
      var at, end, r := i + |items[0].0|, i + |items[0].0| + |Label(items[0].1)|, items[0].1;
      WithoutParens(s, end, items[1..], tail);
      FirstLabel(s, i, items, tail);
      if !r.hasRange { NoParenNoRange(s, at, r); }
      assert forall k :: 1 <= k < |items| ==> items[k] == items[1..][k - 1];
    }
  }

  /** So such mentions survive exactly if no range starts at a negative line; the paths of ranges are free. */
  lemma PlainPathsRoundTrip(items: Items, tail: Bytes)
    requires Gapped(items, tail, false) && AllClean(items)
    requires forall k :: 0 <= k < |items| && !items[k].1.hasRange ==> OPEN_PAREN !in items[k].1.path
    ensures Refs(MentionsFrom(Render(items, tail), 0)) == PrintedRefs(items)
       <==> forall k :: 0 <= k < |items| && items[k].1.hasRange ==> items[k].1.startLine >= 0
  {
    hide MentionsFrom, Render, Gapped, AllReadBack, AllClean;
    RoundTripExactly(items, tail);
    WithoutParens(Render(items, tail), 0, items, tail);
  }

  /** Parsing, printing into any text and parsing again changes nothing exactly if no '(' in the path of a
      mention without a range opens one where it is printed; in particular if there is none. */
  lemma ParsedPrintsBack(s: Bytes, items: Items, tail: Bytes)
    requires PrintedRefs(items) == Refs(MentionsFrom(s, 0)) && Gapped(items, tail, false)
    ensures forall k :: 0 <= k < |items| && items[k].1.hasRange ==> items[k].1.startLine >= 0
    ensures Refs(MentionsFrom(Render(items, tail), 0)) == Refs(MentionsFrom(s, 0))
       <==> AllReadBack(Render(items, tail), 0, items, tail)
    ensures (forall k :: 0 <= k < |items| && !items[k].1.hasRange ==> OPEN_PAREN !in items[k].1.path) ==>
              Refs(MentionsFrom(Render(items, tail), 0)) == Refs(MentionsFrom(s, 0))
  {
    hide MentionsFrom, Render, Gapped, AllReadBack, Clean;
    ParsedAreParsed(s, 0);
    SameRefs(MentionsFrom(s, 0), items);
    forall k | 0 <= k < |items| ensures Parsed(items[k].1) {
      assert RefOf(MentionsFrom(s, 0)[k]) == items[k].1;
    }
    RoundTripExactly(items, tail);
    if forall k :: 0 <= k < |items| && !items[k].1.hasRange ==> OPEN_PAREN !in items[k].1.path {
      PlainPathsRoundTrip(items, tail);
    }
  }

  const SPACED: Bytes := [AT, 0x61, OPEN_PAREN, 0x31, DASH, 0x32, CLOSE_PAREN, 0xC2, 0xA0]

  /** "@a(1-2)" with a no-break space behind it: the space keeps the parenthesis in the path and is then
      trimmed off, so what is parsed prints as a text that parses to a range. */
  lemma ParenPathMayChange()
    ensures Refs(MentionsFrom(SPACED, 0)) == [Ref(SPACED[1..7], 0, 0, false)]
    ensures Label(Ref(SPACED[1..7], 0, 0, false)) == SPACED[..7]
    ensures Refs(MentionsFrom(SPACED[..7], 0)) == [Ref([0x61], 1, 2, true)]
  {
    SpacedIsPath();
    UnspacedIsRange();
  }

  lemma SpacedIsPath()
    ensures Refs(MentionsFrom(SPACED, 0)) == [Ref(SPACED[1..7], 0, 0, false)]
  {
    hide ScanToken, TrimSpace;
    NoRangeBeforeSpace(SPACED);
    SpaceTrimmedOff(SPACED);
    FirstIs(SPACED, AT, 0, 0);
    assert MentionsFrom(SPACED, 9) == [];
    assert PlainMention(SPACED, 0, 9) == [Mention(SPACED[1..7], 0, 0, false, 0, 9)];
  }

  lemma UnspacedIsRange()
    ensures Refs(MentionsFrom(SPACED[..7], 0)) == [Ref([0x61], 1, 2, true)]
  {
    hide MentionsFrom;
    var r := Ref([0x61], 1, 2, true);
    assert Itoa(1) == [0x31] && Itoa(2) == [0x32];
    assert Label(r) == SPACED[..7];
    assert Trimmed(r.path) && !IsMentionDelimiter(r.path[0]);
    LabelAlone(r);
  }

  lemma NoRangeBeforeSpace(s: Bytes)
    requires s == SPACED
    ensures ScanToken(s, 1, 1, 0) == Plain(9)
  {
    hide ScanToken, TrimSpace, ParseMentionLineRangeInner;
    SkipPath(s, 1, 2, 1, 0);
    ScanStep(s, 2, 1, 0);
    FirstIs(s, CLOSE_PAREN, 2, 6);
    SkipPath(s, 3, 9, 1, 0);
    ScanEnds(s, 0, 9);
  }

  lemma SpaceTrimmedOff(s: Bytes)
    requires s == SPACED
    ensures TrimSpace(s[1..9]) == s[1..7]
  {
    var raw := s[1..9];
    assert SpaceAtEnd(raw) == 2 && raw[..6] == s[1..7];
    assert SpaceAtStart(raw) == 0 && TrimLeft(raw) == raw;
    assert SpaceAtEnd(s[1..7]) == 0;
    assert TrimRight(raw) == TrimRight(raw[..6]) == raw[..6];
  }
}
