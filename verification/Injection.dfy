/** The directives that the tool writes into one source file (cmd/funclogmeasure/inject_directives.go). */
module Injection {
  import opened DirectiveInserts
  import opened Directives
  import opened GoQuote
  import opened GoText
  import opened Wrappers

  // ----- directiveCategoryFor -----

  predicate PlainText(s: string) {
    forall k :: 0 <= k < |s| ==> 0x20 as char <= s[k] <= 0x7E as char && s[k] != '"' && s[k] != '\\'
  }

  /** A part of a reason. */
  function Phrase(s: string): (b: Bytes)
    requires PlainText(s)
    ensures |b| == |s| && PlainAscii(b) && forall k :: 0 <= k < |s| ==> b[k] == s[k] as int
  {
    seq(|s|, k requires 0 <= k < |s| => s[k] as int)
  }

  const THIN_REASON: Bytes :=
    Phrase("Thin middleware re-export; ") + Phrase("slog lives on pkgs/tasks/") + Phrase("middleware implementation.")
  const TEST_REASON: Bytes := Phrase("Test-only HTTP wiring; not ") + Phrase("part of production trace paths.")
  const MAIN_REASON: Bytes := Phrase("cmd entrypoint; slog JSON ") + Phrase("sink is configured in run().")
  const HELPER_REASON: Bytes :=
    Phrase("Delegates to helperDebugIn/") + Phrase("helperDebugOut which emit ") + Phrase("helper.io traces.")
  const DEFAULT_REASON: Bytes :=
    Phrase("Pure helper without I/O; ") + Phrase("operation trace is emitted ") + Phrase("by the calling chokepoint.")

  datatype Violation = Violation(pkg: Bytes, funcName: Bytes)

  predicate Contains(s: Bytes, part: Bytes) {
    exists k :: 0 <= k <= |s| && part <= s[k..]
  }

  function DirectiveCategoryFor(v: Violation): (Bytes, Bytes) {
    if Literal("With") <= v.funcName && Contains(v.pkg, Literal("/handler")) then (RE_EXPORT, THIN_REASON)
    else if Contains(v.pkg, Literal("handlertest")) || Contains(v.pkg, Literal("httpsecurityexpect")) then
      (TOOL_NOOP, TEST_REASON)
    else if v.funcName == Literal("main") && Contains(v.pkg, Literal("/cmd/")) then (TOOL_NOOP, MAIN_REASON)
    else if Contains(v.funcName, Literal("HelperIO")) || v.funcName == Literal("RunObserved") then
      (DELEGATE, HELPER_REASON)
    else (HOT_PATH, DEFAULT_REASON)
  }

  predicate GoodReason(r: Bytes) {
    PlainAscii(r) && SolidEnds(r) && |r| >= MIN_DIRECTIVE_REASON
  }

  lemma ReasonsAreGood()
    ensures GoodReason(THIN_REASON) && GoodReason(TEST_REASON) && GoodReason(MAIN_REASON)
    ensures GoodReason(HELPER_REASON) && GoodReason(DEFAULT_REASON)
  {
  }

  // ----- directiveInsert -----

  /** A function declaration: the lines of its doc comment, where that ends, and where it starts. */
  datatype Decl = Decl(name: Bytes, hasBody: bool, doc: seq<Bytes>, docEnd: int, funcLine: int)

  /** The directive is printable ASCII, so it does not matter what else counts as printable. */
  const ANY_CHARACTER: Bytes -> bool := _ => true

  function DirectiveFor(v: Violation): Bytes {
    var (category, reason) := DirectiveCategoryFor(v);
    PrintDirective(category, reason, ANY_CHARACTER)
  }

  lemma PrintsAlike(v: Violation, isPrint: Bytes -> bool)
    ensures var (category, reason) := DirectiveCategoryFor(v);
            PrintDirective(category, reason, isPrint) == DirectiveFor(v)
  {
    hide DirectiveCategoryFor;
    var reason := DirectiveCategoryFor(v).1;
    CategoryIsValid(v);
    AsciiIsPlain(reason, isPrint);
    AsciiIsPlain(reason, ANY_CHARACTER);
    EscapedSize(reason, isPrint);
    EscapedSize(reason, ANY_CHARACTER);
  }

  function DirectiveInsert(d: Decl, directive: Bytes): InsertAt<Bytes> {
    if d.doc != [] then InsertAt(d.docEnd + 1, [SLASHES, directive]) else InsertAt(d.funcLine, [directive])
  }

  predicate Wanted(d: Decl, want: map<Bytes, Violation>) {
    d.hasBody && d.name in want && ParseSkipDirective(d.doc).None?
  }

  /** The insertions for the wanted functions, in the order of the declarations. */
  function Inserts(decls: seq<Decl>, want: map<Bytes, Violation>): seq<InsertAt<Bytes>> {
    if decls == [] then []
    else
      var last := decls[|decls| - 1];
      Inserts(decls[..|decls| - 1], want) +
      if Wanted(last, want) then [DirectiveInsert(last, DirectiveFor(want[last.name]))] else []
  }

  /** The doc comment with the inserted lines behind it. */
  function DocAfter(d: Decl, directive: Bytes): seq<Bytes> {
    d.doc + DirectiveInsert(d, directive).lines
  }

  predicate MarkedLine(line: Bytes) {
    MARK <= TrimSpace(TrimPrefix(line, SLASHES))
  }

  lemma {:induction false} FirstMarkedDecides(doc: seq<Bytes>, more: seq<Bytes>, k: nat)
    requires k < |doc| && MarkedLine(doc[k])
    ensures ParseSkipDirective(doc + more) == ParseSkipDirective(doc)
    decreases |doc|
  {
    hide TrimSpace, ParseDirectiveFields;
    assert (doc + more)[1..] == doc[1..] + more;
    if !MarkedLine(doc[0]) {
      FirstMarkedDecides(doc[1..], more, k - 1);
    }
  }

  lemma SlashesAreNoMark()
    ensures !MarkedLine(SLASHES)
  {
    assert TrimPrefix(SLASHES, SLASHES) == [];
    assert TrimSpace([]) == [];
    assert |MARK| > 0;
  }

  lemma CategoryIsValid(v: Violation)
    ensures ValidCategory(DirectiveCategoryFor(v).0) && GoodReason(DirectiveCategoryFor(v).1)
  {
    ReasonsAreGood();
  }

  lemma NewDirectiveIsRead(front: seq<Bytes>, v: Violation)
    requires forall k :: 0 <= k < |front| ==> !MarkedLine(front[k])
    ensures var (category, reason) := DirectiveCategoryFor(v);
            ParseSkipDirective(front + [DirectiveFor(v)]) == Some(SkipDirective(category, reason))
  {
    hide TrimSpace, ParseSkipDirective, PrintDirective, DirectiveCategoryFor, ValidCategory;
    var (category, reason) := DirectiveCategoryFor(v);
    CategoryIsValid(v);
    SolidStays(reason);
    AsciiIsPlain(reason, ANY_CHARACTER);
    DirectiveRoundTrip(front, category, reason, ANY_CHARACTER);
  }

  /** The function is excused after the insertion, with what the tool chose, exactly if no line of
      its doc comment already starts as a directive: a bad directive in front hides the new one. */
  lemma InjectedIsValid(d: Decl, v: Violation)
    requires ParseSkipDirective(d.doc).None?
    ensures ParseSkipDirective(DocAfter(d, DirectiveFor(v))).Some?
       <==> forall k :: 0 <= k < |d.doc| ==> !MarkedLine(d.doc[k])
    ensures var after := ParseSkipDirective(DocAfter(d, DirectiveFor(v)));
            after.Some? ==> (after.value.category, after.value.reason) == DirectiveCategoryFor(v)
  {
    hide MarkedLine, ParseSkipDirective, DirectiveFor, DirectiveCategoryFor;
    if k :| 0 <= k < |d.doc| && MarkedLine(d.doc[k]) {
      FirstMarkedDecides(d.doc, [SLASHES, DirectiveFor(v)], k);
    } else {
      SlashesAreNoMark();
      var front := if d.doc != [] then d.doc + [SLASHES] else [];
      NewDirectiveIsRead(front, v);
      assert DocAfter(d, DirectiveFor(v)) == front + [DirectiveFor(v)];
    }
  }

  // ----- sort.Slice -----

  function PlaceDown(x: InsertAt<Bytes>, s: seq<InsertAt<Bytes>>): (r: seq<InsertAt<Bytes>>)
    ensures r != []
  {
    if s == [] || x.line >= s[0].line then [x] + s else [s[0]] + PlaceDown(x, s[1..])
  }

  lemma {:induction false} PlaceDownContents(x: InsertAt<Bytes>, s: seq<InsertAt<Bytes>>)
    ensures multiset(PlaceDown(x, s)) == multiset(s) + multiset{x}
  {
    if s != [] {
      assert s == [s[0]] + s[1..];
      if x.line < s[0].line {
        PlaceDownContents(x, s[1..]);
      }
    }
  }

  lemma {:induction false} PlaceDownKeepsOrder(x: InsertAt<Bytes>, s: seq<InsertAt<Bytes>>)
    requires Descending(s)
    ensures Descending(PlaceDown(x, s))
    ensures PlaceDown(x, s)[0].line == if s == [] || x.line >= s[0].line then x.line else s[0].line
  {
    if s != [] && x.line < s[0].line {
      PlaceDownKeepsOrder(x, s[1..]);
    }
  }

  /** Some order by falling line number; the caller knows nothing about equal ones. */
  method SortByLineDown(inserts: seq<InsertAt<Bytes>>) returns (sorted: seq<InsertAt<Bytes>>)
    ensures Descending(sorted) && multiset(sorted) == multiset(inserts)
  {
    sorted := [];
    for i := 0 to |inserts|
      invariant Descending(sorted) && multiset(sorted) == multiset(inserts[..i])
    {
      assert inserts[..i + 1] == inserts[..i] + [inserts[i]];
      PlaceDownKeepsOrder(inserts[i], sorted);
      PlaceDownContents(inserts[i], sorted);
      sorted := PlaceDown(inserts[i], sorted);
    }
    assert inserts[..|inserts|] == inserts;
  }

  // ----- injectDirectivesInFile -----

  /** The lines of a file that ends with a newline. */
  function Ended(lines: seq<Bytes>): seq<Bytes> {
    if |lines| > 1 && lines[|lines| - 1] == [] then lines else lines + [[]]
  }

  lemma {:induction false} JoinEnds(lines: seq<Bytes>)
    requires lines != [] && forall l :: l in lines ==> OneLine(l)
    ensures var s := Join(lines);
            && (s != [] && s[|s| - 1] == NEWLINE <==> |lines| > 1 && lines[|lines| - 1] == [])
            && Join(lines + [[]]) == s + [NEWLINE]
  {
    if |lines| > 1 {
      JoinEnds(lines[1..]);
      assert (lines + [[]])[1..] == lines[1..] + [[]];
    } else {
      assert OneLine(lines[0]);
      assert (lines + [[]])[1..] == [[]];
    }
  }

  lemma EscapedOneLine(reason: Bytes, isPrint: Bytes -> bool)
    ensures OneLine(Escaped(reason, isPrint))
  {
    EscapedSize(reason, isPrint);
  }

  lemma DirectiveOneLine(v: Violation)
    ensures OneLine(DirectiveFor(v)) && OneLine(SLASHES)
  {
    hide Escaped, DirectiveCategoryFor;
    var (category, reason) := DirectiveCategoryFor(v);
    ReasonsAreGood();
    CategoryIsValid(v);
    EscapedOneLine(reason, ANY_CHARACTER);
    CategoriesAreWords(category);
    KeysAreWords();
    MarkIsWord();
  }

  lemma {:induction false} InsertsOneLine(decls: seq<Decl>, want: map<Bytes, Violation>)
    ensures forall k :: 0 <= k < |Inserts(decls, want)| ==> AllOneLine(Inserts(decls, want)[k].lines)
  {
    hide DirectiveFor, OneLine;
    if decls != [] {
      var last := decls[|decls| - 1];
      InsertsOneLine(decls[..|decls| - 1], want);
      if Wanted(last, want) {
        DirectiveOneLine(want[last.name]);
      }
    }
  }

  predicate AllOneLine(lines: seq<Bytes>) {
    forall l :: l in lines ==> OneLine(l)
  }

  lemma {:induction false} WovenOneLine(lines: seq<Bytes>, inserts: seq<InsertAt<Bytes>>, p: nat)
    requires p <= |lines| && AllOneLine(lines) && forall k :: 0 <= k < |inserts| ==> AllOneLine(inserts[k].lines)
    ensures AllOneLine(Weave(lines, inserts, p))
    decreases |lines| - p
  {
    hide OneLine;
    BlockOneLine(inserts, p);
    if p < |lines| {
      WovenOneLine(lines, inserts, p + 1);
    }
  }

  lemma {:induction false} BlockOneLine(inserts: seq<InsertAt<Bytes>>, p: nat)
    requires forall k :: 0 <= k < |inserts| ==> AllOneLine(inserts[k].lines)
    ensures AllOneLine(BlockAt(inserts, p))
  {
    hide OneLine;
    if inserts != [] {
      BlockOneLine(inserts[1..], p);
    }
  }

  /** The written file, line by line, is the old one with every directive in front of the line that
      was meant; nothing is written when one of the line numbers is out of range. */
  method InjectDirectivesInFile(src: Bytes, decls: seq<Decl>, want: map<Bytes, Violation>)
    returns (r: Option<(nat, Bytes)>)
    ensures var inserts := Inserts(decls, want);
            if inserts == [] then r == Some((0, src))
            else if !InRange(inserts, |Split(src)|) then r == None
            else
              r.Some? && r.value.0 == |inserts| &&
              exists sorted :: Descending(sorted) && multiset(sorted) == multiset(inserts)
                && Split(r.value.1) == Ended(Weave(Split(src), sorted, 0))
  {
    hide OneLine, DirectiveFor, Split, Weave;
    var inserts: seq<InsertAt<Bytes>> := [];
    for i := 0 to |decls|
      invariant inserts == Inserts(decls[..i], want)
    {
      assert decls[..i + 1][..i] == decls[..i];
      var d := decls[i];
      if !d.hasBody || d.name !in want || ParseSkipDirective(d.doc).Some? {
        continue;
      }
      inserts := inserts + [DirectiveInsert(d, DirectiveFor(want[d.name]))];
    }
    assert decls[..|decls|] == decls;
    if |inserts| == 0 {
      return Some((0, src));
    }
    var sorted := SortByLineDown(inserts);
    SameMembers(inserts, sorted, |Split(src)|);
    var lines := InsertBottomUp(Split(src), sorted);
    if lines.None? {
      return None;
    }
    InsertsOneLine(decls, want);
    JoinOfSplit(src);
    MembersOneLine(inserts, sorted);
    WovenOneLine(Split(src), sorted, 0);
    WeaveGrows(Split(src), sorted, 0);
    JoinEnds(lines.value);
    EndedOneLine(lines.value);
    SplitOfJoin(Ended(lines.value));
    var out := Join(lines.value);
    if out == [] || out[|out| - 1] != NEWLINE {
      out := out + [NEWLINE];
    }
    return Some((|inserts|, out));
  }

  lemma EndedOneLine(lines: seq<Bytes>)
    requires AllOneLine(lines)
    ensures AllOneLine(Ended(lines))
  {
  }

  lemma SameMembers(a: seq<InsertAt<Bytes>>, b: seq<InsertAt<Bytes>>, count: nat)
    requires multiset(a) == multiset(b)
    ensures InRange(a, count) <==> InRange(b, count)
  {
    forall i | 0 <= i < |a| ensures a[i] in b {
      assert a[i] in multiset(a);
    }
    forall i | 0 <= i < |b| ensures b[i] in a {
      assert b[i] in multiset(b);
    }
  }

  lemma MembersOneLine(a: seq<InsertAt<Bytes>>, b: seq<InsertAt<Bytes>>)
    requires multiset(a) == multiset(b) && forall k :: 0 <= k < |a| ==> AllOneLine(a[k].lines)
    ensures forall k :: 0 <= k < |b| ==> AllOneLine(b[k].lines)
  {
    hide OneLine, AllOneLine;
    forall k | 0 <= k < |b| ensures AllOneLine(b[k].lines) {
      assert b[k] in multiset(b) && b[k] in a;
    }
  }
}
