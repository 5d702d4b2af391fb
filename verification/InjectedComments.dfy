/** The comments above the functions of a file into which directives were written
    (cmd/funclogmeasure/inject_directives.go, skip_directive.go). */
module InjectedComments {
  import opened DirectiveInserts
  import opened Directives
  import opened GoText
  import opened Injection
  import opened Wrappers

  // ----- comments and the lines below them -----

  predicate CommentLine(line: Bytes) {
    SLASHES <= line
  }

  /** The comment lines that `front` ends with: what Go attaches to a declaration on the next line. */
  function CommentEnd(front: seq<Bytes>): seq<Bytes> {
    var k := |front| - 1;
    if front == [] || !CommentLine(front[k]) then [] else CommentEnd(front[..k]) + [front[k]]
  }

  lemma {:induction false} CommentGoesOn(front: seq<Bytes>, more: seq<Bytes>)
    requires forall k :: 0 <= k < |more| ==> CommentLine(more[k])
    ensures CommentEnd(front + more) == CommentEnd(front) + more
  {
    if more == [] {
      assert front + more == front;
    } else {
      var k := |more| - 1;
      CommentGoesOn(front, more[..k]);
      assert (front + more)[..|front| + k] == front + more[..k];
    }
  }

  /** Nothing goes in front of a comment line. */
  predicate CommentsWhole(lines: seq<Bytes>, inserts: seq<InsertAt<Bytes>>) {
    forall i :: 0 <= i < |inserts| && 0 <= inserts[i].line - 1 < |lines| ==> !CommentLine(lines[inserts[i].line - 1])
  }

  lemma {:induction false} CommentKept(lines: seq<Bytes>, inserts: seq<InsertAt<Bytes>>, p: nat)
    requires p <= |lines| && CommentsWhole(lines, inserts)
    ensures CommentEnd(Front(lines, inserts, p)) == CommentEnd(lines[..p])
  {
    hide CommentLine, BlockAt;
    if p > 0 {
      var front, line := Front(lines, inserts, p - 1) + BlockAt(inserts, p - 1), lines[p - 1];
      CommentKept(lines, inserts, p - 1);
      assert (front + [line])[..|front|] == front;
      assert lines[..p][..p - 1] == lines[..p - 1];
      if CommentLine(line) {
        BlockIsEmpty(inserts, p - 1);
        assert front == Front(lines, inserts, p - 1);
      }
    }
  }

  // ----- declarations and their insertions -----

  /** A declaration whose line is no comment, with the comment lines directly above it as its comment. */
  predicate LaidOut(lines: seq<Bytes>, d: Decl) {
    && 1 <= d.funcLine <= |lines| && !CommentLine(lines[d.funcLine - 1])
    && d.doc == CommentEnd(lines[..d.funcLine - 1]) && (d.doc != [] ==> d.docEnd + 1 == d.funcLine)
  }

  /** Declarations, each on a line of its own. */
  predicate AllLaidOut(lines: seq<Bytes>, decls: seq<Decl>) {
    && (forall k :: 0 <= k < |decls| ==> LaidOut(lines, decls[k]))
    && (forall j, k :: 0 <= j < k < |decls| ==> decls[j].funcLine != decls[k].funcLine)
  }

  function InsertFor(d: Decl, want: map<Bytes, Violation>): InsertAt<Bytes>
    requires d.name in want
  {
    DirectiveInsert(d, DirectiveFor(want[d.name]))
  }

  lemma {:induction false} InsertsAreWanted(decls: seq<Decl>, want: map<Bytes, Violation>, ins: InsertAt<Bytes>)
    returns (k: nat)
    requires ins in Inserts(decls, want)
    ensures k < |decls| && Wanted(decls[k], want) && ins == InsertFor(decls[k], want)
  {
    hide DirectiveFor, ParseSkipDirective;
    var last := |decls| - 1;
    if ins in Inserts(decls[..last], want) {
      k := InsertsAreWanted(decls[..last], want, ins);
    } else {
      k := last;
    }
  }

  lemma InsertLines(lines: seq<Bytes>, decls: seq<Decl>, want: map<Bytes, Violation>, ins: InsertAt<Bytes>)
    returns (k: nat)
    requires AllLaidOut(lines, decls) && ins in Inserts(decls, want)
    ensures k < |decls| && Wanted(decls[k], want) && ins == InsertFor(decls[k], want)
    ensures ins.line == decls[k].funcLine
  {
    hide DirectiveFor, ParseSkipDirective, CommentEnd;
    k := InsertsAreWanted(decls, want, ins);
    assert LaidOut(lines, decls[k]);
  }

  lemma {:induction false} InsertedOnce(lines: seq<Bytes>, decls: seq<Decl>, want: map<Bytes, Violation>, k: nat)
    requires AllLaidOut(lines, decls) && k < |decls| && Wanted(decls[k], want)
    ensures multiset(Inserts(decls, want))[InsertFor(decls[k], want)] == 1
  {
    hide DirectiveFor, ParseSkipDirective, LaidOut, DirectiveInsert;
    var last := |decls| - 1;
    var front := Inserts(decls[..last], want);
    forall ins | ins in front ensures ins.line != decls[last].funcLine {
      var j := InsertLines(lines, decls[..last], want, ins);
    }
    LineOfInsert(lines, decls[k], want);
    if Wanted(decls[last], want) { LineOfInsert(lines, decls[last], want); }
    if k < last { InsertedOnce(lines, decls[..last], want, k); }
  }

  lemma LineOfInsert(lines: seq<Bytes>, d: Decl, want: map<Bytes, Violation>)
    requires LaidOut(lines, d) && d.name in want
    ensures InsertFor(d, want).line == d.funcLine
  {
    hide DirectiveFor, CommentEnd;
  }

  lemma {:induction false} BlockOfOne<T>(inserts: seq<InsertAt<T>>, ins: InsertAt<T>, p: nat)
    requires multiset(inserts)[ins] == 1 && ins.line - 1 == p
    requires forall i :: 0 <= i < |inserts| && inserts[i].line == ins.line ==> inserts[i] == ins
    ensures BlockAt(inserts, p) == ins.lines
  {
    var first, rest := inserts[0], inserts[1..];
    assert inserts == [first] + rest;
    assert forall i :: 0 <= i < |rest| ==> rest[i] == inserts[i + 1];
    if first == ins {
      assert ins !in rest;
      BlockIsEmpty(rest, p);
    } else {
      BlockOfOne(rest, ins, p);
    }
  }

  /** What goes in front of a declaration is its own directive or nothing, in whatever order the insertions
      were sorted. */
  lemma BlockAtDecl(lines: seq<Bytes>, decls: seq<Decl>, want: map<Bytes, Violation>, k: nat,
                    sorted: seq<InsertAt<Bytes>>)
    requires AllLaidOut(lines, decls) && k < |decls| && multiset(sorted) == multiset(Inserts(decls, want))
    ensures BlockAt(sorted, decls[k].funcLine - 1)
            == if Wanted(decls[k], want) then InsertFor(decls[k], want).lines else []
  {
    hide DirectiveFor, ParseSkipDirective, CommentEnd, CommentLine, DirectiveInsert, BlockAt, Inserts;
    var d := decls[k];
    assert LaidOut(lines, d);
    forall i | 0 <= i < |sorted| && sorted[i].line == d.funcLine
      ensures Wanted(d, want) && d.name in want && sorted[i] == InsertFor(d, want)
    {
      assert sorted[i] in multiset(sorted);
      var j := InsertLines(lines, decls, want, sorted[i]);
      assert j == k;
    }
    if Wanted(d, want) {
      InsertedOnce(lines, decls, want, k);
      LineOfInsert(lines, d, want);
      BlockOfOne(sorted, InsertFor(d, want), d.funcLine - 1);
    } else {
      BlockIsEmpty(sorted, d.funcLine - 1);
    }
  }

  lemma SortedInRange(lines: seq<Bytes>, decls: seq<Decl>, want: map<Bytes, Violation>, sorted: seq<InsertAt<Bytes>>)
    requires AllLaidOut(lines, decls) && multiset(sorted) == multiset(Inserts(decls, want))
    ensures InRange(sorted, |lines|) && CommentsWhole(lines, sorted)
  {
    hide DirectiveFor, ParseSkipDirective, DirectiveInsert, CommentLine, CommentEnd, Inserts;
    forall i | 0 <= i < |sorted|
      ensures 1 <= sorted[i].line <= |lines| && !CommentLine(lines[sorted[i].line - 1])
    {
      assert sorted[i] in multiset(sorted);
      var j := InsertLines(lines, decls, want, sorted[i]);
      assert LaidOut(lines, decls[j]);
    }
  }

  lemma InsertIsComment(d: Decl, v: Violation)
    ensures var block := DirectiveInsert(d, DirectiveFor(v)).lines;
            forall k :: 0 <= k < |block| ==> CommentLine(block[k])
  {
    hide PrintFields, DirectiveCategoryFor;
  }

  // ----- the comments in the written file -----

  /** Where the line of a declaration stands in the written file. */
  function MovedTo(d: Decl, sorted: seq<InsertAt<Bytes>>): int {
    d.funcLine - 1 + Shift(sorted, d.funcLine - 1)
  }

  /** The comment lines directly above the line with index `q`. */
  function CommentAbove(file: seq<Bytes>, q: int): seq<Bytes> {
    if 0 <= q <= |file| then CommentEnd(file[..q]) else []
  }

  function Written(lines: seq<Bytes>, sorted: seq<InsertAt<Bytes>>): seq<Bytes> {
    Ended(Weave(lines, sorted, 0))
  }

  /** In the file that is written, every function's line is moved down by the lines that went in at its place or
      in front of it, and the comment directly above it is its old one with its own directive behind it, or
      just the old one when none was wanted. */
  lemma CommentInFile(lines: seq<Bytes>, decls: seq<Decl>, want: map<Bytes, Violation>, k: nat,
                      sorted: seq<InsertAt<Bytes>>)
    requires AllLaidOut(lines, decls) && k < |decls| && multiset(sorted) == multiset(Inserts(decls, want))
    ensures InRange(sorted, |lines|)
    ensures var d, file := decls[k], Written(lines, sorted);
            && 0 < d.funcLine <= |lines| && 0 <= MovedTo(d, sorted) < |file|
            && file[MovedTo(d, sorted)] == lines[d.funcLine - 1]
            && CommentAbove(file, MovedTo(d, sorted))
               == if d.name in want && Wanted(d, want) then DocAfter(d, DirectiveFor(want[d.name])) else d.doc
  {
    hide DirectiveFor, ParseSkipDirective, BlockAt, Weave, Front, Shift, CommentEnd, CommentLine, Inserts;
    var d := decls[k];
    var p := d.funcLine - 1;
    assert LaidOut(lines, d);
    SortedInRange(lines, decls, want, sorted);
    LineMoves(lines, sorted, p);
    BlockAtDecl(lines, decls, want, k, sorted);
    CommentKept(lines, sorted, p);
    var w, q := Weave(lines, sorted, 0), p + Shift(sorted, p);
    assert Ended(w)[..q] == w[..q];
    if Wanted(d, want) {
      InsertIsComment(d, want[d.name]);
    }
    CommentGoesOn(Front(lines, sorted, p), BlockAt(sorted, p));
  }

  /** What a second look at the written file sees: a function is excused exactly if it was before or it was wanted
      and no line of its comment starts as a directive; then it is excused as the tool chose. */
  lemma ExcusedInFile(lines: seq<Bytes>, decls: seq<Decl>, want: map<Bytes, Violation>, k: nat,
                      sorted: seq<InsertAt<Bytes>>)
    requires AllLaidOut(lines, decls) && k < |decls| && multiset(sorted) == multiset(Inserts(decls, want))
    ensures var d := decls[k];
            var before, after := ParseSkipDirective(d.doc),
                                 ParseSkipDirective(CommentAbove(Written(lines, sorted), MovedTo(d, sorted)));
            && (after.Some? <==>
                  before.Some? || (Wanted(d, want) && forall j :: 0 <= j < |d.doc| ==> !MarkedLine(d.doc[j])))
            && (before.Some? ==> after == before)
            && (before.None? && after.Some? && d.name in want ==>
                  (after.value.category, after.value.reason) == DirectiveCategoryFor(want[d.name]))
  {
    hide DirectiveFor, ParseSkipDirective, MovedTo, CommentAbove, Written, MarkedLine, DirectiveCategoryFor,
         DocAfter, AllLaidOut, Inserts;
    var d := decls[k];
    CommentInFile(lines, decls, want, k, sorted);
    if Wanted(d, want) {
      InjectedIsValid(d, want[d.name]);
    }
  }
}
