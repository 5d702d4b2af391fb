/** The writing of skip directives into source files (cmd/funclogmeasure/inject_directives.go). */
module DirectiveInserts {
  import opened GoText
  import opened Wrappers

  // ----- strings.Split and strings.Join -----

  function Split(s: Bytes): (lines: seq<Bytes>)
    ensures lines != []
  {
    match IndexFrom(s, NEWLINE, 0)
    case None => [s]
    case Some(k) => [s[..k]] + Split(s[k + 1..])
  }

  function Join(lines: seq<Bytes>): Bytes
    requires lines != []
  {
    if |lines| == 1 then lines[0] else lines[0] + [NEWLINE] + Join(lines[1..])
  }

  predicate OneLine(s: Bytes) {
    NEWLINE !in s
  }

  lemma {:induction false} JoinOfSplit(s: Bytes)
    ensures Join(Split(s)) == s && forall l :: l in Split(s) ==> OneLine(l)
  {
    match IndexFrom(s, NEWLINE, 0)
    case None =>
    case Some(k) =>
      JoinOfSplit(s[k + 1..]);
      assert Split(s)[1..] == Split(s[k + 1..]);
      assert s == s[..k] + [NEWLINE] + s[k + 1..];
  }

  lemma SplitOneLine(line: Bytes)
    requires OneLine(line)
    ensures Split(line) == [line]
  {
  }

  lemma SplitFirstLine(line: Bytes, rest: Bytes, s: Bytes)
    requires OneLine(line) && s == line + [NEWLINE] + rest
    ensures Split(s) == [line] + Split(rest)
  {
    var k := |line|;
    assert s[k] == NEWLINE && forall j :: 0 <= j < k ==> s[j] == line[j];
    assert IndexFrom(s, NEWLINE, 0) == Some(k);
    assert s[..k] == line && s[k + 1..] == rest;
  }

  lemma {:induction false} SplitOfJoin(lines: seq<Bytes>)
    requires lines != [] && forall l :: l in lines ==> OneLine(l)
    ensures Split(Join(lines)) == lines
  {
    hide Split, OneLine;
    assert lines[0] in lines;
    if |lines| == 1 {
      SplitOneLine(lines[0]);
    } else {
      SplitOfJoin(lines[1..]);
      SplitFirstLine(lines[0], Join(lines[1..]), Join(lines));
    }
  }

  // ----- insertions -----

  datatype InsertAt<T> = InsertAt(line: int, lines: seq<T>)

  predicate Descending<T>(inserts: seq<InsertAt<T>>) {
    forall i, j :: 0 <= i < j < |inserts| ==> inserts[i].line >= inserts[j].line
  }

  predicate InRange<T>(inserts: seq<InsertAt<T>>, count: nat) {
    forall i :: 0 <= i < |inserts| ==> 0 <= inserts[i].line - 1 <= count
  }

  /** All that goes in front of the original line with index `p`. */
  function BlockAt<T>(inserts: seq<InsertAt<T>>, p: nat): seq<T> {
    if inserts == [] then []
    else BlockAt(inserts[1..], p) + if inserts[0].line - 1 == p then inserts[0].lines else []
  }

  /** All insertions at once, at the original line numbers, from index `p` on. */
  function Weave<T>(lines: seq<T>, inserts: seq<InsertAt<T>>, p: nat): seq<T>
    requires p <= |lines|
    decreases |lines| - p, 1
  {
    BlockAt(inserts, p) + WeaveRest(lines, inserts, p)
  }

  function WeaveRest<T>(lines: seq<T>, inserts: seq<InsertAt<T>>, p: nat): seq<T>
    requires p <= |lines|
    decreases |lines| - p, 0
  {
    if p == |lines| then [] else [lines[p]] + Weave(lines, inserts, p + 1)
  }

  function InsertInto<T>(lines: seq<T>, ins: InsertAt<T>): seq<T>
    requires 0 <= ins.line - 1 <= |lines|
  {
    lines[..ins.line - 1] + ins.lines + lines[ins.line - 1..]
  }

  /** Lines in front of every insertion are left as they are. */
  lemma {:induction false} NoBlocks<T>(lines: seq<T>, inserts: seq<InsertAt<T>>, p: nat, q: nat)
    requires p <= q <= |lines| && forall i :: 0 <= i < |inserts| ==> inserts[i].line - 1 >= q
    ensures Weave(lines, inserts, p) == lines[p..q] + Weave(lines, inserts, q)
    decreases q - p
  {
    hide BlockAt;
    if p < q {
      BlockIsEmpty(inserts, p);
      NoBlocks(lines, inserts, p + 1, q);
      assert lines[p..q] == [lines[p]] + lines[p + 1..q];
      assert Weave(lines, inserts, p) == [lines[p]] + Weave(lines, inserts, p + 1);
      Associative([lines[p]], lines[p + 1..q], Weave(lines, inserts, q));
    } else {
      assert lines[p..q] == [];
    }
  }

  lemma {:induction false} BlockIsEmpty<T>(inserts: seq<InsertAt<T>>, p: nat)
    requires forall i :: 0 <= i < |inserts| ==> inserts[i].line - 1 != p
    ensures BlockAt(inserts, p) == []
  {
    if inserts != [] {
      BlockIsEmpty(inserts[1..], p);
    }
  }

  lemma {:induction false} BlockSnoc<T>(inserts: seq<InsertAt<T>>, ins: InsertAt<T>, p: nat)
    ensures BlockAt(inserts + [ins], p) == (if ins.line - 1 == p then ins.lines else []) + BlockAt(inserts, p)
  {
    if inserts != [] {
      BlockSnoc(inserts[1..], ins, p);
      assert (inserts + [ins])[1..] == inserts[1..] + [ins];
    } else {
      assert [ins][1..] == [];
    }
  }

  /** Behind its position one more insertion changes nothing. */
  lemma {:induction false} WeaveBehind<T>(lines: seq<T>, inserts: seq<InsertAt<T>>, ins: InsertAt<T>, p: nat)
    requires p <= |lines| && ins.line - 1 < p
    ensures Weave(lines, inserts + [ins], p) == Weave(lines, inserts, p)
    decreases |lines| - p
  {
    BlockSnoc(inserts, ins, p);
    if p < |lines| {
      WeaveBehind(lines, inserts, ins, p + 1);
    }
  }

  /** One more insertion, in front of or at the position of all that are done: what the loop does
      to the lines is what it does to the simultaneous insertion. */
  lemma InsertExtendsWeave<T>(lines: seq<T>, done: seq<InsertAt<T>>, ins: InsertAt<T>)
    requires 0 <= ins.line - 1 <= |lines| && forall i :: 0 <= i < |done| ==> done[i].line >= ins.line
    ensures |Weave(lines, done, 0)| >= ins.line - 1
    ensures InsertInto(Weave(lines, done, 0), ins) == Weave(lines, done + [ins], 0)
  {
    hide Weave, BlockAt;
    var q := ins.line - 1;
    NoBlocks(lines, done, 0, q);
    NoBlocks(lines, done + [ins], 0, q);
    WeaveAt(lines, done, ins);
    var w, front := Weave(lines, done, 0), lines[0..q];
    assert w[..q] == front && w[q..] == Weave(lines, done, q);
  }

  lemma WeaveAt<T>(lines: seq<T>, done: seq<InsertAt<T>>, ins: InsertAt<T>)
    requires 0 <= ins.line - 1 <= |lines|
    ensures Weave(lines, done + [ins], ins.line - 1) == ins.lines + Weave(lines, done, ins.line - 1)
  {
    hide BlockAt, WeaveRest;
    var q := ins.line - 1;
    BlockSnoc(done, ins, q);
    RestBehind(lines, done, ins, q);
    Associative(ins.lines, BlockAt(done, q), WeaveRest(lines, done, q));
    assert ins.line - 1 == q;
    assert BlockAt(done + [ins], q) == ins.lines + BlockAt(done, q);
  }

  lemma RestBehind<T>(lines: seq<T>, done: seq<InsertAt<T>>, ins: InsertAt<T>, q: nat)
    requires q <= |lines| && ins.line - 1 == q
    ensures WeaveRest(lines, done + [ins], q) == WeaveRest(lines, done, q)
  {
    hide Weave;
    if q < |lines| {
      WeaveBehind(lines, done, ins, q + 1);
    }
  }

  lemma Associative<T>(a: seq<T>, b: seq<T>, c: seq<T>)
    ensures (a + b) + c == a + (b + c)
  {
  }

  lemma {:induction false} WeaveGrows<T>(lines: seq<T>, inserts: seq<InsertAt<T>>, p: nat)
    requires p <= |lines|
    ensures |Weave(lines, inserts, p)| >= |lines| - p
    decreases |lines| - p
  {
    if p < |lines| {
      WeaveGrows(lines, inserts, p + 1);
    }
  }

  lemma NothingWoven<T>(lines: seq<T>)
    ensures Weave(lines, [], 0) == lines
  {
    NoBlocks<T>(lines, [], 0, |lines|);
  }

  // ----- where the lines of the file go -----

  /** What is written in front of the insertions at `p`. */
  function Front<T>(lines: seq<T>, inserts: seq<InsertAt<T>>, p: nat): seq<T>
    requires p <= |lines|
  {
    if p == 0 then [] else Front(lines, inserts, p - 1) + BlockAt(inserts, p - 1) + [lines[p - 1]]
  }

  lemma {:induction false} FrontOfWeave<T>(lines: seq<T>, inserts: seq<InsertAt<T>>, p: nat)
    requires p <= |lines|
    ensures Weave(lines, inserts, 0) == Front(lines, inserts, p) + Weave(lines, inserts, p)
  {
    hide BlockAt;
    if p > 0 {
      FrontOfWeave(lines, inserts, p - 1);
      var block, line := BlockAt(inserts, p - 1), [lines[p - 1]];
      Associative(Front(lines, inserts, p - 1), block, line + Weave(lines, inserts, p));
      Associative(Front(lines, inserts, p - 1) + block, line, Weave(lines, inserts, p));
    }
  }

  /** How many lines go in at `p` or in front of it. */
  function Shift<T>(inserts: seq<InsertAt<T>>, p: int): nat {
    if inserts == [] then 0
    else Shift(inserts[1..], p) + if inserts[0].line - 1 <= p then |inserts[0].lines| else 0
  }

  lemma {:induction false} ShiftGrows<T>(inserts: seq<InsertAt<T>>, p: nat)
    ensures Shift(inserts, p) == Shift(inserts, p - 1) + |BlockAt(inserts, p)|
  {
    if inserts != [] {
      ShiftGrows(inserts[1..], p);
    }
  }

  lemma {:induction false} NothingBefore<T>(inserts: seq<InsertAt<T>>, count: nat)
    requires InRange(inserts, count)
    ensures Shift(inserts, -1) == 0
  {
    if inserts != [] {
      NothingBefore(inserts[1..], count);
    }
  }

  lemma {:induction false} FrontSize<T>(lines: seq<T>, inserts: seq<InsertAt<T>>, p: nat)
    requires p <= |lines| && InRange(inserts, |lines|)
    ensures |Front(lines, inserts, p)| == p + Shift(inserts, p - 1)
  {
    hide BlockAt, Shift, InRange;
    if p == 0 {
      NothingBefore(inserts, |lines|);
    } else {
      FrontSize(lines, inserts, p - 1);
      ShiftGrows(inserts, p - 1);
    }
  }

  /** Each line of the file is moved down by as many lines as go in at its place or in front of it. */
  lemma LineMoves<T>(lines: seq<T>, inserts: seq<InsertAt<T>>, p: nat)
    requires p < |lines| && InRange(inserts, |lines|)
    ensures var q, w := p + Shift(inserts, p), Weave(lines, inserts, 0);
            q < |w| && w[q] == lines[p] && w[..q] == Front(lines, inserts, p) + BlockAt(inserts, p)
  {
    hide BlockAt, Front, Shift, InRange;
    FrontOfWeave(lines, inserts, p);
    FrontSize(lines, inserts, p);
    ShiftGrows(inserts, p);
    var front, block := Front(lines, inserts, p), BlockAt(inserts, p);
    Associative(front, block, [lines[p]] + Weave(lines, inserts, p + 1));
  }

  /** The bottom-up loop: it fails exactly for a line number out of range. */
  method InsertBottomUp(lines0: seq<Bytes>, inserts: seq<InsertAt<Bytes>>) returns (r: Option<seq<Bytes>>)
    requires Descending(inserts)
    ensures r == if InRange(inserts, |lines0|) then Some(Weave(lines0, inserts, 0)) else None
  {
    hide Weave;
    var lines := lines0;
    NothingWoven(lines0);
    for i := 0 to |inserts|
      invariant InRange(inserts[..i], |lines0|)
      invariant lines == Weave(lines0, inserts[..i], 0)
      invariant if i == 0 then lines == lines0 else inserts[0].line - 1 <= |lines0|
    {
      var ins := inserts[i];
      var idx := ins.line - 1;
      WeaveGrows(lines0, inserts[..i], 0);
      if idx < 0 || idx > |lines| {
        return None;
      }
      InsertExtendsWeave(lines0, inserts[..i], ins);
      assert inserts[..i + 1] == inserts[..i] + [ins];
      lines := lines[..idx] + (ins.lines + lines[idx..]);
    }
    assert inserts[..|inserts|] == inserts;
    return Some(lines);
  }

  // ----- dropping the inserted lines -----

  function Kept<T>(s: seq<T>, keep: T -> bool): seq<T> {
    if s == [] then [] else (if keep(s[0]) then [s[0]] else []) + Kept(s[1..], keep)
  }

  lemma {:induction false} KeptOfConcat<T>(a: seq<T>, b: seq<T>, keep: T -> bool)
    ensures Kept(a + b, keep) == Kept(a, keep) + Kept(b, keep)
  {
    if a == [] {
      assert a + b == b;
    } else {
      var first := if keep(a[0]) then [a[0]] else [];
      KeptOfConcat(a[1..], b, keep);
      assert (a + b)[1..] == a[1..] + b;
      assert first + (Kept(a[1..], keep) + Kept(b, keep)) == (first + Kept(a[1..], keep)) + Kept(b, keep);
    }
  }

  predicate NoneKept<T>(inserts: seq<InsertAt<T>>, keep: T -> bool) {
    forall i :: 0 <= i < |inserts| ==> Kept(inserts[i].lines, keep) == []
  }

  lemma {:induction false} BlockNotKept<T>(inserts: seq<InsertAt<T>>, p: nat, keep: T -> bool)
    requires NoneKept(inserts, keep)
    ensures Kept(BlockAt(inserts, p), keep) == []
  {
    if inserts != [] {
      BlockNotKept(inserts[1..], p, keep);
      KeptOfConcat(BlockAt(inserts[1..], p), if inserts[0].line - 1 == p then inserts[0].lines else [], keep);
    }
  }

  /** Dropping what was inserted gives the file back. */
  lemma {:induction false} DroppingRestores<T>(lines: seq<T>, inserts: seq<InsertAt<T>>, p: nat, keep: T -> bool)
    requires p <= |lines| && NoneKept(inserts, keep) && forall k :: 0 <= k < |lines| ==> keep(lines[k])
    ensures Kept(Weave(lines, inserts, p), keep) == lines[p..]
    decreases |lines| - p
  {
    BlockNotKept(inserts, p, keep);
    if p < |lines| {
      var rest := [lines[p]] + Weave(lines, inserts, p + 1);
      KeptOfConcat(BlockAt(inserts, p), rest, keep);
      assert rest[1..] == Weave(lines, inserts, p + 1);
      DroppingRestores(lines, inserts, p + 1, keep);
    } else {
      assert BlockAt(inserts, p) + [] == BlockAt(inserts, p);
    }
  }

  /** Lines with a mark that says whether they were inserted. */
  function Marked(s: seq<Bytes>, inserted: bool): seq<(Bytes, bool)> {
    seq(|s|, k requires 0 <= k < |s| => (s[k], inserted))
  }

  function MarkedInserts(inserts: seq<InsertAt<Bytes>>): seq<InsertAt<(Bytes, bool)>> {
    seq(|inserts|, k requires 0 <= k < |inserts| => InsertAt(inserts[k].line, Marked(inserts[k].lines, true)))
  }

  function Unmarked(s: seq<(Bytes, bool)>): seq<Bytes> {
    seq(|s|, k requires 0 <= k < |s| => s[k].0)
  }

  lemma UnmarkedConcat(a: seq<(Bytes, bool)>, b: seq<(Bytes, bool)>)
    ensures Unmarked(a + b) == Unmarked(a) + Unmarked(b)
  {
  }

  lemma {:induction false} MarksDoNotMatter(lines: seq<Bytes>, inserts: seq<InsertAt<Bytes>>, p: nat)
    requires p <= |lines|
    ensures Unmarked(Weave(Marked(lines, false), MarkedInserts(inserts), p)) == Weave(lines, inserts, p)
    decreases |lines| - p
  {
    hide BlockAt;
    MarkedBlock(inserts, p);
    var block, rest := BlockAt(MarkedInserts(inserts), p), WeaveRest(Marked(lines, false), MarkedInserts(inserts), p);
    UnmarkedConcat(block, rest);
    if p < |lines| {
      var later := Weave(Marked(lines, false), MarkedInserts(inserts), p + 1);
      MarksDoNotMatter(lines, inserts, p + 1);
      UnmarkedConcat([(lines[p], false)], later);
    }
  }

  lemma {:induction false} MarkedBlock(inserts: seq<InsertAt<Bytes>>, p: nat)
    ensures Unmarked(BlockAt(MarkedInserts(inserts), p)) == BlockAt(inserts, p)
  {
    if inserts != [] {
      MarkedBlock(inserts[1..], p);
      assert MarkedInserts(inserts)[1..] == MarkedInserts(inserts[1..]);
    }
  }

  lemma {:induction false} MarksKept(s: seq<Bytes>)
    ensures Kept(Marked(s, true), (m: (Bytes, bool)) => !m.1) == []
  {
    if s != [] {
      assert Marked(s, true)[1..] == Marked(s[1..], true);
      MarksKept(s[1..]);
    }
  }

  /** Every output is the marked file without its marks, and the unmarked lines of that are the file. */
  lemma InsertionOnlyAdds(lines: seq<Bytes>, inserts: seq<InsertAt<Bytes>>)
    ensures var w := Weave(Marked(lines, false), MarkedInserts(inserts), 0);
            && Unmarked(w) == Weave(lines, inserts, 0)
            && Unmarked(Kept(w, (m: (Bytes, bool)) => !m.1)) == lines
  {
    var keep := (m: (Bytes, bool)) => !m.1;
    MarksDoNotMatter(lines, inserts, 0);
    forall i | 0 <= i < |inserts| ensures Kept(MarkedInserts(inserts)[i].lines, keep) == [] {
      MarksKept(inserts[i].lines);
    }
    DroppingRestores(Marked(lines, false), MarkedInserts(inserts), 0, keep);
  }
}
