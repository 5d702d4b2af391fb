/** The trace-coverage analysis of one package (cmd/funclogmeasure/satisfy.go, satisfy_delegate.go).
    A function is reduced to its key, the four static checks on its body, and the key of the
    same-package function that its one-statement body calls, when it has such a body. */
module Satisfy {
  import opened Wrappers

  datatype Layer = DirectSlog | TraceDelegate | AutoExempt | Directive | Unsatisfied

  datatype Func = Func(name: string, directive: bool, autoExempt: bool, callsSlog: bool, usesPrimitive: bool,
                       callee: Option<string>)

  type Layers = map<string, Layer>

  predicate Covers(l: Layer) {
    l == DirectSlog || l == TraceDelegate
  }

  predicate IsThinSamePackageDelegate(f: Func, layers: Layers) {
    && f.callee.Some? && f.callee.value != f.name
    && f.callee.value in layers && Covers(layers[f.callee.value])
  }

  function ClassifyFuncLayer(f: Func, layers: Layers): Layer {
    if f.directive then Directive
    else if f.autoExempt then AutoExempt
    else if f.callsSlog then DirectSlog
    else if f.usesPrimitive then TraceDelegate
    else if IsThinSamePackageDelegate(f, layers) then TraceDelegate
    else Unsatisfied
  }

  /** The layer of a function on its own. */
  function Static(f: Func): Layer {
    ClassifyFuncLayer(f, map[])
  }

  // ----- what the layers mean -----

  /** `n` names a function that logs, or a chain of at most `k` thin calls through functions that
      are uncovered on their own leads from it to one. */
  ghost predicate Reaches(funcs: seq<Func>, n: string, k: nat)
    decreases k
  {
    exists f :: f in funcs && f.name == n &&
      (Covers(Static(f)) || (HangsOnCallee(f) && k > 0 && Reaches(funcs, f.callee.value, k - 1)))
  }

  predicate CallsOther(f: Func) {
    f.callee.Some? && f.callee.value != f.name
  }

  ghost predicate ReachesLog(funcs: seq<Func>, n: string) {
    exists k: nat :: Reaches(funcs, n, k)
  }

  /** The layer that `f` is to end in. */
  ghost function Verdict(funcs: seq<Func>, f: Func): Layer {
    if Static(f) != Unsatisfied then Static(f)
    else if HangsOnCallee(f) && ReachesLog(funcs, f.callee.value) then TraceDelegate
    else Unsatisfied
  }

  /** A function whose layer hangs on its callee's. */
  predicate HangsOnCallee(f: Func) {
    Static(f) == Unsatisfied && CallsOther(f)
  }

  /** The keys that some layer hangs on. */
  ghost function CalledKeys(funcs: seq<Func>): set<string> {
    set f | f in funcs && HangsOnCallee(f) :: f.callee.value
  }

  /** Functions that share a key on which some layer hangs are alike; so it is when such a key
      belongs to one function. Keys that nothing calls, as that of `init`, may be shared freely. */
  ghost predicate CalledKeysAgree(funcs: seq<Func>) {
    forall f, g :: f in funcs && g in funcs && f.name == g.name && f.name in CalledKeys(funcs) ==>
      Static(f) == Static(g) && (Static(f) == Unsatisfied ==> f.callee == g.callee)
  }

  /** Functions that share a key are to end in the same layer. */
  ghost predicate VerdictsAgree(funcs: seq<Func>) {
    forall f, g :: f in funcs && g in funcs && f.name == g.name ==> Verdict(funcs, f) == Verdict(funcs, g)
  }

  ghost predicate DistinctNames(funcs: seq<Func>) {
    forall i, j :: 0 <= i < j < |funcs| ==> funcs[i].name != funcs[j].name
  }

  lemma DistinctNamesSuffice(funcs: seq<Func>)
    requires DistinctNames(funcs)
    ensures CalledKeysAgree(funcs) && VerdictsAgree(funcs)
  {
    forall f, g | f in funcs && g in funcs && f.name == g.name ensures f == g {
      var i :| 0 <= i < |funcs| && funcs[i] == f;
      var j :| 0 <= j < |funcs| && funcs[j] == g;
      assert funcs[i].name == funcs[j].name;
    }
  }

  /** Every function already has the layer it would be given. */
  ghost predicate Stable(funcs: seq<Func>, c: Layers) {
    forall f :: f in funcs ==> f.name in c && c[f.name] == ClassifyFuncLayer(f, c)
  }

  /** Whatever is stable covers all that reaches a log call: the verdicts are the least fixpoint. */
  lemma {:induction false} StableCoversReaching(funcs: seq<Func>, c: Layers, n: string, k: nat)
    requires Stable(funcs, c) && Reaches(funcs, n, k)
    ensures n in c && Covers(c[n])
    decreases k
  {
    var f :| f in funcs && f.name == n &&
      (Covers(Static(f)) || (HangsOnCallee(f) && k > 0 && Reaches(funcs, f.callee.value, k - 1)));
    if !Covers(Static(f)) {
      StableCoversReaching(funcs, c, f.callee.value, k - 1);
    }
  }

  lemma VerdictsAreLeast(funcs: seq<Func>, c: Layers, f: Func)
    requires Stable(funcs, c) && f in funcs && Covers(Verdict(funcs, f))
    ensures f.name in c && Covers(c[f.name])
  {
    if Static(f) == Unsatisfied {
      var k: nat :| Reaches(funcs, f.callee.value, k);
      StableCoversReaching(funcs, c, f.callee.value, k);
    }
  }

  lemma {:induction false} ReachesInAnyOrder(funcs: seq<Func>, other: seq<Func>, n: string, k: nat)
    requires (forall f :: f in funcs ==> f in other) && Reaches(funcs, n, k)
    ensures Reaches(other, n, k)
    decreases k
  {
    var f :| f in funcs && f.name == n &&
      (Covers(Static(f)) || (HangsOnCallee(f) && k > 0 && Reaches(funcs, f.callee.value, k - 1)));
    assert f in other;
    if !Covers(Static(f)) {
      ReachesInAnyOrder(funcs, other, f.callee.value, k - 1);
    }
  }

  /** The order of the functions makes no difference. */
  lemma OrderDoesNotMatter(funcs: seq<Func>, other: seq<Func>, f: Func)
    requires forall g :: g in funcs <==> g in other
    ensures Verdict(funcs, f) == Verdict(other, f)
  {
    if CallsOther(f) {
      var n := f.callee.value;
      if k: nat :| Reaches(funcs, n, k) { ReachesInAnyOrder(funcs, other, n, k); }
      if k: nat :| Reaches(other, n, k) { ReachesInAnyOrder(other, funcs, n, k); }
    }
  }

  /** Uncovered functions that call only each other, or nothing in the package. */
  ghost predicate ClosedUncovered(funcs: seq<Func>, names: set<string>) {
    forall f :: f in funcs && f.name in names ==>
      Static(f) == Unsatisfied &&
      (f.callee.Some? ==> f.callee.value in names || forall g :: g in funcs ==> g.name != f.callee.value)
  }

  lemma {:induction false} ClosedNeverReaches(funcs: seq<Func>, names: set<string>, n: string, k: nat)
    requires ClosedUncovered(funcs, names) && n in names
    ensures !Reaches(funcs, n, k)
    decreases k
  {
    if Reaches(funcs, n, k) {
      var f :| f in funcs && f.name == n &&
        (Covers(Static(f)) || (HangsOnCallee(f) && k > 0 && Reaches(funcs, f.callee.value, k - 1)));
      if f.callee.value in names {
        ClosedNeverReaches(funcs, names, f.callee.value, k - 1);
      }
    }
  }

  /** A pure cycle of delegates stays unsatisfied. */
  lemma DelegateCyclesStayUnsatisfied(funcs: seq<Func>, names: set<string>, f: Func)
    requires ClosedUncovered(funcs, names) && f in funcs && f.name in names
    ensures Verdict(funcs, f) == Unsatisfied
  {
    if CallsOther(f) && ReachesLog(funcs, f.callee.value) {
      var k: nat :| Reaches(funcs, f.callee.value, k);
      if f.callee.value in names {
        ClosedNeverReaches(funcs, names, f.callee.value, k);
      }
    }
  }

  // ----- one visit of the sweep -----

  /** Every entry is a static layer, or rests on a callee that is covered and reaches a log call. */
  ghost predicate Justified(funcs: seq<Func>, c: Layers, n: string)
    requires n in c
  {
    exists f :: f in funcs && f.name == n && Justifies(funcs, c, f)
  }

  ghost predicate Justifies(funcs: seq<Func>, c: Layers, f: Func)
    requires f.name in c
  {
    || c[f.name] == Static(f)
    || (Static(f) == Unsatisfied && c[f.name] == TraceDelegate && IsThinSamePackageDelegate(f, c)
        && ReachesLog(funcs, f.callee.value))
  }

  ghost predicate Sound(funcs: seq<Func>, c: Layers) {
    forall n :: n in c ==> Justified(funcs, c, n)
  }

  lemma CoveredReaches(funcs: seq<Func>, c: Layers, n: string)
    requires Sound(funcs, c) && n in c && Covers(c[n])
    ensures ReachesLog(funcs, n)
  {
    assert Justified(funcs, c, n);
    var f :| f in funcs && f.name == n && Justifies(funcs, c, f);
    if c[n] == Static(f) {
      assert Reaches(funcs, n, 0);
    } else {
      var k: nat :| Reaches(funcs, f.callee.value, k);
      assert Reaches(funcs, n, k + 1);
    }
  }

  function Visited(c: Layers, f: Func): Layers {
    c[f.name := ClassifyFuncLayer(f, c)]
  }

  predicate VisitChanges(c: Layers, f: Func) {
    f.name !in c || c[f.name] != ClassifyFuncLayer(f, c)
  }

  /** A visit to a called key keeps its entry, adds it, or turns it from unsatisfied into a delegate. */
  lemma VisitOnlyRises(funcs: seq<Func>, c: Layers, f: Func)
    requires CalledKeysAgree(funcs) && Sound(funcs, c) && f in funcs && f.name in CalledKeys(funcs)
    requires f.name in c && VisitChanges(c, f)
    ensures c[f.name] == Unsatisfied && ClassifyFuncLayer(f, c) == TraceDelegate
  {
    assert Justified(funcs, c, f.name);
  }

  /** An entry that rests on its callee still does after a visit to the callee. */
  lemma JustifiedStays(funcs: seq<Func>, c: Layers, f: Func, n: string)
    requires CalledKeysAgree(funcs) && Sound(funcs, c) && f in funcs && n in c && n != f.name
    ensures Justified(funcs, Visited(c, f), n)
  {
    hide CalledKeysAgree, ReachesLog, ClassifyFuncLayer;
    assert Justified(funcs, c, n);
    var g :| g in funcs && g.name == n && Justifies(funcs, c, g);
    if c[n] != Static(g) && g.callee.value == f.name {
      assert HangsOnCallee(g) && f.name in CalledKeys(funcs);
      if VisitChanges(c, f) { VisitOnlyRises(funcs, c, f); }
    }
    assert Justifies(funcs, Visited(c, f), g);
  }

  lemma VisitKeepsSound(funcs: seq<Func>, c: Layers, f: Func)
    requires CalledKeysAgree(funcs) && Sound(funcs, c) && f in funcs
    ensures Sound(funcs, Visited(c, f))
  {
    hide CalledKeysAgree, ReachesLog;
    var c' := Visited(c, f);
    forall n | n in c' ensures Justified(funcs, c', n) {
      if n == f.name {
        if IsThinSamePackageDelegate(f, c) { CoveredReaches(funcs, c, f.callee.value); }
        assert Justifies(funcs, c', f);
      } else {
        JustifiedStays(funcs, c, f, n);
      }
    }
  }

  // ----- progress -----

  ghost function Names(funcs: seq<Func>): set<string> {
    set f | f in funcs :: f.name
  }

  ghost function Satisfied(c: Layers): set<string> {
    set n | n in c && c[n] != Unsatisfied
  }

  /** How much the entries of the called keys can still rise. */
  ghost function Remaining(funcs: seq<Func>, c: Layers): (r: nat) {
    var called := CalledKeys(funcs);
    SubsetIsSmaller(c.Keys * called, called);
    SubsetIsSmaller(Satisfied(c) * called, called);
    2 * |called| - |c.Keys * called| - |Satisfied(c) * called|
  }

  /** Called keys have the same entries in both. */
  ghost predicate SameOnCalled(funcs: seq<Func>, c: Layers, d: Layers) {
    forall n :: n in CalledKeys(funcs) ==> (n in c <==> n in d) && (n in c ==> c[n] == d[n])
  }

  /** A layer depends on the entries of called keys alone. */
  lemma SameOnCalledSameLayer(funcs: seq<Func>, c: Layers, d: Layers, f: Func)
    requires SameOnCalled(funcs, c, d) && f in funcs
    ensures ClassifyFuncLayer(f, c) == ClassifyFuncLayer(f, d)
  {
    if HangsOnCallee(f) { assert f.callee.value in CalledKeys(funcs); }
  }

  lemma VisitMakesProgress(funcs: seq<Func>, c: Layers, f: Func)
    requires CalledKeysAgree(funcs) && Sound(funcs, c) && f in funcs
    ensures if f.name in CalledKeys(funcs) && VisitChanges(c, f) then
              Remaining(funcs, Visited(c, f)) < Remaining(funcs, c)
            else Remaining(funcs, Visited(c, f)) == Remaining(funcs, c) && SameOnCalled(funcs, c, Visited(c, f))
  {
    hide Sound, CalledKeysAgree, ClassifyFuncLayer, CalledKeys, Remaining;
    if f.name !in CalledKeys(funcs) || !VisitChanges(c, f) {
      RemainingStays(funcs, c, Visited(c, f));
    } else {
      if f.name in c { VisitOnlyRises(funcs, c, f); }
      RemainingFalls(funcs, c, f.name, ClassifyFuncLayer(f, c));
    }
  }

  lemma RemainingStays(funcs: seq<Func>, c: Layers, d: Layers)
    requires SameOnCalled(funcs, c, d)
    ensures Remaining(funcs, d) == Remaining(funcs, c)
  {
    hide CalledKeys;
    var called := CalledKeys(funcs);
    assert c.Keys * called == d.Keys * called;
    assert Satisfied(c) * called == Satisfied(d) * called;
  }

  lemma RemainingFalls(funcs: seq<Func>, c: Layers, n: string, layer: Layer)
    requires n in CalledKeys(funcs) && (n in c ==> c[n] == Unsatisfied && layer != Unsatisfied)
    ensures Remaining(funcs, c[n := layer]) < Remaining(funcs, c)
  {
    hide CalledKeys;
    var d, called := c[n := layer], CalledKeys(funcs);
    if n in c {
      assert d.Keys * called == c.Keys * called;
      assert Satisfied(d) * called == Satisfied(c) * called + {n};
    } else {
      assert d.Keys * called == c.Keys * called + {n};
      SubsetIsSmaller(Satisfied(c) * called, Satisfied(d) * called);
    }
  }

  lemma NothingIsSound(funcs: seq<Func>)
    ensures Sound(funcs, map[])
  {
  }

  /** Sound and stable layers are the verdicts. */
  lemma SoundAndStable(funcs: seq<Func>, c: Layers)
    requires Sound(funcs, c) && Stable(funcs, c)
    ensures c.Keys == Names(funcs) && forall f :: f in funcs ==> c[f.name] == Verdict(funcs, f)
  {
    forall n | n in c ensures n in Names(funcs) {
      assert Justified(funcs, c, n);
    }
    forall f | f in funcs ensures c[f.name] == Verdict(funcs, f) {
      if Covers(Verdict(funcs, f)) { VerdictsAreLeast(funcs, c, f); }
      if IsThinSamePackageDelegate(f, c) { CoveredReaches(funcs, c, f.callee.value); }
    }
  }

  // ----- sweeps -----

  function Sweep(funcs: seq<Func>, c: Layers): Layers {
    if funcs == [] then c else Sweep(funcs[1..], Visited(c, funcs[0]))
  }

  predicate SweepChanges(funcs: seq<Func>, c: Layers) {
    funcs != [] && (VisitChanges(c, funcs[0]) || SweepChanges(funcs[1..], Visited(c, funcs[0])))
  }

  lemma {:induction false} QuietMeansStable(funcs: seq<Func>, c: Layers)
    requires !SweepChanges(funcs, c)
    ensures Stable(funcs, c) && Sweep(funcs, c) == c
  {
    if funcs != [] {
      assert Visited(c, funcs[0]) == c;
      QuietMeansStable(funcs[1..], c);
      assert funcs == [funcs[0]] + funcs[1..];
    }
  }

  lemma {:induction false} StableMeansQuiet(funcs: seq<Func>, c: Layers)
    requires Stable(funcs, c)
    ensures !SweepChanges(funcs, c)
  {
    if funcs != [] {
      assert Visited(c, funcs[0]) == c;
      StableMeansQuiet(funcs[1..], c);
    }
  }

  /** Some function of `funcs` gives `n` the entry in `d` that it would get from `c`. */
  ghost predicate GivenBy(funcs: seq<Func>, c: Layers, d: Layers, n: string) {
    exists g :: g in funcs && g.name == n && n in d && d[n] == ClassifyFuncLayer(g, c)
  }

  lemma {:induction false} SweepLeavesOthers(funcs: seq<Func>, c: Layers, n: string)
    requires n in c && forall f :: f in funcs ==> f.name != n
    ensures n in Sweep(funcs, c) && Sweep(funcs, c)[n] == c[n]
  {
    if funcs != [] {
      assert funcs[0] in funcs;
      SweepLeavesOthers(funcs[1..], Visited(c, funcs[0]), n);
    }
  }

  /** A sweep keeps the layers sound and never sets the called keys back. When it leaves them as they
      are, they are stable, and every key gets what one of its functions would be given before. */
  lemma {:induction false} SweepMakesProgress(all: seq<Func>, funcs: seq<Func>, c: Layers)
    requires CalledKeysAgree(all) && Sound(all, c) && forall f :: f in funcs ==> f in all
    ensures Sound(all, Sweep(funcs, c)) && Remaining(all, Sweep(funcs, c)) <= Remaining(all, c)
    ensures Remaining(all, Sweep(funcs, c)) == Remaining(all, c) ==>
              && SameOnCalled(all, c, Sweep(funcs, c))
              && (forall f :: f in funcs && f.name in CalledKeys(all) ==> !VisitChanges(c, f))
              && (forall f :: f in funcs ==> GivenBy(funcs, c, Sweep(funcs, c), f.name))
  {
    hide CalledKeysAgree, Sound, Remaining, CalledKeys, ClassifyFuncLayer, SameOnCalled, GivenBy, VisitChanges;
    if funcs == [] {
      SameAsItself(all, c);
    } else {
      var f0, rest, c1 := funcs[0], funcs[1..], Visited(c, funcs[0]);
      VisitKeepsSound(all, c, f0);
      VisitMakesProgress(all, c, f0);
      SweepMakesProgress(all, rest, c1);
      var d := Sweep(rest, c1);
      if Remaining(all, d) == Remaining(all, c) {
        SameTransitive(all, c, c1, d);
        forall f | f in funcs && f.name in CalledKeys(all) ensures !VisitChanges(c, f) {
          if f in rest { SameOnCalledSameChange(all, c, c1, f); }
        }
        forall f | f in funcs ensures GivenBy(funcs, c, d, f.name) {
          SweptIsGiven(all, funcs, c, f);
        }
      }
    }
  }

  lemma SameAsItself(all: seq<Func>, c: Layers)
    ensures SameOnCalled(all, c, c)
  {
  }

  lemma SameTransitive(all: seq<Func>, c: Layers, d: Layers, e: Layers)
    requires SameOnCalled(all, c, d) && SameOnCalled(all, d, e)
    ensures SameOnCalled(all, c, e)
  {
  }

  lemma SameOnCalledSameChange(all: seq<Func>, c: Layers, d: Layers, f: Func)
    requires SameOnCalled(all, c, d) && f in all && f.name in CalledKeys(all)
    ensures VisitChanges(c, f) == VisitChanges(d, f)
  {
    SameOnCalledSameLayer(all, c, d, f);
  }

  lemma SweptIsGiven(all: seq<Func>, funcs: seq<Func>, c: Layers, f: Func)
    requires funcs != [] && f in funcs && (forall g :: g in funcs ==> g in all)
    requires SameOnCalled(all, c, Visited(c, funcs[0]))
    requires forall g :: g in funcs[1..] ==> GivenBy(funcs[1..], Visited(c, funcs[0]), Sweep(funcs, c), g.name)
    ensures GivenBy(funcs, c, Sweep(funcs, c), f.name)
  {
    hide ClassifyFuncLayer, SameOnCalled;
    var f0, rest, c1 := funcs[0], funcs[1..], Visited(c, funcs[0]);
    if g :| g in rest && g.name == f.name {
      assert GivenBy(rest, c1, Sweep(funcs, c), g.name);
      var h :| h in rest && h.name == f.name && Sweep(funcs, c)[f.name] == ClassifyFuncLayer(h, c1);
      SameOnCalledSameLayer(all, c, c1, h);
      assert h in funcs;
    } else {
      assert f == f0;
      SweepLeavesOthers(rest, c1, f.name);
      assert f0 in funcs;
    }
  }

  /** The called keys are stable, so every layer that a visit would now give is the verdict. */
  lemma CalledStableGivesVerdicts(funcs: seq<Func>, c: Layers, f: Func)
    requires Sound(funcs, c) && f in funcs
    requires forall g :: g in funcs && g.name in CalledKeys(funcs) ==> !VisitChanges(c, g)
    ensures ClassifyFuncLayer(f, c) == Verdict(funcs, f)
  {
    if HangsOnCallee(f) {
      var n := f.callee.value;
      assert n in CalledKeys(funcs);
      if IsThinSamePackageDelegate(f, c) { CoveredReaches(funcs, c, n); }
      if k: nat :| Reaches(funcs, n, k) { CalledStableCovers(funcs, c, n, k); }
    }
  }

  lemma {:induction false} CalledStableCovers(funcs: seq<Func>, c: Layers, n: string, k: nat)
    requires forall g :: g in funcs && g.name in CalledKeys(funcs) ==> !VisitChanges(c, g)
    requires n in CalledKeys(funcs) && Reaches(funcs, n, k)
    ensures n in c && Covers(c[n])
    decreases k
  {
    var f :| f in funcs && f.name == n &&
      (Covers(Static(f)) || (HangsOnCallee(f) && k > 0 && Reaches(funcs, f.callee.value, k - 1)));
    if !Covers(Static(f)) {
      assert f.callee.value in CalledKeys(funcs);
      CalledStableCovers(funcs, c, f.callee.value, k - 1);
    }
  }

  /** Every function has its verdict. */
  ghost predicate Final(funcs: seq<Func>, c: Layers) {
    forall f :: f in funcs ==> f.name in c && c[f.name] == Verdict(funcs, f)
  }

  /** A sweep that does not raise a called key ends with the verdicts. */
  lemma SweepEndsFinal(funcs: seq<Func>, c: Layers)
    requires CalledKeysAgree(funcs) && VerdictsAgree(funcs) && Sound(funcs, c)
    requires Remaining(funcs, Sweep(funcs, c)) == Remaining(funcs, c)
    ensures Final(funcs, Sweep(funcs, c))
  {
    hide Sound, Remaining, CalledKeysAgree, Verdict, ClassifyFuncLayer, VisitChanges;
    SweepMakesProgress(funcs, funcs, c);
    var d := Sweep(funcs, c);
    forall f | f in funcs ensures f.name in d && d[f.name] == Verdict(funcs, f) {
      assert GivenBy(funcs, c, d, f.name);
      var g :| g in funcs && g.name == f.name && f.name in d && d[f.name] == ClassifyFuncLayer(g, c);
      CalledStableGivesVerdicts(funcs, c, g);
    }
  }

  lemma FinalIsQuiet(funcs: seq<Func>, c: Layers)
    requires Sound(funcs, c) && Final(funcs, c)
    ensures !SweepChanges(funcs, c)
  {
    forall f | f in funcs ensures c[f.name] == ClassifyFuncLayer(f, c) {
      if HangsOnCallee(f) {
        var n := f.callee.value;
        if IsThinSamePackageDelegate(f, c) { CoveredReaches(funcs, c, n); }
        if k: nat :| Reaches(funcs, n, k) { FinalCovers(funcs, c, n, k); }
      }
    }
    StableMeansQuiet(funcs, c);
  }

  lemma FinalCovers(funcs: seq<Func>, c: Layers, n: string, k: nat)
    requires Final(funcs, c) && Reaches(funcs, n, k)
    ensures n in c && Covers(c[n])
  {
    var f :| f in funcs && f.name == n &&
      (Covers(Static(f)) || (HangsOnCallee(f) && k > 0 && Reaches(funcs, f.callee.value, k - 1)));
    if !Covers(Static(f)) { assert ReachesLog(funcs, f.callee.value); }
  }

  // ----- the analysis -----

  class PkgSatisfyCache {
    var layers: map<string, Layers>

    constructor ()
      ensures layers == map[]
    {
      layers := map[];
    }

    function Package(pkgPath: string): Layers
      reads this
    {
      if pkgPath in layers then layers[pkgPath] else map[]
    }

    method Set(pkgPath: string, funcName: string, layer: Layer)
      modifies this
      ensures Package(pkgPath) == old(Package(pkgPath))[funcName := layer]
      ensures layers.Keys == old(layers.Keys) + {pkgPath}
      ensures forall p :: p in old(layers) && p != pkgPath ==> layers[p] == old(layers[p])
    {
      if pkgPath !in layers {
        layers := layers[pkgPath := map[]];
      }
      layers := layers[pkgPath := layers[pkgPath][funcName := layer]];
    }
  }

  /** Sweeps until nothing changes. When shared called keys are alike it ends if functions that share
      a key have one verdict, and then with every function's verdict. */
  method AnalyzePackageSatisfaction(pkgPath: string, funcs: seq<Func>, cache: PkgSatisfyCache) returns (out: Layers)
    requires CalledKeysAgree(funcs) && VerdictsAgree(funcs) && pkgPath !in cache.layers
    modifies cache
    ensures out.Keys == Names(funcs)
    ensures forall f :: f in funcs ==> out[f.name] == Verdict(funcs, f)
    ensures cache.Package(pkgPath) == out
    ensures forall p :: p in old(cache.layers) ==> p in cache.layers && cache.layers[p] == old(cache.layers[p])
  {
    hide Sound, Verdict, CalledKeysAgree, VerdictsAgree, Remaining, ClassifyFuncLayer, Names, Final;
    NothingIsSound(funcs);
    out := map[];
    while true
      invariant Sound(funcs, out) && cache.Package(pkgPath) == out
      invariant forall p :: p in old(cache.layers) ==> p in cache.layers && cache.layers[p] == old(cache.layers[p])
      decreases Remaining(funcs, out), !Final(funcs, out)
    {
      var changed := false;
      ghost var start := out;
      for i := 0 to |funcs|
        invariant cache.Package(pkgPath) == out
        invariant forall p :: p in old(cache.layers) ==> p in cache.layers && cache.layers[p] == old(cache.layers[p])
        invariant Sweep(funcs, start) == Sweep(funcs[i..], out)
        invariant SweepChanges(funcs, start) == (changed || SweepChanges(funcs[i..], out))
      {
        var f := funcs[i];
        assert funcs[i..][1..] == funcs[i + 1..];
        var layer := ClassifyFuncLayer(f, cache.Package(pkgPath));
        if f.name !in cache.Package(pkgPath) || cache.Package(pkgPath)[f.name] != layer {
          changed := true;
        }
        out := out[f.name := layer];
        cache.Set(pkgPath, f.name, layer);
      }
      if !changed {
        QuietMeansStable(funcs, start);
        break;
      }
      SweepMakesProgress(funcs, funcs, start);
      if Final(funcs, start) {
        FinalIsQuiet(funcs, start);
      }
      if Remaining(funcs, out) == Remaining(funcs, start) {
        SweepEndsFinal(funcs, start);
      }
    }
    SoundAndStable(funcs, out);
  }

  // ----- when the sweeps end -----

  function Swept(funcs: seq<Func>, times: nat): Layers {
    if times == 0 then map[] else Sweep(funcs, Swept(funcs, times - 1))
  }

  /** The loop ends: some sweep of it changes nothing. */
  ghost predicate Settles(funcs: seq<Func>) {
    exists times: nat :: !SweepChanges(funcs, Swept(funcs, times))
  }

  lemma {:induction false} SweptIsSound(funcs: seq<Func>, times: nat)
    requires CalledKeysAgree(funcs)
    ensures Sound(funcs, Swept(funcs, times))
  {
    if times > 0 {
      SweptIsSound(funcs, times - 1);
      SweepMakesProgress(funcs, funcs, Swept(funcs, times - 1));
    }
  }

  lemma {:induction false} AgreeingSettles(funcs: seq<Func>, times: nat)
    requires CalledKeysAgree(funcs) && VerdictsAgree(funcs)
    ensures Settles(funcs)
    decreases Remaining(funcs, Swept(funcs, times)), !Final(funcs, Swept(funcs, times))
  {
    hide Remaining, CalledKeysAgree, VerdictsAgree, Final, SweepChanges, Sweep;
    var c := Swept(funcs, times);
    SweptIsSound(funcs, times);
    if SweepChanges(funcs, c) {
      assert Swept(funcs, times + 1) == Sweep(funcs, c);
      SweepMakesProgress(funcs, funcs, c);
      if Final(funcs, c) { FinalIsQuiet(funcs, c); }
      if Remaining(funcs, Sweep(funcs, c)) == Remaining(funcs, c) { SweepEndsFinal(funcs, c); }
      AgreeingSettles(funcs, times + 1);
    }
  }

  /** From sound layers a sweep over functions with one key and two verdicts always reports a change. */
  lemma DisagreementNeverQuiet(funcs: seq<Func>, f: Func, g: Func, c: Layers)
    requires Sound(funcs, c) && f in funcs && g in funcs
    requires f.name == g.name && Verdict(funcs, f) != Verdict(funcs, g)
    ensures SweepChanges(funcs, c)
  {
    if !SweepChanges(funcs, c) {
      QuietMeansStable(funcs, c);
      SoundAndStable(funcs, c);
    }
  }

  /** When shared called keys are alike, the loop ends exactly if functions that share a key have
      one verdict. This covers every package in which only keys like `init` are shared. */
  lemma SettlesExactly(funcs: seq<Func>)
    requires CalledKeysAgree(funcs)
    ensures Settles(funcs) <==> VerdictsAgree(funcs)
  {
    hide CalledKeysAgree, Verdict, SweepChanges;
    if VerdictsAgree(funcs) {
      AgreeingSettles(funcs, 0);
    } else {
      var f, g :| f in funcs && g in funcs && f.name == g.name && Verdict(funcs, f) != Verdict(funcs, g);
      forall times: nat ensures SweepChanges(funcs, Swept(funcs, times)) {
        SweptIsSound(funcs, times);
        DisagreementNeverQuiet(funcs, f, g, Swept(funcs, times));
      }
    }
  }

  /** Two functions with one key and static layers that nothing can reconcile. */
  ghost predicate Clash(f: Func, g: Func) {
    f.name == g.name && Static(f) != Static(g) && Static(f) != Unsatisfied &&
    (Static(g) != Unsatisfied || g.callee.None? || Static(f) != TraceDelegate)
  }

  /** With such a pair every sweep from any layers reports a change, whatever the other keys are. */
  lemma ClashNeverSettles(funcs: seq<Func>, f: Func, g: Func, c: Layers)
    requires f in funcs && g in funcs && Clash(f, g)
    ensures SweepChanges(funcs, c)
  {
    if !SweepChanges(funcs, c) {
      QuietMeansStable(funcs, c);
    }
  }

  // ----- where the order decides -----

  function Bare(name: string, callsSlog: bool, callee: Option<string>): Func {
    Func(name, false, false, callsSlog, false, callee)
  }

  const LOGS := Bare("m", true, None)
  const FIRST := Bare("n", false, Some("m"))
  const SECOND := Bare("n", false, Some("k"))
  const BACK := Bare("k", false, Some("n"))

  lemma SweepOfFour(a: Func, b: Func, c: Func, d: Func, l: Layers)
    ensures var l1 := Visited(l, a); var l2 := Visited(l1, b); var l3 := Visited(l2, c);
            && Sweep([a, b, c, d], l) == Visited(l3, d)
            && (SweepChanges([a, b, c, d], l) <==>
                  VisitChanges(l, a) || VisitChanges(l1, b) || VisitChanges(l2, c) || VisitChanges(l3, d))
  {
    hide VisitChanges, Visited;
    var l1 := Visited(l, a);
    var l2 := Visited(l1, b);
    var l3 := Visited(l2, c);
    assert [a, b, c, d][1..] == [b, c, d] && [b, c, d][1..] == [c, d] && [c, d][1..] == [d] && [d][1..] == [];
    assert Sweep([d], l3) == Visited(l3, d);
    assert Sweep([c, d], l2) == Sweep([d], l3);
    assert Sweep([b, c, d], l1) == Sweep([c, d], l2);
    assert SweepChanges([d], l3) == VisitChanges(l3, d);
    assert SweepChanges([c, d], l2) == (VisitChanges(l2, c) || SweepChanges([d], l3));
    assert SweepChanges([b, c, d], l1) == (VisitChanges(l1, b) || SweepChanges([c, d], l2));
  }

  lemma {:induction false} BadOrderRepeats(times: nat)
    ensures times > 0 ==>
              Swept([LOGS, FIRST, SECOND, BACK], times)
              == map["m" := DirectSlog, "n" := Unsatisfied, "k" := Unsatisfied]
    ensures SweepChanges([LOGS, FIRST, SECOND, BACK], Swept([LOGS, FIRST, SECOND, BACK], times))
  {
    if times > 0 {
      BadOrderRepeats(times - 1);
      SweepOfFour(LOGS, FIRST, SECOND, BACK, Swept([LOGS, FIRST, SECOND, BACK], times - 1));
    }
    SweepOfFour(LOGS, FIRST, SECOND, BACK, Swept([LOGS, FIRST, SECOND, BACK], times));
  }

  /** When functions that differ share a called key there is no condition on the functions alone: the
      same four end in one order and go on for ever in another. */
  lemma OrderDecidesElsewhere() returns (ends: seq<Func>, goesOn: seq<Func>)
    ensures (forall f :: f in ends <==> f in goesOn) && Settles(ends) && !Settles(goesOn)
  {
    ends, goesOn := [LOGS, FIRST, BACK, SECOND], [LOGS, FIRST, SECOND, BACK];
    SweepOfFour(LOGS, FIRST, BACK, SECOND, map[]);
    assert Swept(ends, 0) == map[];
    var l := Swept(ends, 1);
    assert l == map["m" := DirectSlog, "n" := TraceDelegate, "k" := TraceDelegate];
    SweepOfFour(LOGS, FIRST, BACK, SECOND, l);
    assert !SweepChanges(ends, Swept(ends, 1));
    forall times: nat ensures SweepChanges(goesOn, Swept(goesOn, times)) {
      BadOrderRepeats(times);
    }
  }
}
