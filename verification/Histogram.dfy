/** The request-duration quantiles (internal/systemhealth/snapshot.go), over real numbers. */
module Histogram {
  import opened Wrappers

  datatype Bucket = Bucket(upperBound: real, cumulative: nat)

  /** One series, or all of them merged. */
  datatype Histogram = Histogram(count: nat, buckets: seq<Bucket>)

  // ----- sort.Float64s -----

  predicate Sorted(s: seq<real>) {
    forall i, j :: 0 <= i < j < |s| ==> s[i] <= s[j]
  }

  /** Where `x` goes: behind the smaller elements at the front. */
  function Place(x: real, s: seq<real>): (p: nat)
    ensures p <= |s| && (forall k :: 0 <= k < p ==> s[k] < x) && (p < |s| ==> x <= s[p])
  {
    if s == [] || x <= s[0] then 0 else 1 + Place(x, s[1..])
  }

  function Insert(x: real, s: seq<real>): (r: seq<real>)
    ensures |r| == |s| + 1
    ensures forall k :: 0 <= k < |r| ==>
              r[k] == if k < Place(x, s) then s[k] else if k == Place(x, s) then x else s[k - 1]
  {
    s[..Place(x, s)] + [x] + s[Place(x, s)..]
  }

  lemma InsertKeepsOrder(x: real, s: seq<real>)
    requires Sorted(s)
    ensures Sorted(Insert(x, s))
  {
    var p, r := Place(x, s), Insert(x, s);
    forall i, j | 0 <= i < j < |r| ensures r[i] <= r[j] {
      if i < p {
        assert j > p ==> s[i] <= s[j - 1];
      } else if i == p {
        assert s[p] <= s[j - 1];
      } else {
        assert s[i - 1] <= s[j - 1];
      }
    }
  }

  lemma InsertKeepsContents(x: real, s: seq<real>)
    ensures multiset(Insert(x, s)) == multiset(s) + multiset{x}
  {
    assert s == s[..Place(x, s)] + s[Place(x, s)..];
  }

  function SortFloat64s(s: seq<real>): (r: seq<real>)
    ensures |r| == |s|
  {
    if s == [] then [] else Insert(s[0], SortFloat64s(s[1..]))
  }

  lemma {:induction false} SortSorts(s: seq<real>)
    ensures Sorted(SortFloat64s(s)) && multiset(SortFloat64s(s)) == multiset(s)
  {
    if s != [] {
      SortSorts(s[1..]);
      InsertKeepsOrder(s[0], SortFloat64s(s[1..]));
      InsertKeepsContents(s[0], SortFloat64s(s[1..]));
      assert s == [s[0]] + s[1..];
    }
  }

  predicate Distinct(s: seq<real>) {
    forall i, j :: 0 <= i < j < |s| ==> s[i] != s[j]
  }

  /** Sorting different numbers puts them in strict order. */
  lemma SortingDistinct(s: seq<real>)
    requires Distinct(s)
    ensures Increasing(SortFloat64s(s)) && forall x :: x in SortFloat64s(s) <==> x in s
  {
    hide SortFloat64s;
    var r := SortFloat64s(s);
    SortSorts(s);
    forall x ensures x in r <==> x in s {
      assert x in multiset(r) <==> x in multiset(s);
    }
    forall i, j | 0 <= i < j < |r| ensures r[i] < r[j] {
      DistinctCounts(s, r[i]);
      if r[i] == r[j] { TwiceCounts(r, i, j); }
    }
  }

  lemma {:induction false} DistinctCounts(s: seq<real>, x: real)
    requires Distinct(s)
    ensures multiset(s)[x] <= 1
  {
    if s != [] {
      DistinctCounts(s[1..], x);
      assert s == [s[0]] + s[1..] && s[0] !in s[1..];
    }
  }

  lemma TwiceCounts(s: seq<real>, i: nat, j: nat)
    requires i < j < |s| && s[i] == s[j]
    ensures multiset(s)[s[i]] >= 2
  {
    assert s == s[..i] + [s[i]] + s[i + 1..j] + [s[j]] + s[j + 1..];
  }

  // ----- counting observations -----

  /** How many observations a bucket with upper bound `v` has counted. */
  function CountAtMost(obs: seq<real>, v: real): (n: nat)
    ensures n <= |obs|
  {
    if obs == [] then 0 else (if obs[0] <= v then 1 else 0) + CountAtMost(obs[1..], v)
  }

  lemma {:induction false} CountOfConcat(a: seq<real>, b: seq<real>, v: real)
    ensures CountAtMost(a + b, v) == CountAtMost(a, v) + CountAtMost(b, v)
  {
    if a == [] {
      assert a + b == b;
    } else {
      assert (a + b)[1..] == a[1..] + b;
      CountOfConcat(a[1..], b, v);
    }
  }

  lemma CountOfInsert(x: real, s: seq<real>, v: real)
    ensures CountAtMost(Insert(x, s), v) == (if x <= v then 1 else 0) + CountAtMost(s, v)
  {
    hide Place;
    var p := Place(x, s);
    CountOfConcat(s[..p] + [x], s[p..], v);
    CountOfConcat(s[..p], [x], v);
    CountOfConcat(s[..p], s[p..], v);
    assert s == s[..p] + s[p..];
  }

  lemma {:induction false} CountOfSorted(s: seq<real>, v: real)
    ensures CountAtMost(SortFloat64s(s), v) == CountAtMost(s, v)
  {
    if s != [] {
      CountOfSorted(s[1..], v);
      CountOfInsert(s[0], SortFloat64s(s[1..]), v);
    }
  }

  /** At least `k` observations are at most `v` exactly if the `k`-th smallest is. */
  lemma {:induction false} CountReachesRank(s: seq<real>, k: nat, v: real)
    requires Sorted(s) && 0 < k <= |s|
    ensures CountAtMost(s, v) >= k <==> s[k - 1] <= v
  {
    if |s| > 1 {
      CountReachesRank(s[1..], if k == 1 then 1 else k - 1, v);
    }
  }

  lemma {:induction false} CountIsMonotone(obs: seq<real>, u: real, v: real)
    requires u <= v
    ensures CountAtMost(obs, u) <= CountAtMost(obs, v)
  {
    if obs != [] {
      CountIsMonotone(obs[1..], u, v);
    }
  }

  // ----- mergeHistograms -----

  predicate Increasing(bounds: seq<real>) {
    forall i, j :: 0 <= i < j < |bounds| ==> bounds[i] < bounds[j]
  }

  /** The counts that a list of buckets gives for the bound `ub`, added up. */
  function BucketsAt(bs: seq<Bucket>, ub: real): nat {
    if bs == [] then 0
    else BucketsAt(bs[..|bs| - 1], ub) + if bs[|bs| - 1].upperBound == ub then bs[|bs| - 1].cumulative else 0
  }

  function SeriesBuckets(m: Option<Histogram>): seq<Bucket> {
    if m.None? then [] else m.value.buckets
  }

  function TotalAt(mf: seq<Option<Histogram>>, ub: real): nat {
    if mf == [] then 0 else TotalAt(mf[..|mf| - 1], ub) + BucketsAt(SeriesBuckets(mf[|mf| - 1]), ub)
  }

  function TotalCount(mf: seq<Option<Histogram>>): nat {
    if mf == [] then 0
    else TotalCount(mf[..|mf| - 1]) + if mf[|mf| - 1].None? then 0 else mf[|mf| - 1].value.count
  }

  function BoundsOf(bs: seq<Bucket>): seq<real> {
    seq(|bs|, k requires 0 <= k < |bs| => bs[k].upperBound)
  }

  function AllBounds(mf: seq<Option<Histogram>>): seq<real> {
    if mf == [] then [] else AllBounds(mf[..|mf| - 1]) + BoundsOf(SeriesBuckets(mf[|mf| - 1]))
  }

  method AddBuckets(totals0: map<real, nat>, bs: seq<Bucket>) returns (totals: map<real, nat>)
    ensures forall ub :: ub in totals <==> ub in totals0 || ub in BoundsOf(bs)
    ensures forall ub :: ub in totals ==> totals[ub] == (if ub in totals0 then totals0[ub] else 0) + BucketsAt(bs, ub)
  {
    totals := totals0;
    for i := 0 to |bs|
      invariant forall ub :: ub in totals <==> ub in totals0 || ub in BoundsOf(bs[..i])
      invariant forall ub :: ub in totals ==>
                  totals[ub] == (if ub in totals0 then totals0[ub] else 0) + BucketsAt(bs[..i], ub)
    {
      assert bs[..i + 1][..i] == bs[..i];
      assert BoundsOf(bs[..i + 1]) == BoundsOf(bs[..i]) + [bs[i].upperBound];
      if bs[i].upperBound !in totals {
        NoBucketNoCount(bs[..i], bs[i].upperBound);
      }
      var ub := bs[i].upperBound;
      totals := totals[ub := (if ub in totals then totals[ub] else 0) + bs[i].cumulative];
    }
    assert bs[..|bs|] == bs;
  }

  lemma {:induction false} NoBucketNoCount(bs: seq<Bucket>, ub: real)
    requires ub !in BoundsOf(bs)
    ensures BucketsAt(bs, ub) == 0
  {
    if bs != [] {
      var n := |bs| - 1;
      assert BoundsOf(bs) == BoundsOf(bs[..n]) + [bs[n].upperBound];
      assert BoundsOf(bs)[n] in BoundsOf(bs);
      NoBucketNoCount(bs[..n], ub);
    }
  }

  lemma {:induction false} NoBoundNoTotal(mf: seq<Option<Histogram>>, ub: real)
    requires ub !in AllBounds(mf)
    ensures TotalAt(mf, ub) == 0
  {
    if mf != [] {
      NoBoundNoTotal(mf[..|mf| - 1], ub);
      NoBucketNoCount(SeriesBuckets(mf[|mf| - 1]), ub);
    }
  }

  method CollectTotals(mf: seq<Option<Histogram>>) returns (totals: map<real, nat>, count: nat)
    ensures count == TotalCount(mf)
    ensures forall ub :: ub in totals <==> ub in AllBounds(mf)
    ensures forall ub :: ub in totals ==> totals[ub] == TotalAt(mf, ub)
  {
    totals, count := map[], 0;
    for i := 0 to |mf|
      invariant count == TotalCount(mf[..i])
      invariant forall ub :: ub in totals <==> ub in AllBounds(mf[..i])
      invariant forall ub :: ub in totals ==> totals[ub] == TotalAt(mf[..i], ub)
    {
      ghost var before := totals;
      assert mf[..i + 1][..i] == mf[..i];
      if mf[i].Some? {
        count := count + mf[i].value.count;
        totals := AddBuckets(totals, mf[i].value.buckets);
      }
      forall ub | ub in totals ensures totals[ub] == TotalAt(mf[..i + 1], ub) {
        if ub !in before { NoBoundNoTotal(mf[..i], ub); }
      }
    }
    assert mf[..|mf|] == mf;
  }

  /** One bucket for every bound of any series, in order, each with the counts of all series. */
  ghost predicate IsMerged(mf: seq<Option<Histogram>>, out: Histogram) {
    && out.count == TotalCount(mf)
    && Increasing(BoundsOf(out.buckets))
    && (forall ub :: ub in BoundsOf(out.buckets) <==> ub in AllBounds(mf))
    && (forall k :: 0 <= k < |out.buckets| ==> out.buckets[k].cumulative == TotalAt(mf, out.buckets[k].upperBound))
  }

  lemma Element<T>(s: set<T>) returns (x: T)
    requires s != {}
    ensures x in s
  {
    x :| x in s;
  }

  /** The keys of the map, in whatever order the iteration gives them. */
  method KeysOf(totals: map<real, nat>) returns (bounds: seq<real>)
    ensures forall ub :: ub in totals <==> ub in bounds
    ensures Distinct(bounds)
  {
    bounds := [];
    var keys := totals.Keys;
    while keys != {}
      invariant forall ub :: ub in totals <==> ub in keys || ub in bounds
      invariant forall ub :: ub in keys ==> ub !in bounds
      invariant Distinct(bounds)
      decreases |keys|
    {
      ghost var some := Element(keys);
      var ub :| ub in keys;
      bounds := bounds + [ub];
      keys := keys - {ub};
    }
  }

  method MergeHistograms(mf: seq<Option<Histogram>>) returns (merged: Histogram)
    ensures IsMerged(mf, merged)
  {
    hide TotalAt, TotalCount, AllBounds;
    var totals, count := CollectTotals(mf);
    var bounds := KeysOf(totals);
    SortingDistinct(bounds);
    var out := InOrder(totals, SortFloat64s(bounds));
    merged := Histogram(count, out);
    forall k | 0 <= k < |out| ensures out[k].cumulative == TotalAt(mf, out[k].upperBound) {
      assert BoundsOf(out)[k] in BoundsOf(out);
    }
  }

  method InOrder(totals: map<real, nat>, bounds: seq<real>) returns (out: seq<Bucket>)
    requires forall ub :: ub in bounds ==> ub in totals
    ensures BoundsOf(out) == bounds
    ensures forall k :: 0 <= k < |out| ==> out[k].upperBound in totals && out[k].cumulative == totals[out[k].upperBound]
  {
    out := [];
    for i := 0 to |bounds|
      invariant BoundsOf(out) == bounds[..i]
      invariant forall k :: 0 <= k < |out| ==>
                  out[k].upperBound in totals && out[k].cumulative == totals[out[k].upperBound]
    {
      var ub := bounds[i];
      assert ub in bounds && ub in totals;
      out := out + [Bucket(ub, totals[ub])];
    }
  }

  // ----- merging is bucketing the pooled observations -----

  /** The histogram that a series with the bucket bounds `layout` holds after the observations. */
  function Bucketed(obs: seq<real>, layout: seq<real>): Histogram {
    Histogram(|obs|, seq(|layout|, k requires 0 <= k < |layout| => Bucket(layout[k], CountAtMost(obs, layout[k]))))
  }

  function SeriesOf(observed: Option<seq<real>>, layout: seq<real>): Option<Histogram> {
    if observed.None? then None else Some(Bucketed(observed.value, layout))
  }

  function Series(observed: seq<Option<seq<real>>>, layout: seq<real>): seq<Option<Histogram>> {
    seq(|observed|, i requires 0 <= i < |observed| => SeriesOf(observed[i], layout))
  }

  function Observations(observed: Option<seq<real>>): seq<real> {
    if observed.None? then [] else observed.value
  }

  function Pooled(observed: seq<Option<seq<real>>>): seq<real> {
    if observed == [] then [] else Pooled(observed[..|observed| - 1]) + Observations(observed[|observed| - 1])
  }

  lemma {:induction false} BucketsAtLayout(bs: seq<Bucket>, k: nat)
    requires k < |bs| && Increasing(BoundsOf(bs))
    ensures BucketsAt(bs, bs[k].upperBound) == bs[k].cumulative
  {
    var n := |bs| - 1;
    assert forall i :: 0 <= i < |bs| ==> BoundsOf(bs)[i] == bs[i].upperBound;
    assert BoundsOf(bs) == BoundsOf(bs[..n]) + [bs[n].upperBound];
    if k == n {
      NoBucketNoCount(bs[..n], bs[n].upperBound);
    } else {
      BucketsAtLayout(bs[..n], k);
    }
  }

  lemma SeriesCounts(observed: Option<seq<real>>, layout: seq<real>, k: nat)
    requires Increasing(layout) && k < |layout|
    ensures BucketsAt(SeriesBuckets(SeriesOf(observed, layout)), layout[k])
              == CountAtMost(Observations(observed), layout[k])
  {
    if observed.Some? {
      var h := Bucketed(observed.value, layout);
      assert BoundsOf(h.buckets) == layout;
      BucketsAtLayout(h.buckets, k);
    }
  }

  lemma {:induction false} TotalsArePooled(observed: seq<Option<seq<real>>>, layout: seq<real>, k: nat)
    requires Increasing(layout) && k < |layout|
    ensures TotalAt(Series(observed, layout), layout[k]) == CountAtMost(Pooled(observed), layout[k])
  {
    if observed != [] {
      hide BucketsAt, CountAtMost, SeriesOf, SeriesBuckets, Observations;
      var n := |observed| - 1;
      assert Series(observed, layout)[..n] == Series(observed[..n], layout);
      TotalsArePooled(observed[..n], layout, k);
      SeriesCounts(observed[n], layout, k);
      CountOfConcat(Pooled(observed[..n]), Observations(observed[n]), layout[k]);
    }
  }

  lemma BoundsOfOne(observed: Option<seq<real>>, layout: seq<real>)
    ensures BoundsOf(SeriesBuckets(SeriesOf(observed, layout))) == if observed.Some? then layout else []
  {
    if observed.Some? {
      assert BoundsOf(Bucketed(observed.value, layout).buckets) == layout;
    }
  }

  lemma {:induction false} CountOfSeries(observed: seq<Option<seq<real>>>, layout: seq<real>)
    ensures TotalCount(Series(observed, layout)) == |Pooled(observed)|
  {
    if observed != [] {
      var n := |observed| - 1;
      assert Series(observed, layout)[..n] == Series(observed[..n], layout);
      CountOfSeries(observed[..n], layout);
    }
  }

  ghost predicate AnySome(observed: seq<Option<seq<real>>>) {
    exists i :: 0 <= i < |observed| && observed[i].Some?
  }

  lemma {:induction false} BoundsOfSeries(observed: seq<Option<seq<real>>>, layout: seq<real>, ub: real)
    ensures ub in AllBounds(Series(observed, layout)) <==> ub in layout && AnySome(observed)
  {
    if observed != [] {
      hide AnySome, BoundsOf, SeriesBuckets, SeriesOf;
      var n := |observed| - 1;
      assert Series(observed, layout)[..n] == Series(observed[..n], layout);
      BoundsOfSeries(observed[..n], layout, ub);
      BoundsOfOne(observed[n], layout);
      AnyOfLast(observed);
    }
  }

  lemma AnyOfLast(observed: seq<Option<seq<real>>>)
    requires observed != []
    ensures AnySome(observed) <==> AnySome(observed[..|observed| - 1]) || observed[|observed| - 1].Some?
  {
    var init := observed[..|observed| - 1];
    assert forall i :: 0 <= i < |init| ==> observed[i] == init[i];
  }

  lemma {:induction false} SameIncreasing(a: seq<real>, b: seq<real>)
    requires Increasing(a) && Increasing(b) && forall x :: x in a <==> x in b
    ensures a == b
  {
    assert b != [] ==> b[0] in b;
    if a != [] {
      assert a[0] in a;
      assert a[0] in b && b != [] && b[0] in a;
      assert a[0] == b[0];
      forall x ensures x in a[1..] <==> x in b[1..] {
        if x in a[1..] { assert x in a && x != a[0]; }
        if x in b[1..] { assert x in b && x != b[0]; }
      }
      SameIncreasing(a[1..], b[1..]);
    }
  }

  /** For series with one layout, merging gives the histogram of all their observations together. */
  lemma MergedIsPooled(observed: seq<Option<seq<real>>>, layout: seq<real>, merged: Histogram)
    requires Increasing(layout) && IsMerged(Series(observed, layout), merged)
    requires AnySome(observed)
    ensures merged == Bucketed(Pooled(observed), layout)
  {
    CountOfSeries(observed, layout);
    forall ub ensures ub in BoundsOf(merged.buckets) <==> ub in layout {
      BoundsOfSeries(observed, layout, ub);
    }
    SameIncreasing(BoundsOf(merged.buckets), layout);
    assert |merged.buckets| == |BoundsOf(merged.buckets)|;
    forall k | 0 <= k < |layout| ensures merged.buckets[k] == Bucketed(Pooled(observed), layout).buckets[k] {
      assert BoundsOf(merged.buckets)[k] == merged.buckets[k].upperBound;
      TotalsArePooled(observed, layout, k);
    }
  }

  // ----- percentileFromBuckets -----

  function Interpolate(low: real, high: real, below: nat, upto: nat, rank: real): real
    requires below != upto
  {
    low + (high - low) * ((rank - below as real) / (upto as real - below as real))
  }

  /** The interpolation over the buckets `bs`, behind a bucket with the given bound and count. */
  function PercentileFrom(bs: seq<Bucket>, rank: real, prevBound: real, prevCum: nat): real
    requires bs != []
  {
    var b := bs[0];
    if b.cumulative as real >= rank then
      if b.upperBound == 0.0 || b.cumulative == prevCum then b.upperBound
      else Interpolate(prevBound, b.upperBound, prevCum, b.cumulative, rank)
    else if |bs| == 1 then b.upperBound
    else PercentileFrom(bs[1..], rank, b.upperBound, b.cumulative)
  }

  function Rank(count: nat, q: real): real {
    count as real * q
  }

  function Percentile(mh: Histogram, q: real): real {
    if mh.count == 0 || mh.buckets == [] then 0.0 else PercentileFrom(mh.buckets, Rank(mh.count, q), 0.0, 0)
  }

  method PercentileFromBuckets(mh: Histogram, q: real) returns (r: real)
    ensures r == Percentile(mh, q)
  {
    if mh.count == 0 || |mh.buckets| == 0 {
      return 0.0;
    }
    var rank := Rank(mh.count, q);
    var prevBound := 0.0;
    var prevCum := 0;
    assert mh.buckets[0..] == mh.buckets;
    for i := 0 to |mh.buckets|
      invariant i < |mh.buckets| ==> Percentile(mh, q) == PercentileFrom(mh.buckets[i..], rank, prevBound, prevCum)
      invariant i == |mh.buckets| ==> Percentile(mh, q) == mh.buckets[i - 1].upperBound
    {
      var b := mh.buckets[i];
      assert mh.buckets[i..][1..] == mh.buckets[i + 1..];
      if b.cumulative as real >= rank {
        if b.upperBound == 0.0 || b.cumulative == prevCum {
          return b.upperBound;
        }
        var width := b.upperBound - prevBound;
        var frac := (rank - prevCum as real) / (b.cumulative as real - prevCum as real);
        return prevBound + width * frac;
      }
      prevBound := b.upperBound;
      prevCum := b.cumulative;
    }
    return mh.buckets[|mh.buckets| - 1].upperBound;
  }

  /** Positive, increasing bounds and counts that do not fall and stay within the total. */
  ghost predicate WellFormed(bs: seq<Bucket>, prevBound: real, prevCum: nat) {
    && (forall k :: 0 <= k < |bs| ==> prevBound < bs[k].upperBound && prevCum <= bs[k].cumulative)
    && (forall j, k :: 0 <= j < k < |bs| ==>
         bs[j].upperBound < bs[k].upperBound && bs[j].cumulative <= bs[k].cumulative)
  }

  lemma Scale(w: real, f: real, g: real)
    requires 0.0 <= w && f <= g
    ensures w * f <= w * g
  {
  }

  lemma Quotient(a: real, b: real, d: real)
    requires a <= b && d > 0.0
    ensures a / d <= b / d
  {
  }

  lemma InterpolationIsMonotone(low: real, high: real, below: nat, upto: nat, rank: real, rank': real)
    requires low <= high && below < upto && rank <= rank'
    ensures Interpolate(low, high, below, upto, rank) <= Interpolate(low, high, below, upto, rank')
  {
    var d := upto as real - below as real;
    Quotient(rank - below as real, rank' - below as real, d);
    Scale(high - low, (rank - below as real) / d, (rank' - below as real) / d);
  }

  lemma InterpolationEnds(low: real, high: real, below: nat, upto: nat)
    requires below < upto
    ensures Interpolate(low, high, below, upto, below as real) == low
    ensures Interpolate(low, high, below, upto, upto as real) == high
  {
  }

  lemma Interpolates(low: real, high: real, below: nat, upto: nat, rank: real)
    requires low <= high && below < upto && below as real <= rank <= upto as real
    ensures low <= Interpolate(low, high, below, upto, rank) <= high
    ensures below as real < rank && low < high ==> low < Interpolate(low, high, below, upto, rank)
  {
    InterpolationEnds(low, high, below, upto);
    InterpolationIsMonotone(low, high, below, upto, below as real, rank);
    InterpolationIsMonotone(low, high, below, upto, rank, upto as real);
    var d := upto as real - below as real;
    if below as real < rank && low < high {
      var f := (rank - below as real) / d;
      assert f > 0.0;
      assert (high - low) * f > 0.0;
    }
  }

  lemma {:induction false} PercentileIsAbove(bs: seq<Bucket>, rank: real, prevBound: real, prevCum: nat)
    requires bs != [] && prevBound >= 0.0 && WellFormed(bs, prevBound, prevCum) && prevCum as real <= rank
    ensures PercentileFrom(bs, rank, prevBound, prevCum) >= prevBound
    decreases |bs|
  {
    hide Interpolate;
    var b := bs[0];
    if b.cumulative as real >= rank {
      if b.cumulative != prevCum { Interpolates(prevBound, b.upperBound, prevCum, b.cumulative, rank); }
    } else if |bs| > 1 {
      PercentileIsAbove(bs[1..], rank, b.upperBound, b.cumulative);
    }
  }

  lemma {:induction false} PercentileFromIsMonotone(bs: seq<Bucket>, rank: real, rank': real, prevBound: real,
                                                  prevCum: nat)
    requires bs != [] && prevBound >= 0.0 && WellFormed(bs, prevBound, prevCum) && prevCum as real <= rank <= rank'
    ensures PercentileFrom(bs, rank, prevBound, prevCum) <= PercentileFrom(bs, rank', prevBound, prevCum)
    decreases |bs|
  {
    hide Interpolate;
    var b := bs[0];
    if b.cumulative as real >= rank' {
      if b.cumulative != prevCum {
        InterpolationIsMonotone(prevBound, b.upperBound, prevCum, b.cumulative, rank, rank');
      }
    } else {
      if b.cumulative as real >= rank && b.cumulative != prevCum {
        Interpolates(prevBound, b.upperBound, prevCum, b.cumulative, rank);
      }
      if |bs| > 1 {
        if b.cumulative as real >= rank {
          PercentileIsAbove(bs[1..], rank', b.upperBound, b.cumulative);
        } else {
          PercentileFromIsMonotone(bs[1..], rank, rank', b.upperBound, b.cumulative);
        }
      }
    }
  }

  /** A larger quantile is never a smaller duration. */
  lemma PercentileIsMonotone(mh: Histogram, q: real, q': real)
    requires WellFormed(mh.buckets, 0.0, 0) && 0.0 <= q <= q'
    ensures Percentile(mh, q) <= Percentile(mh, q')
  {
    hide PercentileFrom;
    if mh.count > 0 && mh.buckets != [] {
      Scale(mh.count as real, q, q');
      Scale(mh.count as real, 0.0, q);
      PercentileFromIsMonotone(mh.buckets, Rank(mh.count, q), Rank(mh.count, q'), 0.0, 0);
    }
  }

  // ----- the estimate lies in the true value's bucket -----

  function Ceil(r: real): int {
    -(-r).Floor
  }

  /** The buckets in front of `j` have counted less than `rank`, and bucket `j` has counted it. */
  lemma {:induction false} PercentileInBucket(bs: seq<Bucket>, rank: real, prevBound: real, prevCum: nat, j: nat)
    requires j < |bs| && prevBound >= 0.0 && WellFormed(bs, prevBound, prevCum) && prevCum as real < rank
    requires rank <= bs[j].cumulative as real && forall i :: 0 <= i < j ==> (bs[i].cumulative as real) < rank
    ensures var lower := if j == 0 then prevBound else bs[j - 1].upperBound;
            lower < PercentileFrom(bs, rank, prevBound, prevCum) <= bs[j].upperBound
    decreases |bs|
  {
    hide Interpolate;
    if j == 0 {
      Interpolates(prevBound, bs[0].upperBound, prevCum, bs[0].cumulative, rank);
    } else {
      PercentileInBucket(bs[1..], rank, bs[0].upperBound, bs[0].cumulative, j - 1);
    }
  }

  lemma RankInRange(n: nat, q: real)
    requires n > 0 && 0.0 < q <= 1.0
    ensures 0.0 < Rank(n, q) <= n as real && 0 < Ceil(Rank(n, q)) <= n
  {
    Scale(n as real, q, 1.0);
    assert n as real * q > 0.0;
  }

  lemma CeilCounts(rank: real, c: nat)
    ensures c as real >= rank <==> c >= Ceil(rank)
  {
  }

  /** The `k`-th smallest observation is counted in bucket `j`, and in none in front of it. */
  predicate TrueBucket(obs: seq<real>, layout: seq<real>, k: nat, j: nat)
    requires 0 < k <= |obs| && j < |layout|
  {
    var x := SortFloat64s(obs)[k - 1];
    x <= layout[j] && (j > 0 ==> layout[j - 1] < x)
  }

  /** With x the ceil(n * q)-th smallest of all n observations and x within the last bound, the
      estimate lies in the very bucket that counted x: both are at most its bound, and both are
      above the bound in front of it. */
  lemma PercentileInTrueBucket(obs: seq<real>, layout: seq<real>, q: real, j: nat)
    requires Increasing(layout) && j < |layout| && layout[0] > 0.0 && obs != [] && 0.0 < q <= 1.0
    ensures var k := Ceil(Rank(|obs|, q));
            var p := Percentile(Bucketed(obs, layout), q);
            && 0 < k <= |obs|
            && (TrueBucket(obs, layout, k, j) ==> p <= layout[j] && (if j > 0 then layout[j - 1] else 0.0) < p)
  {
    hide PercentileFrom, CountAtMost, Sorted, SortFloat64s, Ceil, Rank, WellFormed;
    var rank := Rank(|obs|, q);
    RankInRange(|obs|, q);
    if TrueBucket(obs, layout, Ceil(rank), j) {
      forall i | 0 <= i < |layout|
        ensures CountAtMost(obs, layout[i]) as real >= rank <==> SortFloat64s(obs)[Ceil(rank) - 1] <= layout[i]
      {
        RankCounted(obs, rank, layout[i]);
      }
      BucketedIsWellFormed(obs, layout);
      PercentileInBucket(Bucketed(obs, layout).buckets, rank, 0.0, 0, j);
    }
  }

  lemma RankCounted(obs: seq<real>, rank: real, v: real)
    requires 0 < Ceil(rank) <= |obs|
    ensures CountAtMost(obs, v) as real >= rank <==> SortFloat64s(obs)[Ceil(rank) - 1] <= v
  {
    hide SortFloat64s, CountAtMost, Ceil;
    CeilCounts(rank, CountAtMost(obs, v));
    CountOfSorted(obs, v);
    SortSorts(obs);
    CountReachesRank(SortFloat64s(obs), Ceil(rank), v);
  }

  lemma BucketedIsWellFormed(obs: seq<real>, layout: seq<real>)
    requires Increasing(layout) && (layout != [] ==> layout[0] > 0.0)
    ensures WellFormed(Bucketed(obs, layout).buckets, 0.0, 0)
  {
    forall i, j | 0 <= i < j < |layout| ensures CountAtMost(obs, layout[i]) <= CountAtMost(obs, layout[j]) {
      CountIsMonotone(obs, layout[i], layout[j]);
    }
  }
}
