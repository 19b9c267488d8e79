/** Bucketed histograms over the reals, and how close a percentile estimate comes to the exact one. */
module Histograms {
  import opened Wrappers

  // ----- Buckets ----------------------------------------------------------

  /** The first bucket whose bound is not below the value, or the unbounded last one. */
  function BucketOf(bounds: seq<real>, v: real): (b: nat)
    ensures b <= |bounds|
  {
    if bounds == [] || v <= bounds[0] then 0 else 1 + BucketOf(bounds[1..], v)
  }

  /** Ascending bucket bounds, the first positive. */
  predicate Ascending(bounds: seq<real>) {
    (forall i, j :: 0 <= i < j < |bounds| ==> bounds[i] < bounds[j]) && (bounds != [] ==> 0.0 < bounds[0])
  }

  function LowerEdge(bounds: seq<real>, b: nat): real
    requires b <= |bounds|
  {
    if b == 0 then 0.0 else bounds[b - 1]
  }

  lemma {:induction false} BucketAtMost(bounds: seq<real>, v: real, i: nat)
    requires Ascending(bounds) && i < |bounds|
    ensures BucketOf(bounds, v) <= i <==> v <= bounds[i]
  {
    if i > 0 && v > bounds[0] {
      assert Ascending(bounds[1..]);
      BucketAtMost(bounds[1..], v, i - 1);
    }
  }

  lemma BucketIs(bounds: seq<real>, v: real, b: nat)
    requires Ascending(bounds) && b < |bounds| && LowerEdge(bounds, b) < v <= bounds[b]
    ensures BucketOf(bounds, v) == b
  {
    BucketAtMost(bounds, v, b);
    if b > 0 { BucketAtMost(bounds, v, b - 1); }
  }

  // ----- Counting ---------------------------------------------------------

  /** How many values fall into one bucket, into it or an earlier one, and at or below a bound. */
  function CountIn(bounds: seq<real>, seen: seq<real>, b: nat): nat {
    if seen == [] then 0
    else
      var last := |seen| - 1;
      CountIn(bounds, seen[..last], b) + if BucketOf(bounds, seen[last]) == b then 1 else 0
  }

  function CountUpTo(bounds: seq<real>, seen: seq<real>, b: nat): nat {
    if seen == [] then 0
    else
      var last := |seen| - 1;
      CountUpTo(bounds, seen[..last], b) + if BucketOf(bounds, seen[last]) <= b then 1 else 0
  }

  function CountAtMost(seen: seq<real>, x: real): nat {
    if seen == [] then 0
    else
      var last := |seen| - 1;
      CountAtMost(seen[..last], x) + if seen[last] <= x then 1 else 0
  }

  function Sum(values: seq<real>): real {
    if values == [] then 0.0 else Sum(values[..|values| - 1]) + values[|values| - 1]
  }

  /** The first `n` bucket counts added up. */
  function SumOf(counts: seq<nat>, n: nat): nat
    requires n <= |counts|
  {
    if n == 0 then 0 else SumOf(counts, n - 1) + counts[n - 1]
  }

  lemma {:induction false} UpToSteps(bounds: seq<real>, seen: seq<real>, b: nat)
    ensures CountUpTo(bounds, seen, 0) == CountIn(bounds, seen, 0)
    ensures CountUpTo(bounds, seen, b + 1) == CountUpTo(bounds, seen, b) + CountIn(bounds, seen, b + 1)
    ensures CountUpTo(bounds, seen, |bounds|) == |seen|
  {
    if seen != [] { UpToSteps(bounds, seen[..|seen| - 1], b); }
  }

  lemma {:induction false} UpToIsAtMost(bounds: seq<real>, seen: seq<real>, i: nat)
    requires Ascending(bounds) && i < |bounds|
    ensures CountUpTo(bounds, seen, i) == CountAtMost(seen, bounds[i])
  {
    if seen != [] {
      UpToIsAtMost(bounds, seen[..|seen| - 1], i);
      BucketAtMost(bounds, seen[|seen| - 1], i);
    }
  }

  ghost predicate Counts(bounds: seq<real>, counts: seq<nat>, seen: seq<real>) {
    |counts| == |bounds| + 1 && forall b :: 0 <= b < |counts| ==> counts[b] == CountIn(bounds, seen, b)
  }

  lemma {:induction false} SumsUp(bounds: seq<real>, counts: seq<nat>, seen: seq<real>, b: nat)
    requires Counts(bounds, counts, seen) && b < |counts|
    ensures SumOf(counts, b + 1) == CountUpTo(bounds, seen, b)
  {
    if b == 0 {
      UpToSteps(bounds, seen, 0);
    } else {
      SumsUp(bounds, counts, seen, b - 1);
      UpToSteps(bounds, seen, b - 1);
    }
  }

  /** No observation is lost: the buckets add up to the observation count. */
  lemma CountsAddUp(bounds: seq<real>, counts: seq<nat>, seen: seq<real>)
    requires Counts(bounds, counts, seen)
    ensures SumOf(counts, |counts|) == |seen|
  {
    SumsUp(bounds, counts, seen, |bounds|);
    UpToSteps(bounds, seen, 0);
  }

  // ----- The exact percentile ---------------------------------------------

  predicate Sorted(s: seq<real>) { forall i, j :: 0 <= i < j < |s| ==> s[i] <= s[j] }

  function Insert(x: real, s: seq<real>): seq<real> {
    if s == [] || s[|s| - 1] <= x then s + [x] else Insert(x, s[..|s| - 1]) + [s[|s| - 1]]
  }

  function Sort(s: seq<real>): seq<real> {
    if s == [] then [] else Insert(s[|s| - 1], Sort(s[..|s| - 1]))
  }

  lemma {:induction false} InsertBelow(x: real, s: seq<real>, top: real)
    requires x <= top && forall i :: 0 <= i < |s| ==> s[i] <= top
    ensures forall i :: 0 <= i < |Insert(x, s)| ==> Insert(x, s)[i] <= top
  {
    if s != [] && s[|s| - 1] > x { InsertBelow(x, s[..|s| - 1], top); }
  }

  lemma {:induction false} InsertSorts(x: real, s: seq<real>)
    requires Sorted(s)
    ensures Sorted(Insert(x, s))
  {
    var last := |s| - 1;
    if s != [] && s[last] > x {
      InsertSorts(x, s[..last]);
      InsertBelow(x, s[..last], s[last]);
    }
  }

  lemma {:induction false} InsertKeeps(x: real, s: seq<real>)
    ensures multiset(Insert(x, s)) == multiset(s) + multiset{x} && |Insert(x, s)| == |s| + 1
  {
    var last := |s| - 1;
    if s != [] && s[last] > x {
      InsertKeeps(x, s[..last]);
      assert s == s[..last] + [s[last]];
    }
  }

  lemma {:induction false} InsertCounts(x: real, s: seq<real>, bound: real)
    ensures CountAtMost(Insert(x, s), bound) == CountAtMost(s, bound) + if x <= bound then 1 else 0
  {
    var last := |s| - 1;
    if s == [] || s[last] <= x {
      assert (s + [x])[..|s|] == s;
    } else {
      InsertCounts(x, s[..last], bound);
      var r := Insert(x, s[..last]);
      assert (r + [s[last]])[..|r|] == r;
    }
  }

  lemma {:induction false} SortSorts(s: seq<real>)
    ensures Sorted(Sort(s)) && |Sort(s)| == |s|
  {
    if s != [] {
      var last := |s| - 1;
      SortSorts(s[..last]);
      InsertSorts(s[last], Sort(s[..last]));
      InsertKeeps(s[last], Sort(s[..last]));
    }
  }

  lemma {:induction false} SortKeeps(s: seq<real>)
    ensures multiset(Sort(s)) == multiset(s)
  {
    if s != [] {
      var last := |s| - 1;
      SortKeeps(s[..last]);
      InsertKeeps(s[last], Sort(s[..last]));
      assert s == s[..last] + [s[last]];
    }
  }

  lemma {:induction false} SortCounts(s: seq<real>, bound: real)
    ensures CountAtMost(Sort(s), bound) == CountAtMost(s, bound)
  {
    if s != [] {
      var last := |s| - 1;
      SortCounts(s[..last], bound);
      InsertCounts(s[last], Sort(s[..last]), bound);
    }
  }

  lemma {:induction false} AllAtMost(s: seq<real>, x: real)
    requires forall i :: 0 <= i < |s| ==> s[i] <= x
    ensures CountAtMost(s, x) == |s|
  {
    if s != [] { AllAtMost(s[..|s| - 1], x); }
  }

  /** In a sorted list, the element of rank `k + 1` is at most `x` exactly when more than `k` are. */
  lemma {:induction false} RankAtMost(s: seq<real>, k: nat, x: real)
    requires Sorted(s) && k < |s|
    ensures s[k] <= x <==> CountAtMost(s, x) > k
    ensures CountAtMost(s, x) <= |s|
  {
    var last := |s| - 1;
    if s[last] <= x {
      AllAtMost(s, x);
    } else if k < last {
      RankAtMost(s[..last], k, x);
    } else {
      AtMostLength(s[..last], x);
    }
  }

  lemma {:induction false} AtMostLength(s: seq<real>, x: real)
    ensures CountAtMost(s, x) <= |s|
  {
    if s != [] { AtMostLength(s[..|s| - 1], x); }
  }

  /** The observation of a given rank, counting from 1. */
  function OfRank(seen: seq<real>, rank: nat): (v: real)
    requires 1 <= rank <= |seen|
    ensures v in seen
  {
    SortSorts(seen);
    SortKeeps(seen);
    assert Sort(seen)[rank - 1] in multiset(Sort(seen));
    Sort(seen)[rank - 1]
  }

  /** The observations in order, as far as ranks and counts can tell. */
  lemma InOrder(seen: seq<real>, rank: nat, x: real) returns (sorted: seq<real>)
    requires 1 <= rank <= |seen|
    ensures Sorted(sorted) && |sorted| == |seen| && sorted[rank - 1] == OfRank(seen, rank)
    ensures CountAtMost(sorted, x) == CountAtMost(seen, x)
  {
    sorted := Sort(seen);
    SortSorts(seen);
    SortCounts(seen, x);
  }

  /** An observation of a given rank is at most `x` exactly when that many observations are. */
  lemma OfRankAtMost(seen: seq<real>, rank: nat, x: real)
    requires 1 <= rank <= |seen|
    ensures OfRank(seen, rank) <= x <==> rank <= CountAtMost(seen, x)
  {
    var sorted := InOrder(seen, rank, x);
    RankAtMost(sorted, rank - 1, x);
  }

  // ----- The estimate -----------------------------------------------------

  function Scaled(f: real, width: real): real { f * width }

  lemma ScaledFits(f: real, width: real)
    requires 0.0 < width && 0.0 <= f <= 1.0
    ensures 0.0 <= Scaled(f, width) <= width
    ensures f == 0.0 <==> Scaled(f, width) == 0.0
  {
    assert f * width <= 1.0 * width;
    if f > 0.0 { assert f * width > 0.0; }
  }

  lemma ScaledMonotone(f: real, g: real, width: real)
    requires f <= g && 0.0 <= width
    ensures Scaled(f, width) <= Scaled(g, width)
  {
  }

  function Ceil(x: real): int { -((-x).Floor) }

  function Clamp(p: real): real { if p < 0.0 then 0.0 else if p > 1.0 then 1.0 else p }

  lemma CeilFits(p: real, n: nat)
    ensures 0 <= Ceil(Scaled(Clamp(p), n as real)) <= n
  {
    ScaledMonotone(0.0, Clamp(p), n as real);
    ScaledMonotone(Clamp(p), 1.0, n as real);
  }

  /** The rank a percentile asks for. */
  function Rank(p: real, n: nat): (rank: nat)
    ensures rank <= n
  {
    CeilFits(p, n);
    Ceil(Scaled(Clamp(p), n as real))
  }

  /** How far `part` reaches into `whole`. */
  function Fraction(part: nat, whole: nat): real {
    if whole == 0 then 0.0 else part as real / whole as real
  }

  /** The point a fraction of the way from `low` to `high`. */
  function Between(low: real, high: real, f: real): real { low + Scaled(f, high - low) }

  function Interpolated(bounds: seq<real>, i: nat, before: nat, inside: nat, rank: nat): real
    requires i < |bounds| && before <= rank
  {
    Between(LowerEdge(bounds, i), bounds[i], Fraction(rank - before, inside))
  }

  /** Where the rank falls, from bucket `i` on, with `before` observations in earlier buckets. */
  function Estimate(bounds: seq<real>, counts: seq<nat>, rank: nat, i: nat, before: nat): real
    requires bounds != [] && |counts| == |bounds| + 1 && i <= |bounds| && before <= rank
    decreases |bounds| - i
  {
    if i == |bounds| then bounds[|bounds| - 1]
    else if rank <= before + counts[i] then Interpolated(bounds, i, before, counts[i], rank)
    else Estimate(bounds, counts, rank, i + 1, before + counts[i])
  }

  function Percentile(bounds: seq<real>, counts: seq<nat>, sum: real, count: nat, p: real): Option<real>
    requires |counts| == |bounds| + 1
  {
    if count == 0 then None
    else if bounds == [] then Some(sum / count as real)
    else Some(Estimate(bounds, counts, Rank(p, count), 0, 0))
  }

  lemma BetweenFits(low: real, high: real, f: real)
    requires low < high && 0.0 <= f <= 1.0
    ensures low <= Between(low, high, f) <= high
    ensures f == 0.0 ==> Between(low, high, f) == low
    ensures 0.0 < f ==> low < Between(low, high, f)
  {
    ScaledFits(f, high - low);
  }

  lemma FractionFits(part: nat, whole: nat)
    requires part <= whole
    ensures 0.0 <= Fraction(part, whole) <= 1.0
    ensures part == 0 <==> Fraction(part, whole) == 0.0
  {
  }

  lemma InterpolatedFits(bounds: seq<real>, i: nat, before: nat, inside: nat, rank: nat)
    requires Ascending(bounds) && i < |bounds| && before <= rank <= before + inside
    ensures LowerEdge(bounds, i) <= Interpolated(bounds, i, before, inside, rank) <= bounds[i]
    ensures before < rank ==> LowerEdge(bounds, i) < Interpolated(bounds, i, before, inside, rank)
    ensures before == rank ==> Interpolated(bounds, i, before, inside, rank) == LowerEdge(bounds, i)
  {
    assert LowerEdge(bounds, i) < bounds[i];
    FractionFits(rank - before, inside);
    BetweenFits(LowerEdge(bounds, i), bounds[i], Fraction(rank - before, inside));
  }

  /** The estimate for a rank lies in the bucket where the cumulative count first reaches it. */
  lemma {:induction false} EstimateBucket(
    bounds: seq<real>, counts: seq<nat>, seen: seq<real>, rank: nat, i: nat, before: nat)
    requires Ascending(bounds) && bounds != [] && Counts(bounds, counts, seen) && i <= |bounds|
    requires before == SumOf(counts, i) && before < rank <= |seen|
    ensures var b, r := BucketOf(bounds, OfRank(seen, rank)), Estimate(bounds, counts, rank, i, before);
            && i <= b
            && (b < |bounds| ==> BucketOf(bounds, r) == b)
            && (b == |bounds| ==> r == bounds[|bounds| - 1])
    decreases |bounds| - i
  {
    var x := OfRank(seen, rank);
    if i > 0 { RankInBucket(bounds, counts, seen, rank, i - 1); }
    if i < |bounds| {
      RankInBucket(bounds, counts, seen, rank, i);
      if rank <= before + counts[i] {
        InterpolatedFits(bounds, i, before, counts[i], rank);
        BucketIs(bounds, Interpolated(bounds, i, before, counts[i], rank), i);
      } else {
        EstimateBucket(bounds, counts, seen, rank, i + 1, before + counts[i]);
      }
    }
  }

  /** The exact value is in bucket `i` or before exactly when the cumulative count reaches its rank. */
  lemma RankInBucket(bounds: seq<real>, counts: seq<nat>, seen: seq<real>, rank: nat, i: nat)
    requires Ascending(bounds) && Counts(bounds, counts, seen) && i < |bounds| && 1 <= rank <= |seen|
    ensures BucketOf(bounds, OfRank(seen, rank)) <= i <==> rank <= SumOf(counts, i + 1)
  {
    SumsUp(bounds, counts, seen, i);
    UpToIsAtMost(bounds, seen, i);
    OfRankAtMost(seen, rank, bounds[i]);
    BucketAtMost(bounds, OfRank(seen, rank), i);
  }

  /**
   After any observations, a percentile of rank at least 1 lies in the same bucket as the exact
   observation of that rank, or is the last bound when that observation lies beyond it; rank 0 gives 0.
   */
  lemma PercentileIsAccurate(bounds: seq<real>, counts: seq<nat>, seen: seq<real>, p: real)
    requires Ascending(bounds) && bounds != [] && Counts(bounds, counts, seen) && seen != []
    ensures var rank, r := Rank(p, |seen|), Percentile(bounds, counts, Sum(seen), |seen|, p);
            && r.Some?
            && (rank == 0 ==> r.value == 0.0)
            && (rank >= 1 ==>
                  var b := BucketOf(bounds, OfRank(seen, rank));
                  if b < |bounds| then BucketOf(bounds, r.value) == b else r.value == bounds[|bounds| - 1])
  {
    var rank := Rank(p, |seen|);
    if rank == 0 {
      InterpolatedFits(bounds, 0, 0, counts[0], 0);
    } else {
      EstimateBucket(bounds, counts, seen, rank, 0, 0);
    }
  }

  lemma {:induction false} EstimateAbove(bounds: seq<real>, counts: seq<nat>, rank: nat, i: nat, before: nat)
    requires Ascending(bounds) && bounds != [] && |counts| == |bounds| + 1 && i <= |bounds| && before <= rank
    ensures LowerEdge(bounds, i) <= Estimate(bounds, counts, rank, i, before)
    decreases |bounds| - i
  {
    if i < |bounds| {
      if rank <= before + counts[i] {
        InterpolatedFits(bounds, i, before, counts[i], rank);
      } else {
        EstimateAbove(bounds, counts, rank, i + 1, before + counts[i]);
        assert LowerEdge(bounds, i) < bounds[i] == LowerEdge(bounds, i + 1);
      }
    }
  }

  lemma MoreIsMore(low: real, high: real, inside: nat, a: nat, b: nat)
    requires low <= high && a <= b && inside > 0
    ensures Between(low, high, Fraction(a, inside)) <= Between(low, high, Fraction(b, inside))
  {
    DividedMonotone(a, b, inside);
    ScaledMonotone(Fraction(a, inside), Fraction(b, inside), high - low);
  }

  lemma DividedMonotone(a: nat, b: nat, whole: nat)
    requires a <= b
    ensures Fraction(a, whole) <= Fraction(b, whole)
  {
  }

  lemma {:induction false} EstimateMonotone(
    bounds: seq<real>, counts: seq<nat>, rank: nat, more: nat, i: nat, before: nat)
    requires Ascending(bounds) && bounds != [] && |counts| == |bounds| + 1 && i <= |bounds| && before <= rank <= more
    ensures Estimate(bounds, counts, rank, i, before) <= Estimate(bounds, counts, more, i, before)
    decreases |bounds| - i
  {
    if i < |bounds| {
      var next := before + counts[i];
      if more <= next {
        assert LowerEdge(bounds, i) < bounds[i];
        if counts[i] > 0 { MoreIsMore(LowerEdge(bounds, i), bounds[i], counts[i], rank - before, more - before); }
      } else if rank <= next {
        InterpolatedFits(bounds, i, before, counts[i], rank);
        EstimateAbove(bounds, counts, more, i + 1, next);
      } else {
        EstimateMonotone(bounds, counts, rank, more, i + 1, next);
      }
    }
  }

  lemma RankMonotone(p: real, q: real, n: nat)
    requires p <= q
    ensures Rank(p, n) <= Rank(q, n)
  {
    ScaledMonotone(Clamp(p), Clamp(q), n as real);
    CeilMonotone(Scaled(Clamp(p), n as real), Scaled(Clamp(q), n as real));
  }

  lemma CeilMonotone(x: real, y: real)
    requires x <= y
    ensures Ceil(x) <= Ceil(y)
  {
  }

  /** A higher percentile never gives a lower estimate. */
  lemma PercentileIsMonotone(bounds: seq<real>, counts: seq<nat>, sum: real, count: nat, p: real, q: real)
    requires Ascending(bounds) && |counts| == |bounds| + 1 && count > 0 && p <= q
    ensures Percentile(bounds, counts, sum, count, p).value <= Percentile(bounds, counts, sum, count, q).value
  {
    RankMonotone(p, q, count);
    if bounds != [] { EstimateMonotone(bounds, counts, Rank(p, count), Rank(q, count), 0, 0); }
  }

  // ----- Inside a bucket --------------------------------------------------

  /** The rank a percentile asks for is the least that covers the fraction, from none to all. */
  lemma RankIsLeast(p: real, n: nat, k: nat)
    ensures 0.0 <= p <= 1.0 ==> (Rank(p, n) <= k <==> Scaled(p, n as real) <= k as real)
    ensures p <= 0.0 ==> Rank(p, n) == 0
    ensures p >= 1.0 ==> Rank(p, n) == n
  {
    CeilIsLeast(Scaled(Clamp(p), n as real), k);
    if p <= 0.0 { assert Scaled(0.0, n as real) == 0.0; }
    if p >= 1.0 { assert Scaled(1.0, n as real) == n as real; }
  }

  lemma CeilIsLeast(x: real, k: int)
    ensures Ceil(x) <= k <==> x <= k as real
  {
  }

  /** Ranks that a bucket covers are spread evenly over it, up to its bound. */
  ghost predicate Interpolates(estimate: real, low: real, high: real, part: nat, inside: nat) {
    Scaled(inside as real, estimate - low) == Scaled(part as real, high - low)
  }

  lemma FractionTimes(part: nat, whole: nat, width: real)
    requires whole > 0
    ensures Scaled(whole as real, Scaled(Fraction(part, whole), width)) == Scaled(part as real, width)
  {
    var f := Fraction(part, whole);
    assert whole as real * f == part as real;
    assert whole as real * (f * width) == (whole as real * f) * width;
  }

  lemma {:induction false} SumOfGrows(counts: seq<nat>, i: nat, j: nat)
    requires i <= j <= |counts|
    ensures SumOf(counts, i) <= SumOf(counts, j)
  {
    if i < j { SumOfGrows(counts, i, j - 1); }
  }

  lemma {:induction false} EstimateSkips(bounds: seq<real>, counts: seq<nat>, rank: nat, i: nat, j: nat)
    requires bounds != [] && |counts| == |bounds| + 1 && j <= i <= |bounds| && SumOf(counts, i) < rank
    ensures SumOf(counts, j) < rank
    ensures Estimate(bounds, counts, rank, j, SumOf(counts, j)) == Estimate(bounds, counts, rank, i, SumOf(counts, i))
    decreases i - j
  {
    SumOfGrows(counts, j, i);
    if j < i {
      SumOfGrows(counts, j + 1, i);
      EstimateSkips(bounds, counts, rank, i, j + 1);
    }
  }

  lemma EstimateInterpolates(bounds: seq<real>, counts: seq<nat>, rank: nat, i: nat)
    requires bounds != [] && |counts| == |bounds| + 1 && i < |bounds|
    requires SumOf(counts, i) < rank <= SumOf(counts, i + 1)
    ensures Interpolates(Estimate(bounds, counts, rank, 0, 0), LowerEdge(bounds, i), bounds[i],
                         rank - SumOf(counts, i), counts[i])
  {
    EstimateSkips(bounds, counts, rank, i, 0);
    FractionTimes(rank - SumOf(counts, i), counts[i], bounds[i] - LowerEdge(bounds, i));
  }

  /**
   After any observations, the estimate divides its bucket in the proportion in which the rank divides
   the observations there.
   */
  lemma PercentileInterpolates(bounds: seq<real>, counts: seq<nat>, seen: seq<real>, p: real)
    requires Ascending(bounds) && Counts(bounds, counts, seen) && Rank(p, |seen|) >= 1
    requires BucketOf(bounds, OfRank(seen, Rank(p, |seen|))) < |bounds|
    ensures var rank, r := Rank(p, |seen|), Percentile(bounds, counts, Sum(seen), |seen|, p);
            var b := BucketOf(bounds, OfRank(seen, rank));
            var before := if b == 0 then 0 else CountAtMost(seen, bounds[b - 1]);
            && r.Some? && before < rank <= before + CountIn(bounds, seen, b)
            && Interpolates(r.value, LowerEdge(bounds, b), bounds[b], rank - before, CountIn(bounds, seen, b))
  {
    var rank := Rank(p, |seen|);
    var b := BucketOf(bounds, OfRank(seen, rank));
    RankInBucket(bounds, counts, seen, rank, b);
    if b > 0 {
      RankInBucket(bounds, counts, seen, rank, b - 1);
      SumsUp(bounds, counts, seen, b - 1);
      UpToIsAtMost(bounds, seen, b - 1);
    }
    EstimateInterpolates(bounds, counts, rank, b);
  }

  /**
   Within a bucket, one rank more moves the estimate by the bucket's width over its count; the last
   rank of the bucket is estimated at its bound.
   */
  lemma RanksAreEquallySpaced(bounds: seq<real>, counts: seq<nat>, rank: nat, i: nat)
    requires bounds != [] && |counts| == |bounds| + 1 && i < |bounds|
    requires SumOf(counts, i) < rank <= SumOf(counts, i + 1)
    ensures var width := bounds[i] - LowerEdge(bounds, i);
            && (rank < SumOf(counts, i + 1) ==>
                  Scaled(counts[i] as real,
                         Estimate(bounds, counts, rank + 1, 0, 0) - Estimate(bounds, counts, rank, 0, 0)) == width)
            && (rank == SumOf(counts, i) + 1 ==>
                  Scaled(counts[i] as real, Estimate(bounds, counts, rank, 0, 0) - LowerEdge(bounds, i)) == width)
            && (rank == SumOf(counts, i + 1) ==> Estimate(bounds, counts, rank, 0, 0) == bounds[i])
  {
    var low, part, inside := LowerEdge(bounds, i), rank - SumOf(counts, i), counts[i];
    var width := bounds[i] - low;
    EstimateInterpolates(bounds, counts, rank, i);
    var here := Estimate(bounds, counts, rank, 0, 0);
    ScaledSuccessor(part, width);
    if part == inside { SameFactor(inside, here - low, width); }
    if rank < SumOf(counts, i + 1) {
      EstimateInterpolates(bounds, counts, rank + 1, i);
      ScaledDifference(inside as real, Estimate(bounds, counts, rank + 1, 0, 0) - low, here - low);
    }
  }

  lemma ScaledSuccessor(part: nat, width: real)
    ensures Scaled((part + 1) as real, width) == Scaled(part as real, width) + width
    ensures Scaled(1 as real, width) == width
  {
  }

  lemma ScaledDifference(f: real, x: real, y: real)
    ensures Scaled(f, x - y) == Scaled(f, x) - Scaled(f, y)
  {
  }

  lemma SameFactor(inside: nat, x: real, y: real)
    requires inside > 0 && Scaled(inside as real, x) == Scaled(inside as real, y)
    ensures x == y
  {
    ScaledDifference(inside as real, x, y);
    NoZeroDivisor(inside as real, x - y);
  }

  lemma NoZeroDivisor(f: real, d: real)
    ensures Scaled(f, d) == 0.0 ==> f == 0.0 || d == 0.0
  {
  }

  /** Rank 0 is estimated at 0, and the rank of everything before a bucket at that bucket's lower edge. */
  lemma OpeningRank(bounds: seq<real>, counts: seq<nat>, i: nat)
    requires bounds != [] && |counts| == |bounds| + 1 && i <= |bounds| && (i > 0 ==> counts[i - 1] > 0)
    ensures Estimate(bounds, counts, SumOf(counts, i), 0, 0) == LowerEdge(bounds, i)
  {
    if i == 0 {
      assert Scaled(0.0, bounds[0]) == 0.0;
    } else {
      RanksAreEquallySpaced(bounds, counts, SumOf(counts, i), i - 1);
    }
  }

  /** Without observations there is no estimate; without buckets it is the mean. */
  lemma MeanWithoutBuckets(bounds: seq<real>, counts: seq<nat>, seen: seq<real>, p: real)
    requires |counts| == |bounds| + 1
    ensures var r := Percentile(bounds, counts, Sum(seen), |seen|, p);
            && (r.None? <==> seen == [])
            && (seen != [] && bounds == [] ==> Scaled(|seen| as real, r.value) == Sum(seen))
  {
  }

  lemma {:induction false} SumIsAdditive(s: seq<real>, t: seq<real>, x: real)
    ensures Sum([x]) == x && Sum([]) == 0.0 && Sum(s + t) == Sum(s) + Sum(t)
  {
    assert [x][..0] == [];
    if t == [] {
      assert s + t == s;
    } else {
      SumIsAdditive(s, t[..|t| - 1], x);
      assert (s + t)[..|s + t| - 1] == s + t[..|t| - 1];
    }
  }

  // ----- The histogram ----------------------------------------------------

  class Histogram {
    const bounds: seq<real>
    var counts: seq<nat>
    var sum: real
    var count: nat
    /** Every observation so far. */
    ghost var seen: seq<real>

    ghost predicate Valid()
      reads this
    {
      Counts(bounds, counts, seen) && sum == Sum(seen) && count == |seen|
    }

    constructor (bounds: seq<real>)
      ensures Valid() && this.bounds == bounds && seen == []
    {
      this.bounds := bounds;
      counts, sum, count, seen := seq(|bounds| + 1, _ => 0), 0.0, 0, [];
    }

    method Observe(value: real)
      requires Valid()
      modifies this
      ensures Valid() && seen == old(seen) + [value]
    {
      var bucket := 0;
      while bucket < |bounds| && value > bounds[bucket]
        invariant bucket <= |bounds| && BucketOf(bounds, value) == bucket + BucketOf(bounds[bucket..], value)
      {
        assert bounds[bucket..][1..] == bounds[bucket + 1..];
        bucket := bucket + 1;
      }
      counts := counts[bucket := counts[bucket] + 1];
      sum := sum + value;
      count := count + 1;
      seen := seen + [value];
      assert seen[..|seen| - 1] == old(seen);
    }

    method PercentileAt(p: real) returns (r: Option<real>)
      requires Valid()
      ensures r == Percentile(bounds, counts, sum, count, p)
    {
      if count == 0 { return None; }
      if |bounds| == 0 { return Some(sum / count as real); }
      var target := Rank(p, count);
      var cumulative, i := 0, 0;
      while i < |bounds|
        invariant i <= |bounds| && cumulative <= target
        invariant Estimate(bounds, counts, target, 0, 0) == Estimate(bounds, counts, target, i, cumulative)
      {
        var next := cumulative + counts[i];
        if target <= next {
          return Some(Interpolated(bounds, i, cumulative, counts[i], target));
        }
        cumulative := next;
        i := i + 1;
      }
      r := Some(bounds[|bounds| - 1]);
    }
  }
}
