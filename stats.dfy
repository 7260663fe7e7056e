/** The statistics helpers of the pipeline: `percentile`, `median` and `mean`
    (app.js). Each ignores non-finite inputs and is non-finite only when no finite
    input is left. */
module Stats {
  import opened Numbers

  /** The finite values of `xs`, in their order: `arr.filter(Number.isFinite)`. */
  function FiniteValues(xs: seq<Num>): (r: seq<real>)
    ensures |r| <= |xs|
    ensures forall x :: x in r <==> Finite(x) in xs
  {
    if xs == [] then []
    else
      assert xs == [xs[0]] + xs[1..];
      (if xs[0].Finite? then [xs[0].v] else []) + FiniteValues(xs[1..])
  }

  predicate Sorted(s: seq<real>) {
    forall i, j :: 0 <= i < j < |s| ==> s[i] <= s[j]
  }

  function Insert(x: real, s: seq<real>): (r: seq<real>)
    requires Sorted(s)
    ensures Sorted(r)
    ensures multiset(r) == multiset(s) + multiset{x}
    ensures |r| == |s| + 1 && (r[0] == x || (s != [] && r[0] == s[0]))
  {
    if s == [] then [x]
    else if x <= s[0] then [x] + s
    else
      assert s == [s[0]] + s[1..];
      var rest := Insert(x, s[1..]);
      SortedCons(s[0], rest);
      [s[0]] + rest
  }

  /** A sorted list stays sorted with a head not above its first element. */
  lemma SortedCons(a: real, s: seq<real>)
    requires Sorted(s) && (s != [] ==> a <= s[0])
    ensures Sorted([a] + s)
  {
    var r := [a] + s;
    forall i, j | 0 <= i < j < |r| ensures r[i] <= r[j] {
      if i == 0 && j > 1 {
        assert r[1] <= r[j];
      }
    }
  }
  /** `xs.slice().sort((a, b) => a - b)` on finite values: an ascending
      permutation of its input. */
  function Sort(s: seq<real>): (r: seq<real>)
    ensures Sorted(r)
    ensures multiset(r) == multiset(s)
  {
    if s == [] then []
    else
      assert s == [s[0]] + s[1..];
      Insert(s[0], Sort(s[1..]))
  }

  function MinOf(s: seq<real>): (r: real)
    requires s != []
    ensures r in s && forall x :: x in s ==> r <= x
  {
    if |s| == 1 then s[0]
    else
      assert s == [s[0]] + s[1..];
      MinReal(s[0], MinOf(s[1..]))
  }

  function MaxOf(s: seq<real>): (r: real)
    requires s != []
    ensures r in s && forall x :: x in s ==> x <= r
  {
    if |s| == 1 then s[0]
    else
      assert s == [s[0]] + s[1..];
      MaxReal(s[0], MaxOf(s[1..]))
  }

  /** The fractional rank `(n - 1) * p` at which `percentile` reads a sorted list
      of `n` values. */
  function RankIndex(n: nat, p: real): real {
    (n - 1) as real * p
  }

  lemma RankIndexInRange(n: nat, p: real)
    requires n > 0 && 0.0 <= p <= 1.0
    ensures 0.0 <= RankIndex(n, p) <= (n - 1) as real
    ensures 0 <= RankIndex(n, p).Floor <= Ceil(RankIndex(n, p)) <= n - 1
    ensures Ceil(RankIndex(n, p)) <= RankIndex(n, p).Floor + 1
  {
    RankIndexBounds(n, p);
    assert Ceil(RankIndex(n, p)) <= n - 1;
  }

  lemma RankIndexBounds(n: nat, p: real)
    requires n > 0 && 0.0 <= p <= 1.0
    ensures 0.0 <= RankIndex(n, p) <= (n - 1) as real
  {
    var m := (n - 1) as real;
    MulMonotone(p, 1.0, m);
    MulMonotone(0.0, p, m);
    assert p * m <= 1.0 * m;
  }

  lemma RankIndexMonotone(n: nat, p: real, q: real)
    requires n > 0 && 0.0 <= p <= q <= 1.0
    ensures RankIndex(n, p) <= RankIndex(n, q)
  {
    MulMonotone(p, q, (n - 1) as real);
  }

  /** Linear interpolation between the neighbouring ranks `floor(idx)` and
      `ceil(idx)` of a sorted list. */
  function Interpolated(s: seq<real>, p: real): real
    requires s != [] && 0.0 <= p <= 1.0
  {
    var idx := RankIndex(|s|, p);
    RankIndexInRange(|s|, p);
    var lo := idx.Floor;
    var hi := Ceil(idx);
    if lo == hi then s[lo] else s[lo] + (s[hi] - s[lo]) * (idx - lo as real)
  }

  /** `percentile(arr, p)`: not-a-number when `arr` has no finite value, else the
      interpolated `p`-quantile of its finite values. */
  function Percentile(xs: seq<Num>, p: real): (r: Num)
    requires 0.0 <= p <= 1.0
    ensures r.NaN? <==> FiniteValues(xs) == []
  {
    var s := Sort(FiniteValues(xs));
    assert |s| == |multiset(s)| == |multiset(FiniteValues(xs))| == |FiniteValues(xs)|;
    if s == [] then NaN else Finite(Interpolated(s, p))
  }

  /** `median(arr)`. */
  function Median(xs: seq<Num>): (r: Num)
    ensures r.NaN? <==> FiniteValues(xs) == []
  {
    Percentile(xs, 0.5)
  }

  function Sum(s: seq<real>): real {
    if s == [] then 0.0 else s[0] + Sum(s[1..])
  }

  /** `mean(arr)`: the average of the finite values, not-a-number when none. */
  function Mean(xs: seq<Num>): (r: Num)
    ensures r.NaN? <==> FiniteValues(xs) == []
  {
    var s := FiniteValues(xs);
    if s == [] then NaN else Finite(Sum(s) / |s| as real)
  }

  // ---------------------------------------------------------------------------
  // Properties

  /** A sorted permutation starts at the minimum and ends at the maximum. */
  lemma SortedEnds(s: seq<real>, t: seq<real>)
    requires Sorted(s) && multiset(s) == multiset(t) && s != []
    ensures t != [] && s[0] == MinOf(t) && s[|s| - 1] == MaxOf(t)
  {
    assert |t| == |multiset(t)| == |multiset(s)| == |s|;
    assert s[0] in multiset(t) && s[|s| - 1] in multiset(t);
    assert s[0] in t && s[|s| - 1] in t;
    assert MinOf(t) in multiset(s) && MaxOf(t) in multiset(s);
    var i :| 0 <= i < |s| && s[i] == MinOf(t);
    var j :| 0 <= j < |s| && s[j] == MaxOf(t);
    assert s[0] <= s[i] && s[j] <= s[|s| - 1];
  }

  lemma MulNonneg(a: real, b: real)
    requires a >= 0.0 && b >= 0.0
    ensures a * b >= 0.0
  {
  }

  /** The interpolated value lies between the two ranks it interpolates. */
  lemma InterpolatedBetween(s: seq<real>, p: real)
    requires s != [] && 0.0 <= p <= 1.0 && Sorted(s)
    ensures 0 <= RankIndex(|s|, p).Floor <= Ceil(RankIndex(|s|, p)) < |s|
    ensures s[RankIndex(|s|, p).Floor] <= Interpolated(s, p) <= s[Ceil(RankIndex(|s|, p))]
  {
    RankIndexInRange(|s|, p);
    var idx := RankIndex(|s|, p);
    var lo := idx.Floor;
    var hi := Ceil(idx);
    if lo != hi {
      var d := s[hi] - s[lo];
      var f := idx - lo as real;
      assert 0.0 <= f < 1.0;
      assert d >= 0.0;
      MulNonneg(d, 1.0 - f);
      MulNonneg(d, f);
    }
  }

  /** `percentile` lies within the range of the finite values. */
  lemma PercentileWithinRange(xs: seq<Num>, p: real)
    requires 0.0 <= p <= 1.0
    ensures Percentile(xs, p).Finite? ==>
      MinOf(FiniteValues(xs)) <= Percentile(xs, p).v <= MaxOf(FiniteValues(xs))
  {
    var s := Sort(FiniteValues(xs));
    if s != [] {
      SortedEnds(s, FiniteValues(xs));
      InterpolatedWithin(s, p);
      assert Percentile(xs, p) == Finite(Interpolated(s, p));
    }
  }

  /** The interpolated value lies between the first and the last element. */
  lemma InterpolatedWithin(s: seq<real>, p: real)
    requires s != [] && 0.0 <= p <= 1.0 && Sorted(s)
    ensures s[0] <= Interpolated(s, p) <= s[|s| - 1]
  {
    InterpolatedBetween(s, p);
    var lo, hi := RankIndex(|s|, p).Floor, Ceil(RankIndex(|s|, p));
    assert s[0] <= s[lo];
    assert s[hi] <= s[|s| - 1];
  }

  /** `percentile(arr, 0)` is the minimum and `percentile(arr, 1)` the maximum of
      the finite values. */
  lemma PercentileEndpoints(xs: seq<Num>)
    requires FiniteValues(xs) != []
    ensures Percentile(xs, 0.0) == Finite(MinOf(FiniteValues(xs)))
    ensures Percentile(xs, 1.0) == Finite(MaxOf(FiniteValues(xs)))
  {
    var s := Sort(FiniteValues(xs));
    assert |s| == |multiset(s)| == |multiset(FiniteValues(xs))|;
    SortedEnds(s, FiniteValues(xs));
    assert RankIndex(|s|, 0.0) == 0.0;
    assert RankIndex(|s|, 1.0) == (|s| - 1) as real;
  }

  /** Interpolation in a sorted list is nondecreasing in `p`. */
  lemma InterpolatedMonotone(s: seq<real>, p: real, q: real)
    requires s != [] && Sorted(s) && 0.0 <= p <= q <= 1.0
    ensures Interpolated(s, p) <= Interpolated(s, q)
  {
    RankIndexInRange(|s|, p);
    RankIndexInRange(|s|, q);
    RankIndexMonotone(|s|, p, q);
    InterpolatedBetween(s, p);
    InterpolatedBetween(s, q);
    var ip, iq := RankIndex(|s|, p), RankIndex(|s|, q);
    var lp, lq := ip.Floor, iq.Floor;
    var hp, hq := Ceil(ip), Ceil(iq);
    if lp < lq {
      assert hp <= lq;
    } else {
      assert lp == lq;
      if lp != hp && lq != hq {
        var d := s[hp] - s[lp];
        assert d >= 0.0;
        MulNonneg(d, iq - ip);
        assert d * (iq - lq as real) - d * (ip - lp as real) == d * (iq - ip);
      }
    }
  }

  /** `percentile` is nondecreasing in `p`. */
  lemma PercentileMonotone(xs: seq<Num>, p: real, q: real)
    requires 0.0 <= p <= q <= 1.0
    ensures Percentile(xs, p).Finite? <==> Percentile(xs, q).Finite?
    ensures Percentile(xs, p).Finite? ==> Percentile(xs, p).v <= Percentile(xs, q).v
  {
    var s := Sort(FiniteValues(xs));
    if s != [] {
      InterpolatedMonotone(s, p, q);
    }
  }

  /** In the sorted finite values, every value ranked at or below `(n-1)*p` is at
      most the percentile, and every value ranked at or above it is at least the
      percentile. */
  lemma PercentileSplitsRanks(xs: seq<Num>, p: real, i: int)
    requires 0.0 <= p <= 1.0
    requires 0 <= i < |Sort(FiniteValues(xs))|
    ensures Percentile(xs, p).Finite?
    ensures i as real <= RankIndex(|Sort(FiniteValues(xs))|, p) ==>
      Sort(FiniteValues(xs))[i] <= Percentile(xs, p).v
    ensures i as real >= RankIndex(|Sort(FiniteValues(xs))|, p) ==>
      Sort(FiniteValues(xs))[i] >= Percentile(xs, p).v
  {
    var s := Sort(FiniteValues(xs));
    assert Percentile(xs, p) == Finite(Interpolated(s, p));
    InterpolatedSplits(s, p, i);
  }

  /** The same for a sorted list and its interpolated value. */
  lemma InterpolatedSplits(s: seq<real>, p: real, i: int)
    requires s != [] && Sorted(s) && 0.0 <= p <= 1.0 && 0 <= i < |s|
    ensures i as real <= RankIndex(|s|, p) ==> s[i] <= Interpolated(s, p)
    ensures i as real >= RankIndex(|s|, p) ==> s[i] >= Interpolated(s, p)
  {
    InterpolatedBetween(s, p);
    var idx := RankIndex(|s|, p);
    if i as real <= idx {
      assert i <= idx.Floor;
    }
    if i as real >= idx {
      assert i >= Ceil(idx);
    }
  }

  /** The median splits the sorted finite values in halves: the lower half is at
      most the median and the upper half at least the median. */
  lemma MedianSplitsSorted(xs: seq<Num>, i: int)
    requires 0 <= i < |Sort(FiniteValues(xs))|
    ensures Median(xs).Finite?
    ensures 2 * i <= |Sort(FiniteValues(xs))| - 1 ==> Sort(FiniteValues(xs))[i] <= Median(xs).v
    ensures 2 * i >= |Sort(FiniteValues(xs))| - 1 ==> Sort(FiniteValues(xs))[i] >= Median(xs).v
  {
    var n := |Sort(FiniteValues(xs))|;
    assert RankIndex(n, 0.5) == (n - 1) as real / 2.0;
    PercentileSplitsRanks(xs, 0.5, i);
  }

  lemma DivBetween(x: real, n: real, lo: real, hi: real)
    requires n > 0.0 && n * lo <= x <= n * hi
    ensures lo <= x / n <= hi
  {
  }

  lemma {:induction false} SumBounds(s: seq<real>, lo: real, hi: real)
    requires forall k :: 0 <= k < |s| ==> lo <= s[k] <= hi
    ensures |s| as real * lo <= Sum(s) <= |s| as real * hi
  {
    if s != [] {
      SumBounds(s[1..], lo, hi);
      assert (|s| - 1) as real * lo + lo == |s| as real * lo;
      assert (|s| - 1) as real * hi + hi == |s| as real * hi;
    }
  }

  /** The average of values within `[lo, hi]` is within `[lo, hi]`. */
  lemma AverageBetween(s: seq<real>, lo: real, hi: real)
    requires s != []
    requires forall k :: 0 <= k < |s| ==> lo <= s[k] <= hi
    ensures lo <= Sum(s) / |s| as real <= hi
  {
    var n: real := |s| as real;
    var t := Sum(s);
    SumBounds(s, lo, hi);
    assert n * lo <= t <= n * hi;
    DivBetween(t, n, lo, hi);
  }

  lemma BetweenMinMax(s: seq<real>)
    requires s != []
    ensures forall k :: 0 <= k < |s| ==> MinOf(s) <= s[k] <= MaxOf(s)
  {
    forall k | 0 <= k < |s| ensures MinOf(s) <= s[k] <= MaxOf(s) {
      assert s[k] in s;
    }
  }

  /** `mean` lies within the range of the finite values. */
  lemma MeanWithinRange(xs: seq<Num>)
    ensures Mean(xs).Finite? ==>
      MinOf(FiniteValues(xs)) <= Mean(xs).v <= MaxOf(FiniteValues(xs))
  {
    var s := FiniteValues(xs);
    if s != [] {
      BetweenMinMax(s);
      AverageBetween(s, MinOf(s), MaxOf(s));
    }
  }

  // ---------------------------------------------------------------------------
  // Order does not matter

  /** Each finite value occurs in `FiniteValues(xs)` as often as in `xs`. */
  lemma {:induction false} FiniteValuesCount(xs: seq<Num>, x: real)
    ensures multiset(FiniteValues(xs))[x] == multiset(xs)[Finite(x)]
  {
    if xs != [] {
      assert xs == [xs[0]] + xs[1..];
      FiniteValuesCount(xs[1..], x);
    }
  }

  lemma FiniteValuesPermutation(xs: seq<Num>, ys: seq<Num>)
    requires multiset(xs) == multiset(ys)
    ensures multiset(FiniteValues(xs)) == multiset(FiniteValues(ys))
  {
    forall x ensures multiset(FiniteValues(xs))[x] == multiset(FiniteValues(ys))[x] {
      FiniteValuesCount(xs, x);
      FiniteValuesCount(ys, x);
    }
  }

  /** A multiset has one ascending arrangement. */
  lemma {:induction false} SortedUnique(a: seq<real>, b: seq<real>)
    requires Sorted(a) && Sorted(b) && multiset(a) == multiset(b)
    ensures a == b
  {
    assert |a| == |multiset(a)| == |multiset(b)| == |b|;
    if a != [] {
      SortedHeads(a, b);
      SortedTail(a);
      SortedTail(b);
      SortedUnique(a[1..], b[1..]);
      assert a == [a[0]] + a[1..];
      assert b == [b[0]] + b[1..];
    }
  }

  lemma SortedHeads(a: seq<real>, b: seq<real>)
    requires Sorted(a) && Sorted(b) && multiset(a) == multiset(b) && a != [] && b != []
    ensures a[0] == b[0]
    ensures multiset(a[1..]) == multiset(b[1..])
  {
    assert b[0] in multiset(a);
    var i :| 0 <= i < |a| && a[i] == b[0];
    assert a[0] in multiset(b);
    var j :| 0 <= j < |b| && b[j] == a[0];
    assert a[0] <= a[i];
    assert b[0] <= b[j];
    assert a[0] == b[0];
    assert a == [a[0]] + a[1..];
    assert b == [b[0]] + b[1..];
    assert multiset(a) == multiset{a[0]} + multiset(a[1..]);
    assert multiset(b) == multiset{b[0]} + multiset(b[1..]);
    forall x ensures multiset(a[1..])[x] == multiset(b[1..])[x] {
      assert multiset(a)[x] == multiset{a[0]}[x] + multiset(a[1..])[x];
      assert multiset(b)[x] == multiset{b[0]}[x] + multiset(b[1..])[x];
    }
  }

  lemma SortedTail(a: seq<real>)
    requires Sorted(a) && a != []
    ensures Sorted(a[1..])
  {
    forall i, j | 0 <= i < j < |a| - 1 ensures a[1..][i] <= a[1..][j] {
      assert a[1..][i] == a[i + 1] && a[1..][j] == a[j + 1];
    }
  }

  /** `percentile` depends only on which values occur how often, not on their
      order. */
  lemma PercentilePermutation(xs: seq<Num>, ys: seq<Num>, p: real)
    requires 0.0 <= p <= 1.0 && multiset(xs) == multiset(ys)
    ensures Percentile(xs, p) == Percentile(ys, p)
  {
    FiniteValuesPermutation(xs, ys);
    SortedUnique(Sort(FiniteValues(xs)), Sort(FiniteValues(ys)));
  }
}
