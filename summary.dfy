/** The summary `analyze` builds from the contact records (app.js): all records
    sorted by time, the medians of the per-contact metrics, the heel-strike rate
    and the contact count. */
module Summary {
  import opened Numbers
  import opened Stats
  import opened Pose
  import opened ContactMetrics

  predicate SortedByTime(s: seq<ContactMetric>) {
    forall i, j :: 0 <= i < j < |s| ==> s[i].t <= s[j].t
  }

  /** Inserts `x` after every record that is not later than it. */
  function InsertByTime(s: seq<ContactMetric>, x: ContactMetric): (r: seq<ContactMetric>)
    requires SortedByTime(s)
    ensures SortedByTime(r)
    ensures multiset(r) == multiset(s) + multiset{x}
    ensures |r| == |s| + 1
  {
    if s == [] then [x]
    else if s[|s| - 1].t <= x.t then s + [x]
    else
      var init, last := s[..|s| - 1], s[|s| - 1];
      assert s == init + [last];
      var rest := InsertByTime(init, x);
      assert forall k :: 0 <= k < |rest| ==> rest[k].t <= last.t by {
        forall k | 0 <= k < |rest| ensures rest[k].t <= last.t {
          assert rest[k] in multiset(init) + multiset{x};
          if rest[k] != x {
            assert rest[k] in init;
          }
        }
      }
      rest + [last]
  }

  /** `[...left, ...right].sort((a, b) => a.t - b.t)`: the records ascending by
      time, a permutation of the input. */
  function SortByTime(s: seq<ContactMetric>): (r: seq<ContactMetric>)
    ensures SortedByTime(r)
    ensures multiset(r) == multiset(s)
    ensures |r| == |s|
  {
    if s == [] then []
    else
      assert s == s[..|s| - 1] + [s[|s| - 1]];
      InsertByTime(SortByTime(s[..|s| - 1]), s[|s| - 1])
  }

  // Columns of the record list.

  /** `all.map(f)`. */
  function Column<T>(s: seq<ContactMetric>, f: ContactMetric -> T): (r: seq<T>)
    ensures |r| == |s|
    ensures forall i :: 0 <= i < |s| ==> r[i] == f(s[i])
  {
    seq(|s|, i requires 0 <= i < |s| => f(s[i]))
  }

  function OverstrideRatioOf(m: ContactMetric): Num { m.overstrideRatio }
  function KneeAngleOf(m: ContactMetric): Num { m.kneeAngle }
  function TrunkLeanOf(m: ContactMetric): Num { m.trunkLeanDeg }
  function RetractSpeedOf(m: ContactMetric): Num { m.retractSpeed }
  function StrikeOf(m: ContactMetric): Strike { m.strike }

  // ---------------------------------------------------------------------------
  // Heel-strike rate

  /** Occurrences of `k` in `s`. */
  function Count(s: seq<Strike>, k: Strike): (n: nat)
    ensures n <= |s|
  {
    if s == [] then 0 else (if s[0] == k then 1 else 0) + Count(s[1..], k)
  }

  /** Strikes that were classified. */
  function Known(s: seq<Strike>): nat {
    |s| - Count(s, Unknown)
  }

  /** The share of heel strikes among the classified strikes; not-a-number when
      no strike was classified. */
  function HeelStrikeRate(s: seq<Strike>): (r: Num)
    ensures r.NaN? <==> Count(s, Unknown) == |s|
  {
    if Known(s) == 0 then NaN else Finite(Count(s, Heel) as real / Known(s) as real)
  }

  lemma {:induction false} CountHeelKnown(s: seq<Strike>)
    ensures Count(s, Heel) + Count(s, Unknown) <= |s|
  {
    if s != [] {
      CountHeelKnown(s[1..]);
    }
  }

  lemma {:induction false} CountZero(s: seq<Strike>, k: Strike)
    ensures Count(s, k) == 0 <==> k !in s
    ensures Count(s, k) == |s| <==> forall i :: 0 <= i < |s| ==> s[i] == k
  {
    if s != [] {
      CountZero(s[1..], k);
      assert s == [s[0]] + s[1..];
      if Count(s, k) == |s| {
        forall i | 0 <= i < |s| ensures s[i] == k {
          if i > 0 {
            assert s[i] == s[1..][i - 1];
          }
        }
      }
    }
  }

  /** The heel-strike rate is not-a-number exactly when every strike is unknown. */
  lemma HeelStrikeRateUndefined(s: seq<Strike>)
    ensures HeelStrikeRate(s).NaN? <==> forall i :: 0 <= i < |s| ==> s[i] == Unknown
  {
    CountZero(s, Unknown);
  }

  /** Otherwise it lies in [0, 1], is 0 exactly when no strike is a heel strike
      and 1 exactly when every classified strike is. */
  lemma HeelStrikeRateBounds(s: seq<Strike>)
    requires HeelStrikeRate(s).Finite?
    ensures 0.0 <= HeelStrikeRate(s).v <= 1.0
    ensures HeelStrikeRate(s).v == 0.0 <==> Heel !in s
    ensures HeelStrikeRate(s).v == 1.0 <==> Count(s, Heel) == Known(s)
  {
    CountZero(s, Heel);
    CountHeelKnown(s);
    var h, n := Count(s, Heel) as real, Known(s) as real;
    DivBetween(h, n, 0.0, 1.0);
    RatioOne(h, n);
  }

  lemma RatioOne(h: real, n: real)
    requires n > 0.0
    ensures h / n == 1.0 <==> h == n
    ensures h / n == 0.0 <==> h == 0.0
  {
    if h / n == 1.0 {
      assert h == (h / n) * n;
    }
    if h / n == 0.0 {
      assert h == (h / n) * n;
    }
  }

  lemma {:induction false} CountMultiset(s: seq<Strike>, k: Strike)
    ensures Count(s, k) == multiset(s)[k]
  {
    if s != [] {
      assert s == [s[0]] + s[1..];
      CountMultiset(s[1..], k);
    }
  }

  // ---------------------------------------------------------------------------
  // The summary

  datatype SummaryRecord = SummaryRecord(
    overstrideRatioMedian: Num, kneeAngleMedian: Num, trunkLeanMedian: Num,
    heelStrikeRate: Num, retractSpeedMedian: Num, contactCount: nat)

  /** `analysis.summary` for the sorted contact list. */
  function Summarize(all: seq<ContactMetric>): (r: SummaryRecord)
    ensures r.contactCount == |all|
    ensures r.heelStrikeRate.NaN? <==> Count(Column(all, StrikeOf), Unknown) == |all|
  {
    SummaryRecord(
      Median(Column(all, OverstrideRatioOf)), Median(Column(all, KneeAngleOf)),
      Median(Column(all, TrunkLeanOf)), HeelStrikeRate(Column(all, StrikeOf)),
      Median(Column(all, RetractSpeedOf)), |all|)
  }

  /** Each median is not-a-number exactly when its column has no finite value,
      the heel-strike rate exactly when no strike was classified, and the count
      is the number of records. */
  lemma SummaryFields(all: seq<ContactMetric>)
    ensures Summarize(all).contactCount == |all|
    ensures Summarize(all).overstrideRatioMedian.NaN? <==> FiniteValues(Column(all, OverstrideRatioOf)) == []
    ensures Summarize(all).kneeAngleMedian.NaN? <==> FiniteValues(Column(all, KneeAngleOf)) == []
    ensures Summarize(all).trunkLeanMedian.NaN? <==> FiniteValues(Column(all, TrunkLeanOf)) == []
    ensures Summarize(all).retractSpeedMedian.NaN? <==> FiniteValues(Column(all, RetractSpeedOf)) == []
    ensures Summarize(all).heelStrikeRate.NaN? <==> forall i :: 0 <= i < |all| ==> all[i].strike == Unknown
  {
    HeelStrikeRateUndefined(Column(all, StrikeOf));
  }

  /** Inserting a record permutes a column accordingly. */
  lemma {:induction false} InsertColumn<T>(s: seq<ContactMetric>, x: ContactMetric, f: ContactMetric -> T)
    requires SortedByTime(s)
    ensures multiset(Column(InsertByTime(s, x), f)) == multiset(Column(s, f)) + multiset{f(x)}
  {
    if s == [] {
    } else if s[|s| - 1].t <= x.t {
      ColumnAppend(s, x, f);
    } else {
      var init, last := s[..|s| - 1], s[|s| - 1];
      ColumnAppend(init, last, f);
      assert s == init + [last];
      InsertColumn(init, x, f);
      ColumnAppend(InsertByTime(init, x), last, f);
    }
  }

  lemma ColumnAppend<T>(s: seq<ContactMetric>, x: ContactMetric, f: ContactMetric -> T)
    ensures Column(s + [x], f) == Column(s, f) + [f(x)]
  {
  }

  /** Sorting permutes every column. */
  lemma {:induction false} SortColumn<T>(s: seq<ContactMetric>, f: ContactMetric -> T)
    ensures multiset(Column(SortByTime(s), f)) == multiset(Column(s, f))
  {
    if s != [] {
      var init, last := s[..|s| - 1], s[|s| - 1];
      assert s == init + [last];
      SortColumn(init, f);
      InsertColumn(SortByTime(init), last, f);
      ColumnAppend(init, last, f);
    }
  }

  lemma MedianPermutation(xs: seq<Num>, ys: seq<Num>)
    requires multiset(xs) == multiset(ys)
    ensures Median(xs) == Median(ys)
  {
    PercentilePermutation(xs, ys, 0.5);
  }

  lemma HeelStrikeRatePermutation(a: seq<Strike>, b: seq<Strike>)
    requires multiset(a) == multiset(b)
    ensures HeelStrikeRate(a) == HeelStrikeRate(b)
  {
    CountMultiset(a, Heel);
    CountMultiset(b, Heel);
    CountMultiset(a, Unknown);
    CountMultiset(b, Unknown);
    assert |a| == |multiset(a)| == |multiset(b)| == |b|;
  }

  /** The summary does not depend on the order of the records: summarising the
      sorted list gives what summarising the unsorted one would. */
  lemma SummaryOrderFree(s: seq<ContactMetric>)
    ensures Summarize(SortByTime(s)) == Summarize(s)
  {
    var r := SortByTime(s);
    SortColumn(s, OverstrideRatioOf);
    MedianPermutation(Column(r, OverstrideRatioOf), Column(s, OverstrideRatioOf));
    SortColumn(s, KneeAngleOf);
    MedianPermutation(Column(r, KneeAngleOf), Column(s, KneeAngleOf));
    SortColumn(s, TrunkLeanOf);
    MedianPermutation(Column(r, TrunkLeanOf), Column(s, TrunkLeanOf));
    SortColumn(s, RetractSpeedOf);
    MedianPermutation(Column(r, RetractSpeedOf), Column(s, RetractSpeedOf));
    SortColumn(s, StrikeOf);
    HeelStrikeRatePermutation(Column(r, StrikeOf), Column(s, StrikeOf));
  }

  /** `direction = directionRight >= directionLeft ? 1 : -1` once there are votes:
      the majority side, with a tie going to the right. */
  function MajorityDirection(left: nat, right: nat, locked: int): (r: int)
    ensures left + right > 0 ==> (r == 1 <==> right >= left) && (r == -1 <==> right < left)
    ensures left + right == 0 ==> r == locked
  {
    if left + right > 0 then (if right >= left then 1 else -1) else locked
  }
}
