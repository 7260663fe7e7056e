/** Ground-contact detection, `findContactPeaks` (app.js): local maxima of one
    heel's y-coordinate at or above the 80th percentile of the series, chosen
    greedily from left to right with a minimum time between accepted peaks. */
module ContactEvents {
  import opened Numbers
  import opened Stats

  /** Share of the series below the candidate threshold. */
  const PEAK_PERCENTILE: real := 0.80

  /** `arr[i]`, where an index outside the array reads as `undefined`, which is
      not a finite number. */
  function SampleAt(s: seq<Num>, i: int): Num {
    if 0 <= i < |s| then s[i] else NaN
  }

  /** The candidate threshold: the 80th percentile of the finite heel heights. */
  function PeakThreshold(y: seq<Num>): (r: Num)
    ensures r.NaN? <==> FiniteValues(y) == []
  {
    Percentile(y, PEAK_PERCENTILE)
  }

  /** Index `i` may be a contact: it has finite neighbours and a finite time,
      its height reaches the threshold, it rises from the left neighbour and
      does not fall towards the right one. */
  predicate IsPeakCandidate(y: seq<Num>, t: seq<Num>, i: int) {
    PeakThreshold(y).Finite? && IsCandidateAt(y, t, PeakThreshold(y).v, i)
  }

  /** The same test against a given threshold. */
  predicate IsCandidateAt(y: seq<Num>, t: seq<Num>, thr: real, i: int) {
    1 <= i < |y| - 1 &&
    y[i - 1].Finite? && y[i].Finite? && y[i + 1].Finite? && SampleAt(t, i).Finite? &&
    y[i].v >= thr && y[i].v > y[i - 1].v && y[i].v >= y[i + 1].v
  }

  /** Time of sample `i`. Only read at candidates, whose time is finite
      (`IsCandidateAt`); elsewhere it is 0. */
  function TimeAt(t: seq<Num>, i: int): real {
    if SampleAt(t, i).Finite? then SampleAt(t, i).v else 0.0
  }

  /** A candidate that the greedy scan passed over: the last peak accepted before
      it is less than `minStepSec` earlier. */
  predicate Suppressed(t: seq<Num>, peaks: seq<nat>, i: int, minStepSec: real) {
    exists k {:trigger LastBefore(peaks, k, i)} :: 0 <= k < |peaks| && LastBefore(peaks, k, i) &&
      TimeAt(t, i) - TimeAt(t, peaks[k]) < minStepSec
  }

  /** `peaks[k]` is the last peak before index `i`. */
  predicate LastBefore(peaks: seq<nat>, k: int, i: int)
    requires 0 <= k < |peaks|
  {
    peaks[k] < i && (k == |peaks| - 1 || i < peaks[k + 1])
  }

  /** `findContactPeaks(yArr, timeArr, minStepSec)`. The result is exactly the
      greedy selection: every index is a candidate, indices increase, accepted
      peaks are at least `minStepSec` apart, and every candidate left out lies
      within `minStepSec` after the last peak accepted before it (the earlier
      peak wins). */
  method FindContactPeaks(y: seq<Num>, t: seq<Num>, minStepSec: real) returns (peaks: seq<nat>)
    ensures FiniteValues(y) == [] ==> peaks == []
    ensures forall k :: 0 <= k < |peaks| ==> IsPeakCandidate(y, t, peaks[k])
    ensures Increasing(peaks)
    ensures Spaced(t, peaks, minStepSec)
    ensures forall i :: IsPeakCandidate(y, t, i) && i !in peaks ==> Suppressed(t, peaks, i, minStepSec)
  {
    var thr := PeakThreshold(y);
    if thr.NaN? {
      return [];
    }
    peaks := GreedyPeaks(y, t, thr.v, minStepSec);
  }

  /** Consecutive accepted peaks are at least `minStepSec` apart. */
  predicate Spaced(t: seq<Num>, peaks: seq<nat>, minStepSec: real) {
    forall k :: 0 < k < |peaks| ==> Gap(t, peaks, k) >= minStepSec
  }

  /** Time from peak `k - 1` to peak `k`. */
  function Gap(t: seq<Num>, peaks: seq<nat>, k: int): real
    requires 0 < k < |peaks|
  {
    TimeAt(t, peaks[k]) - TimeAt(t, peaks[k - 1])
  }

  /** The scan of `findContactPeaks` once the threshold is known. */
  method GreedyPeaks(y: seq<Num>, t: seq<Num>, thr: real, minStepSec: real) returns (peaks: seq<nat>)
    ensures forall k :: 0 <= k < |peaks| ==> IsCandidateAt(y, t, thr, peaks[k])
    ensures Increasing(peaks)
    ensures Spaced(t, peaks, minStepSec)
    ensures forall i :: IsCandidateAt(y, t, thr, i) && i !in peaks ==> Suppressed(t, peaks, i, minStepSec)
  {
    peaks := [];
    // `lastPeakT` starts at -Infinity, modelled as None.
    var lastPeakT: Option<real> := None;
    var i := 1;
    while i < |y| - 1
      invariant 1 <= i
      invariant Scanned(y, t, thr, minStepSec, peaks, i)
      invariant lastPeakT.None? <==> peaks == []
      invariant peaks != [] ==> lastPeakT.value == TimeAt(t, peaks[|peaks| - 1])
    {
      var y0, y1, y2 := y[i - 1], y[i], y[i + 1];
      var ti := SampleAt(t, i);
      if y0.Finite? && y1.Finite? && y2.Finite? && ti.Finite? && y1.v >= thr && y1.v > y0.v && y1.v >= y2.v {
        if lastPeakT.None? || ti.v - lastPeakT.value >= minStepSec {
          AcceptStep(y, t, thr, minStepSec, peaks, i);
          peaks := peaks + [i];
          lastPeakT := Some(ti.v);
        } else {
          RejectStep(y, t, thr, minStepSec, peaks, i);
        }
      } else {
        SkipStep(y, t, thr, minStepSec, peaks, i);
      }
      i := i + 1;
    }
    ScanDone(y, t, thr, minStepSec, peaks, i);
  }

  /** What the scan has established once it has looked at every index below
      `i`: the peaks are candidates below `i`, increasing and spaced, and every
      candidate below `i` that was left out is suppressed. */
  ghost predicate Scanned(y: seq<Num>, t: seq<Num>, thr: real, minStepSec: real, peaks: seq<nat>, i: int) {
    (forall k :: 0 <= k < |peaks| ==> IsCandidateAt(y, t, thr, peaks[k]) && peaks[k] < i) &&
    Increasing(peaks) && Spaced(t, peaks, minStepSec) &&
    (forall j :: j < i && IsCandidateAt(y, t, thr, j) && j !in peaks ==> Suppressed(t, peaks, j, minStepSec))
  }

  /** A candidate far enough from the last peak is accepted. */
  lemma AcceptStep(y: seq<Num>, t: seq<Num>, thr: real, minStepSec: real, peaks: seq<nat>, i: nat)
    requires Scanned(y, t, thr, minStepSec, peaks, i) && IsCandidateAt(y, t, thr, i)
    requires peaks != [] ==> TimeAt(t, i) - TimeAt(t, peaks[|peaks| - 1]) >= minStepSec
    ensures Scanned(y, t, thr, minStepSec, peaks + [i], i + 1)
  {
    AcceptOrder(t, minStepSec, peaks, i);
    AcceptSuppressed(y, t, thr, minStepSec, peaks, i);
  }

  /** A candidate too close to the last peak is suppressed by it. */
  lemma RejectStep(y: seq<Num>, t: seq<Num>, thr: real, minStepSec: real, peaks: seq<nat>, i: nat)
    requires Scanned(y, t, thr, minStepSec, peaks, i) && IsCandidateAt(y, t, thr, i)
    requires peaks != [] && TimeAt(t, i) - TimeAt(t, peaks[|peaks| - 1]) < minStepSec
    ensures Scanned(y, t, thr, minStepSec, peaks, i + 1)
  {
    var k := |peaks| - 1;
    assert LastBefore(peaks, k, i);
    assert Suppressed(t, peaks, i, minStepSec);
  }

  /** An index that is no candidate changes nothing. */
  lemma SkipStep(y: seq<Num>, t: seq<Num>, thr: real, minStepSec: real, peaks: seq<nat>, i: nat)
    requires Scanned(y, t, thr, minStepSec, peaks, i) && !IsCandidateAt(y, t, thr, i)
    ensures Scanned(y, t, thr, minStepSec, peaks, i + 1)
  {
  }

  /** Past the last interior index the scan has seen every candidate. */
  lemma ScanDone(y: seq<Num>, t: seq<Num>, thr: real, minStepSec: real, peaks: seq<nat>, i: int)
    requires Scanned(y, t, thr, minStepSec, peaks, i) && i >= |y| - 1
    ensures forall k :: 0 <= k < |peaks| ==> IsCandidateAt(y, t, thr, peaks[k])
    ensures Increasing(peaks)
    ensures Spaced(t, peaks, minStepSec)
    ensures forall j :: IsCandidateAt(y, t, thr, j) && j !in peaks ==> Suppressed(t, peaks, j, minStepSec)
  {
  }

  /** Appending an accepted candidate keeps the peaks increasing and spaced. */
  lemma AcceptOrder(t: seq<Num>, minStepSec: real, peaks: seq<nat>, i: nat)
    requires forall k :: 0 <= k < |peaks| ==> peaks[k] < i
    requires Increasing(peaks)
    requires Spaced(t, peaks, minStepSec)
    requires peaks != [] ==> TimeAt(t, i) - TimeAt(t, peaks[|peaks| - 1]) >= minStepSec
    ensures Increasing(peaks + [i])
    ensures Spaced(t, peaks + [i], minStepSec)
  {
    var p := peaks + [i];
    forall k | 0 < k < |p| ensures Gap(t, p, k) >= minStepSec {
      if k < |peaks| {
        assert Gap(t, p, k) == Gap(t, peaks, k);
      }
    }
  }

  /** Appending an accepted candidate keeps every earlier suppression. */
  lemma AcceptSuppressed(y: seq<Num>, t: seq<Num>, thr: real, minStepSec: real, peaks: seq<nat>, i: nat)
    requires forall j :: j < i && IsCandidateAt(y, t, thr, j) && j !in peaks ==>
      Suppressed(t, peaks, j, minStepSec)
    ensures forall j :: j < i && IsCandidateAt(y, t, thr, j) && j !in peaks + [i] ==>
      Suppressed(t, peaks + [i], j, minStepSec)
  {
    var p := peaks + [i];
    forall j | j < i && IsCandidateAt(y, t, thr, j) && j !in p
      ensures Suppressed(t, p, j, minStepSec)
    {
      assert j !in peaks;
      var k :| 0 <= k < |peaks| && LastBefore(peaks, k, j) &&
        TimeAt(t, j) - TimeAt(t, peaks[k]) < minStepSec;
      assert p[k] == peaks[k];
      assert LastBefore(p, k, j);
    }
  }
}
