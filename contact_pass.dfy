/** The contact pass of `analyze` (app.js): the heel-height and time series of
    the sampled frames, and for each leg the contact peaks `findContactPeaks`
    selects and the records `computeContactMetrics` derives from them. */
module ContactPass {
  import opened Numbers
  import opened Stats
  import opened Geometry
  import opened Pose
  import opened ContactEvents
  import opened ContactMetrics
  import opened Sampling
  import opened Gates
  import opened Summary

  /** Minimum time between two contacts of one foot, in real seconds. */
  const DEFAULT_MIN_STEP_SEC: real := 0.3

  /** `f.landmarks?.[j]?.y ?? NaN`. */
  function HeelY(f: FrameRecord, j: Joint): Num {
    if f.landmarks.Some? then At(f.landmarks.value, j).y else NaN
  }

  /** `frames.map((f) => f.landmarks?.[j]?.y ?? NaN)`. */
  function HeightSeries(frames: seq<FrameRecord>, j: Joint): (r: seq<Num>)
    ensures |r| == |frames|
    ensures forall i :: 0 <= i < |frames| ==> r[i] == HeelY(frames[i], j)
  {
    seq(|frames|, i requires 0 <= i < |frames| => HeelY(frames[i], j))
  }

  /** `frames.map((f) => f.t)`. */
  function TimeSeries(frames: seq<FrameRecord>): (r: seq<Num>)
    ensures |r| == |frames|
    ensures forall i :: 0 <= i < |frames| ==> r[i] == Finite(frames[i].t)
  {
    seq(|frames|, i requires 0 <= i < |frames| => Finite(frames[i].t))
  }

  /** What `analyze` derives for one leg: the contact peaks of that leg's heel
      height (the greedy selection `findContactPeaks` makes) and one record per
      peak that has landmarks. */
  ghost predicate LegContactsOf(m: MathLib, frames: seq<FrameRecord>, leg: Leg, direction: int, timeScale: real,
                          minStepSec: real, peaks: seq<nat>, records: seq<ContactMetric>)
  {
    var y, t := HeightSeries(frames, HeelJoint(leg)), TimeSeries(frames);
    (forall k {:trigger IsPeakCandidate(y, t, peaks[k])} :: 0 <= k < |peaks| ==> IsPeakCandidate(y, t, peaks[k])) &&
    Increasing(peaks) && Spaced(t, peaks, minStepSec) &&
    (forall i {:trigger Suppressed(t, peaks, i, minStepSec)} ::
      IsPeakCandidate(y, t, i) && i !in peaks ==> Suppressed(t, peaks, i, minStepSec)) &&
    |records| == |Usable(frames, peaks)| &&
    (forall k :: 0 <= k < |records| ==> RecordAt(m, frames, peaks, records, k, leg, direction, timeScale))
  }

  /** The peaks and contact records of one leg. */
  method LegContacts(m: MathLib, frames: seq<FrameRecord>, leg: Leg, direction: int, factor: int,
                     minStepSec: real)
    returns (peaks: seq<nat>, records: seq<ContactMetric>)
    ensures LegContactsOf(m, frames, leg, direction, factor as real, minStepSec, peaks, records)
  {
    peaks := FindContactPeaks(HeightSeries(frames, HeelJoint(leg)), TimeSeries(frames), minStepSec);
    records := ComputeContactMetrics(m, frames, peaks, leg, direction, factor as real);
  }

  /** The facing direction, and the contact peaks and contact records of both
      legs. */
  datatype Legs = Legs(direction: int, leftPeaks: seq<nat>, left: seq<ContactMetric>,
                       rightPeaks: seq<nat>, right: seq<ContactMetric>)

  /** The contact pass of `analyze`: the direction is the majority of the
      votes, a tie going to the right; each leg's peaks and records are those
      of `LegContactsOf` facing that direction, with the slow-motion factor of
      the frame rate as time scale and the matching minimum step; and the
      contact counts in the measurements are the numbers of records. */
  ghost predicate LegsMeasured(m: MathLib, frames: seq<FrameRecord>, ms: Measurements, legs: Legs) {
    (legs.direction == 1 <==> ms.directionRight >= ms.directionLeft) &&
    (legs.direction == -1 <==> ms.directionRight < ms.directionLeft) &&
    ms.fps.Finite? &&
    var factor := SlowMoFactor(ms.fps.v);
    |legs.left| == ms.leftContacts && |legs.right| == ms.rightContacts &&
    LegContactsOf(m, frames, L, legs.direction, factor as real, DEFAULT_MIN_STEP_SEC * factor as real,
      legs.leftPeaks, legs.left) &&
    LegContactsOf(m, frames, R, legs.direction, factor as real, DEFAULT_MIN_STEP_SEC * factor as real,
      legs.rightPeaks, legs.right)
  }

  /** The peaks and records `LegContacts` finds for both legs, at the time
      scale and minimum step of the frame rate, are the contact pass of the
      measurements that count them. */
  lemma BothLegsMeasured(m: MathLib, frames: seq<FrameRecord>, ms: Measurements, direction: int, factor: int,
                         leftPeaks: seq<nat>, left: seq<ContactMetric>, rightPeaks: seq<nat>, right: seq<ContactMetric>)
    requires (direction == 1 <==> ms.directionRight >= ms.directionLeft) &&
      (direction == -1 <==> ms.directionRight < ms.directionLeft)
    requires ms.fps.Finite? && factor == SlowMoFactor(ms.fps.v)
    requires |left| == ms.leftContacts && |right| == ms.rightContacts
    requires LegContactsOf(m, frames, L, direction, factor as real, DEFAULT_MIN_STEP_SEC * factor as real,
      leftPeaks, left)
    requires LegContactsOf(m, frames, R, direction, factor as real, DEFAULT_MIN_STEP_SEC * factor as real,
      rightPeaks, right)
    ensures LegsMeasured(m, frames, ms, Legs(direction, leftPeaks, left, rightPeaks, right))
  {
  }

  /** The contact pass: the peaks and records of both legs, counted into the
      measurements. */
  method BothLegs(m: MathLib, frames: seq<FrameRecord>, ms0: Measurements, direction: int)
    returns (ms: Measurements, legs: Legs)
    requires (direction == 1 <==> ms0.directionRight >= ms0.directionLeft) &&
      (direction == -1 <==> ms0.directionRight < ms0.directionLeft)
    requires ms0.fps.Finite?
    ensures ms == ms0.(leftContacts := |legs.left|, rightContacts := |legs.right|)
    ensures LegsMeasured(m, frames, ms, legs)
  {
    var factor := SlowMoFactor(ms0.fps.v);
    var minStepSec := DEFAULT_MIN_STEP_SEC * factor as real;
    var leftPeaks, left := LegContacts(m, frames, L, direction, factor, minStepSec);
    var rightPeaks, right := LegContacts(m, frames, R, direction, factor, minStepSec);
    ms := ms0.(leftContacts := |left|, rightContacts := |right|);
    legs := Legs(direction, leftPeaks, left, rightPeaks, right);
    BothLegsMeasured(m, frames, ms, direction, factor, leftPeaks, left, rightPeaks, right);
  }
}
