/** `analyze` (app.js): the whole pipeline from a loaded video to the summary,
    with its early exits and the seek errors that abort it. The browser's video
    element, the frame-rate probe and the pose estimator are inputs: the
    duration and size of the video, whether the rewind to the start and each
    sample's seek succeed, the probed frame rate (not-a-number when the probe
    failed), whether the model is ready, and `detect`, which gives the
    estimator's pose at each sample index. */
module Analysis {
  import opened Numbers
  import opened Stats
  import opened Geometry
  import opened Pose
  import opened ContactEvents
  import opened ContactMetrics
  import opened Sampling
  import opened Gates
  import opened Summary
  import opened ContactPass

  /** The analysis of a run that passed every gate. */
  datatype Result = Result(
    slowMoFactor: int, minStepSec: real, realDuration: real,
    legs: Legs, all: seq<ContactMetric>, summary: SummaryRecord)

  /** The analysis record: the contacts of both legs merged in time order, and
      the summary, which is the same as that of the unsorted records. */
  function Assemble(factor: int, minStepSec: real, realDuration: real, legs: Legs): (r: Result)
    ensures r.slowMoFactor == factor && r.minStepSec == minStepSec
    ensures r.realDuration == realDuration && r.legs == legs
    ensures SortedByTime(r.all) && multiset(r.all) == multiset(legs.left + legs.right)
    ensures r.summary == Summarize(legs.left + legs.right)
    ensures r.summary.contactCount == |r.all| == |legs.left| + |legs.right|
  {
    SummaryOrderFree(legs.left + legs.right);
    var all := SortByTime(legs.left + legs.right);
    Result(factor, minStepSec, realDuration, legs, all, Summarize(all))
  }

  /** How a run of `analyze` ends. */
  datatype Outcome =
    | NoVideoChosen
    | VideoNotLoaded
    | Stopped(issue: Issue)
    | ModelLoadFailed
    | SeekFailed
    | Done(analysis: Result)

  /** What a run that passed every gate satisfies, besides `LegsMeasured` of
      its legs: the slow-motion factor and step spacing follow the frame rate,
      the merged list is the records of both legs in time order, and the
      summary is that of the records, however ordered. */
  ghost predicate Completed(ms: Measurements, a: Result) {
    GateChain(ms).None? &&
    a.slowMoFactor == SlowMoFactor(ms.fps.v) &&
    a.minStepSec == DEFAULT_MIN_STEP_SEC * a.slowMoFactor as real &&
    a.realDuration == RealDuration(ms.duration, ms.fps.v) >= MIN_DURATION_SEC &&
    |a.legs.left| == ms.leftContacts && |a.legs.right| == ms.rightContacts &&
    SortedByTime(a.all) && multiset(a.all) == multiset(a.legs.left + a.legs.right) &&
    a.summary == Summarize(a.legs.left + a.legs.right) &&
    a.summary.contactCount == |a.all| >= MIN_CONTACTS
  }

  /** The sampling loop's counters as recorded in the measurements. */
  ghost predicate Sampled(ms: Measurements, frames: seq<FrameRecord>, steps: int) {
    |frames| == steps + 1 &&
    ms.frameCount == |frames| && ms.detectedFrames == CountDetected(frames) &&
    ms.directionLeft == CountSign(frames, -1) && ms.directionRight == CountSign(frames, 1)
  }

  /** Frame `k` of the list is the record the loop pushes at step `k`: the
      seek time and the landmarks of the estimator's pose there. */
  ghost predicate FramesOf(frames: seq<FrameRecord>, duration: real, steps: int, infer: Option<Size>,
                           detect: nat -> Option<BlazePose>)
  {
    forall k :: 0 <= k < |frames| ==> FrameAt(frames, k, duration, steps, DEFAULT_SAMPLE_FPS, infer, detect)
  }

  /** `analyze()`. Besides the outcome it returns what the gates were checked
      against, the sampled frames (none when it stops before sampling) and the
      contacts of both legs (none when it stops before the contact pass). */
  method Analyze(m: MathLib, hasFile: bool, duration: Num, vw: nat, vh: nat, rewindOk: bool,
                 probedFps: Num, mobile: bool, modelReady: bool, seekOk: nat -> bool,
                 detect: nat -> Option<BlazePose>)
    returns (outcome: Outcome, ms: Measurements, frames: seq<FrameRecord>, legs: Legs)
    ensures outcome.NoVideoChosen? <==> !hasFile
    ensures outcome.VideoNotLoaded? <==> hasFile && (duration.NaN? || duration.v == 0.0)
    ensures outcome.SeekFailed? ==>
      hasFile && duration.Finite? && duration.v != 0.0 &&
      MaxInt(vw, vh) >= MIN_LONG_EDGE && MinInt(vw, vh) >= MIN_SHORT_EDGE
    ensures outcome.SeekFailed? && rewindOk ==>
      modelReady && PreSamplingIssue(vw, vh, duration.v, EffectiveFps(probedFps, mobile)).None? &&
      |frames| <= StepCount(duration.v, NominalDt(DEFAULT_SAMPLE_FPS), MaxSamples(mobile)) &&
      !seekOk(|frames|) && (forall k :: 0 <= k < |frames| ==> seekOk(k))
    ensures (outcome.Stopped? && !outcome.issue.ResolutionLow?) || outcome.ModelLoadFailed? || outcome.Done? ==>
      rewindOk
    ensures outcome.Stopped? ==> GateChain(ms) == Some(outcome.issue)
    ensures outcome.ModelLoadFailed? ==>
      !modelReady && PreSamplingIssue(ms.width, ms.height, ms.duration, ms.fps).None?
    ensures outcome.Stopped? || outcome.ModelLoadFailed? || outcome.Done? ==>
      duration.Finite? && ms.width == vw && ms.height == vh && ms.duration == duration.v &&
      ms.fps == EffectiveFps(probedFps, mobile)
    ensures outcome.Done? || (outcome.Stopped? && Rank(GateOf(outcome.issue)) >= Rank(RunnerGate)) ==>
      modelReady &&
      (forall k :: 0 <= k <= StepCount(duration.v, NominalDt(DEFAULT_SAMPLE_FPS), MaxSamples(mobile)) ==>
        seekOk(k)) &&
      Sampled(ms, frames, StepCount(duration.v, NominalDt(DEFAULT_SAMPLE_FPS), MaxSamples(mobile))) &&
      FramesOf(frames, duration.v, StepCount(duration.v, NominalDt(DEFAULT_SAMPLE_FPS), MaxSamples(mobile)),
        InferenceSize(vw, vh, mobile), detect)
    ensures outcome.Done? || (outcome.Stopped? && outcome.issue.FewStrides?) ==>
      LegsMeasured(m, frames, ms, legs)
    ensures outcome.Stopped? && outcome.issue.FewStrides? ==>
      outcome.issue == FewStrides(|legs.left|, |legs.right|) && |legs.left| + |legs.right| < MIN_CONTACTS
    ensures outcome.Done? ==> Completed(ms, outcome.analysis) && outcome.analysis.legs == legs
  {
    ms := Measurements(vw, vh, 0.0, probedFps, 0, 0, 0, 0, 0, 0);
    frames := [];
    legs := Legs(1, [], [], [], []);
    if !hasFile {
      return NoVideoChosen, ms, frames, legs;
    }
    if duration.NaN? || duration.v == 0.0 {
      return VideoNotLoaded, ms, frames, legs;
    }
    var fps := EffectiveFps(probedFps, mobile);
    ms := Measurements(vw, vh, duration.v, fps, 0, 0, 0, 0, 0, 0);
    if MaxInt(vw, vh) < MIN_LONG_EDGE || MinInt(vw, vh) < MIN_SHORT_EDGE {
      assert GateChain(ms) == Some(ResolutionLow(vw, vh));
      return Stopped(ResolutionLow(vw, vh)), ms, frames, legs;
    }
    if !rewindOk {
      return SeekFailed, ms, frames, legs;
    }
    var pre := PreSamplingIssue(vw, vh, duration.v, fps);
    if pre.Some? {
      assert GateChain(ms) == pre;
      return Stopped(pre.value), ms, frames, legs;
    }
    if !modelReady {
      return ModelLoadFailed, ms, frames, legs;
    }
    outcome, ms, frames, legs := SampleAndGate(m, duration.v, vw, vh, fps, mobile, seekOk, detect);
  }

  /** The sampling loop at the step count and inference size `analyze` plans,
      with its counters recorded in the measurements; it fails at the first
      seek that fails. */
  method SampleStage(duration: real, vw: nat, vh: nat, fps: Num, mobile: bool,
                     seekOk: nat -> bool, detect: nat -> Option<BlazePose>)
    returns (ms: Measurements, frames: seq<FrameRecord>, locked: int, seekFailed: bool)
    ensures ms.width == vw && ms.height == vh && ms.duration == duration && ms.fps == fps
    ensures ms.leftContacts == 0 && ms.rightContacts == 0
    ensures !seekFailed ==>
      Sampled(ms, frames, StepCount(duration, NominalDt(DEFAULT_SAMPLE_FPS), MaxSamples(mobile))) &&
      forall k :: 0 <= k <= StepCount(duration, NominalDt(DEFAULT_SAMPLE_FPS), MaxSamples(mobile)) ==> seekOk(k)
    ensures seekFailed ==>
      |frames| <= StepCount(duration, NominalDt(DEFAULT_SAMPLE_FPS), MaxSamples(mobile)) &&
      !seekOk(|frames|) && forall k :: 0 <= k < |frames| ==> seekOk(k)
    ensures FramesOf(frames, duration, StepCount(duration, NominalDt(DEFAULT_SAMPLE_FPS), MaxSamples(mobile)),
      InferenceSize(vw, vh, mobile), detect)
    ensures locked == LockedDirection(frames)
  {
    var steps := StepCount(duration, NominalDt(DEFAULT_SAMPLE_FPS), MaxSamples(mobile));
    var detected, dirLeft, dirRight;
    frames, detected, dirLeft, dirRight, locked, seekFailed :=
      SampleFrames(duration, steps, DEFAULT_SAMPLE_FPS, InferenceSize(vw, vh, mobile), seekOk, detect);
    ms := Measurements(vw, vh, duration, fps, |frames|, detected, dirLeft, dirRight, 0, 0);
  }

  /** From the sampling loop on: sample, check the detection and direction
      gates, and go on to the contacts. A failed seek aborts the run. */
  method SampleAndGate(m: MathLib, duration: real, vw: nat, vh: nat, fps: Num, mobile: bool,
                       seekOk: nat -> bool, detect: nat -> Option<BlazePose>)
    returns (outcome: Outcome, ms: Measurements, frames: seq<FrameRecord>, legs: Legs)
    requires PreSamplingIssue(vw, vh, duration, fps).None?
    ensures outcome.Stopped? || outcome.Done? || outcome.SeekFailed?
    ensures ms.width == vw && ms.height == vh && ms.duration == duration && ms.fps == fps
    ensures outcome.SeekFailed? ==>
      |frames| <= StepCount(duration, NominalDt(DEFAULT_SAMPLE_FPS), MaxSamples(mobile)) &&
      !seekOk(|frames|) && forall k :: 0 <= k < |frames| ==> seekOk(k)
    ensures !outcome.SeekFailed? ==>
      Sampled(ms, frames, StepCount(duration, NominalDt(DEFAULT_SAMPLE_FPS), MaxSamples(mobile))) &&
      forall k :: 0 <= k <= StepCount(duration, NominalDt(DEFAULT_SAMPLE_FPS), MaxSamples(mobile)) ==> seekOk(k)
    ensures FramesOf(frames, duration, StepCount(duration, NominalDt(DEFAULT_SAMPLE_FPS), MaxSamples(mobile)),
      InferenceSize(vw, vh, mobile), detect)
    ensures outcome.Stopped? ==>
      (GateChain(ms) == Some(outcome.issue) && Rank(GateOf(outcome.issue)) >= Rank(RunnerGate))
    ensures outcome.Done? || (outcome.Stopped? && outcome.issue.FewStrides?) ==>
      LegsMeasured(m, frames, ms, legs)
    ensures outcome.Stopped? && outcome.issue.FewStrides? ==>
      outcome.issue == FewStrides(|legs.left|, |legs.right|) && |legs.left| + |legs.right| < MIN_CONTACTS
    ensures outcome.Done? ==> Completed(ms, outcome.analysis) && outcome.analysis.legs == legs
  {
    var ms0, locked, seekFailed;
    ms0, frames, locked, seekFailed := SampleStage(duration, vw, vh, fps, mobile, seekOk, detect);
    if seekFailed {
      return SeekFailed, ms0, frames, Legs(1, [], [], [], []);
    }
    outcome, ms, legs := GateStage(m, frames, ms0, locked);
  }

  /** After the sampling loop: the detection and direction gates, then the
      contact pass, facing the majority of the votes or else the locked
      direction. */
  method GateStage(m: MathLib, frames: seq<FrameRecord>, ms0: Measurements, locked: int)
    returns (outcome: Outcome, ms: Measurements, legs: Legs)
    requires PreSamplingIssue(ms0.width, ms0.height, ms0.duration, ms0.fps).None?
    requires ms0.directionLeft >= 0 && ms0.directionRight >= 0
    ensures outcome.Stopped? || outcome.Done?
    ensures ms.width == ms0.width && ms.height == ms0.height && ms.duration == ms0.duration && ms.fps == ms0.fps
    ensures ms.frameCount == ms0.frameCount && ms.detectedFrames == ms0.detectedFrames
    ensures ms.directionLeft == ms0.directionLeft && ms.directionRight == ms0.directionRight
    ensures outcome.Stopped? ==>
      (GateChain(ms) == Some(outcome.issue) && Rank(GateOf(outcome.issue)) >= Rank(RunnerGate))
    ensures outcome.Done? || (outcome.Stopped? && outcome.issue.FewStrides?) ==>
      LegsMeasured(m, frames, ms, legs)
    ensures outcome.Stopped? && outcome.issue.FewStrides? ==>
      outcome.issue == FewStrides(|legs.left|, |legs.right|) && |legs.left| + |legs.right| < MIN_CONTACTS
    ensures outcome.Done? ==> Completed(ms, outcome.analysis) && outcome.analysis.legs == legs
  {
    ms := ms0;
    var det := DetectionIssue(ms0.frameCount, ms0.detectedFrames, ms0.directionLeft, ms0.directionRight);
    if det.Some? {
      DetectionStopped(ms);
      return Stopped(det.value), ms, Legs(1, [], [], [], []);
    }
    outcome, ms, legs := ContactStage(m, frames, ms0, MajorityDirection(ms0.directionLeft, ms0.directionRight, locked));
  }

  /** A detection gate that fails after the pre-sampling gates passed is the
      issue the chain reports. */
  lemma DetectionStopped(ms: Measurements)
    requires PreSamplingIssue(ms.width, ms.height, ms.duration, ms.fps).None?
    requires DetectionIssue(ms.frameCount, ms.detectedFrames, ms.directionLeft, ms.directionRight).Some?
    ensures GateChain(ms) == DetectionIssue(ms.frameCount, ms.detectedFrames, ms.directionLeft, ms.directionRight)
    ensures Rank(GateOf(GateChain(ms).value)) >= Rank(RunnerGate)
  {
  }

  /** The three stages passing is the chain passing, and settles the frame
      rate and the real duration. */
  lemma GatesPassed(ms: Measurements)
    requires PreSamplingIssue(ms.width, ms.height, ms.duration, ms.fps).None?
    requires DetectionIssue(ms.frameCount, ms.detectedFrames, ms.directionLeft, ms.directionRight).None?
    requires ContactIssue(ms.leftContacts, ms.rightContacts).None?
    ensures GateChain(ms).None?
    ensures ms.fps.Finite? && RealDuration(ms.duration, ms.fps.v) >= MIN_DURATION_SEC
    ensures ms.leftContacts + ms.rightContacts >= MIN_CONTACTS
  {
  }

  /** After the detection gates: the contacts of both legs, the last gate, and
      the summary. */
  method ContactStage(m: MathLib, frames: seq<FrameRecord>, ms0: Measurements, direction: int)
    returns (outcome: Outcome, ms: Measurements, legs: Legs)
    requires PreSamplingIssue(ms0.width, ms0.height, ms0.duration, ms0.fps).None?
    requires DetectionIssue(ms0.frameCount, ms0.detectedFrames, ms0.directionLeft, ms0.directionRight).None?
    requires (direction == 1 <==> ms0.directionRight >= ms0.directionLeft) &&
      (direction == -1 <==> ms0.directionRight < ms0.directionLeft)
    ensures outcome.Stopped? || outcome.Done?
    ensures ms.width == ms0.width && ms.height == ms0.height && ms.duration == ms0.duration && ms.fps == ms0.fps
    ensures ms.frameCount == ms0.frameCount && ms.detectedFrames == ms0.detectedFrames
    ensures ms.directionLeft == ms0.directionLeft && ms.directionRight == ms0.directionRight
    ensures outcome.Stopped? ==>
      (GateChain(ms) == Some(outcome.issue) && Rank(GateOf(outcome.issue)) >= Rank(RunnerGate))
    ensures outcome.Stopped? ==> outcome.issue.FewStrides?
    ensures outcome.Done? || (outcome.Stopped? && outcome.issue.FewStrides?) ==>
      LegsMeasured(m, frames, ms, legs)
    ensures outcome.Stopped? && outcome.issue.FewStrides? ==>
      outcome.issue == FewStrides(|legs.left|, |legs.right|) && |legs.left| + |legs.right| < MIN_CONTACTS
    ensures outcome.Done? ==> Completed(ms, outcome.analysis) && outcome.analysis.legs == legs
  {
    var fps := ms0.fps.v;
    var factor := SlowMoFactor(fps);
    var minStepSec := DEFAULT_MIN_STEP_SEC * factor as real;
    ms, legs := BothLegs(m, frames, ms0, direction);
    var last := ContactIssue(|legs.left|, |legs.right|);
    if last.Some? {
      assert GateChain(ms) == last;
      return Stopped(last.value), ms, legs;
    }
    GatesPassed(ms);
    outcome := Done(Assemble(factor, minStepSec, RealDuration(ms0.duration, fps), legs));
  }
}


