/** The sampling loop of `analyze` (app.js): how many instants are sampled,
    when, at what inference size, and the frame list and counters the loop
    builds. Seeking the video and running the pose estimator are one oracle,
    `detect`, that gives the estimator's first pose (or none, also when the
    estimator throws) for each sample index. */
module Sampling {
  import opened Numbers
  import opened Geometry
  import opened Pose

  const DEFAULT_SAMPLE_FPS: int := 24
  const MAX_SAMPLES_MOBILE: int := 150
  const MAX_SAMPLES_DESKTOP: int := 240
  const INFER_LONG_EDGE_MOBILE: int := 384
  const INFER_LONG_EDGE_DESKTOP: int := 640

  function MaxSamples(mobile: bool): int {
    if mobile then MAX_SAMPLES_MOBILE else MAX_SAMPLES_DESKTOP
  }

  /** `1 / Math.max(5, Math.min(60, sampleFps))`: the sample spacing the rate
      asks for, with the rate held between 5 and 60 per second. */
  function NominalDt(sampleFps: int): (r: real)
    ensures r > 0.0
    ensures r * MaxInt(5, MinInt(60, sampleFps)) as real == 1.0
  {
    1.0 / MaxInt(5, MinInt(60, sampleFps)) as real
  }

  /** `steps`: `Math.max(1, Math.ceil(duration / dtNominal))`, capped at
      `maxSamples`. */
  function StepCount(duration: real, dtNominal: real, maxSamples: int): (steps: int)
    requires dtNominal > 0.0 && maxSamples >= 1
    ensures 1 <= steps <= maxSamples
  {
    var wanted := MaxInt(1, Ceil(duration / dtNominal));
    if wanted > maxSamples then maxSamples else wanted
  }

  /** Below the cap, `steps` is the least positive count whose nominal spacing
      covers the whole video; the cap is reached only by a video that needs at
      least that many steps. */
  lemma StepCountCovers(duration: real, dtNominal: real, maxSamples: int)
    requires dtNominal > 0.0 && maxSamples >= 1
    ensures var steps := StepCount(duration, dtNominal, maxSamples);
      steps < maxSamples ==>
        steps as real * dtNominal >= duration &&
        (steps == 1 || (steps - 1) as real * dtNominal < duration)
    ensures var steps := StepCount(duration, dtNominal, maxSamples);
      steps == maxSamples && maxSamples > 1 ==> (maxSamples - 1) as real * dtNominal < duration
  {
    var steps := StepCount(duration, dtNominal, maxSamples);
    var c := Ceil(duration / dtNominal);
    CeilCoversBelow(duration, dtNominal, c);
    if steps < maxSamples {
      CeilCoversAbove(duration, dtNominal, c);
      if steps == 1 {
        MulMonotone(c as real, 1.0, dtNominal);
      }
    } else if maxSamples > 1 {
      MulMonotone((maxSamples - 1) as real, (c - 1) as real, dtNominal);
    }
  }

  /** `ceil(duration / dt)` steps of `dt` reach the duration. */
  lemma CeilCoversAbove(duration: real, dt: real, c: int)
    requires dt > 0.0 && c == Ceil(duration / dt)
    ensures c as real * dt >= duration
  {
    var q := duration / dt;
    MulMonotone(q, c as real, dt);
    DivMul(duration, dt);
  }

  /** One step fewer falls short of the duration. */
  lemma CeilCoversBelow(duration: real, dt: real, c: int)
    requires dt > 0.0 && c == Ceil(duration / dt)
    ensures (c - 1) as real * dt < duration
  {
    var q := duration / dt;
    MulStrict((c - 1) as real, q, dt);
    DivMul(duration, dt);
  }

  /** `dt = duration / Math.max(1, steps)`. */
  function SampleDt(duration: real, steps: int): real {
    duration / MaxInt(1, steps) as real
  }

  /** `timeSec = Math.min(duration, k * dt)`. */
  function SampleTime(duration: real, steps: int, k: int): (r: real)
    ensures r <= duration
  {
    MinReal(duration, k as real * SampleDt(duration, steps))
  }

  /** The sample times start at 0, end at the duration, never decrease and stay
      inside the video. */
  lemma SampleTimes(duration: real, steps: int, k: int, k2: int)
    requires duration >= 0.0 && steps >= 1
    requires 0 <= k <= k2 <= steps
    ensures 0.0 <= SampleTime(duration, steps, k) <= SampleTime(duration, steps, k2) <= duration
    ensures SampleTime(duration, steps, 0) == 0.0
    ensures SampleTime(duration, steps, steps) == duration
  {
    SampleTimeBounds(duration, steps, k);
    SampleTimeMonotone(duration, steps, k, k2);
    SampleTimeBounds(duration, steps, k2);
    SampleTimeEnds(duration, steps);
  }

  lemma SampleTimeBounds(duration: real, steps: int, k: int)
    requires duration >= 0.0 && steps >= 1 && k >= 0
    ensures 0.0 <= SampleTime(duration, steps, k) <= duration
  {
    SampleDtSpan(duration, steps);
    MulMonotone(0.0, k as real, SampleDt(duration, steps));
  }

  lemma SampleTimeMonotone(duration: real, steps: int, k: int, k2: int)
    requires duration >= 0.0 && steps >= 1 && k <= k2
    ensures SampleTime(duration, steps, k) <= SampleTime(duration, steps, k2)
  {
    SampleDtSpan(duration, steps);
    MulMonotone(k as real, k2 as real, SampleDt(duration, steps));
  }

  lemma SampleTimeEnds(duration: real, steps: int)
    requires duration >= 0.0 && steps >= 1
    ensures SampleTime(duration, steps, 0) == 0.0
    ensures SampleTime(duration, steps, steps) == duration
  {
    SampleDtSpan(duration, steps);
  }

  /** The spacing is non-negative and `steps` of it span the duration. */
  lemma SampleDtSpan(duration: real, steps: int)
    requires duration >= 0.0 && steps >= 1
    ensures SampleDt(duration, steps) >= 0.0
    ensures steps as real * SampleDt(duration, steps) == duration
  {
    DivMul(duration, steps as real);
  }

  // ---------------------------------------------------------------------------
  // ensureInferenceCanvas

  datatype Size = Size(width: int, height: int)

  function TargetLongEdge(mobile: bool): int {
    if mobile then INFER_LONG_EDGE_MOBILE else INFER_LONG_EDGE_DESKTOP
  }

  /** Factor that brings the long edge down to the target, never up. */
  function InferenceScale(longEdge: int, mobile: bool): real
    requires longEdge > 0
  {
    MinReal(1.0, TargetLongEdge(mobile) as real / longEdge as real)
  }

  /** The size of the inference image of `ensureInferenceCanvas(vw, vh)`: none
      for a zero edge; otherwise each edge scaled and rounded, at least 1. */
  function InferenceSize(vw: nat, vh: nat, mobile: bool): (r: Option<Size>)
    ensures r.Some? <==> vw != 0 && vh != 0
    ensures r.Some? ==> r.value.width >= 1 && r.value.height >= 1
  {
    var longEdge := MaxInt(vw, vh);
    var shortEdge := MinInt(vw, vh);
    if longEdge == 0 || shortEdge == 0 then None
    else
      var scale := InferenceScale(longEdge, mobile);
      Some(Size(ScaledEdge(vw, scale), ScaledEdge(vh, scale)))
  }

  /** `Math.max(1, Math.round(v * scale))`. */
  function ScaledEdge(v: int, scale: real): int {
    MaxInt(1, Round(v as real * scale))
  }

  lemma ScaledEdgeMonotone(a: int, b: int, scale: real)
    requires a <= b && scale >= 0.0
    ensures ScaledEdge(a, scale) <= ScaledEdge(b, scale)
  {
    MulMonotone(a as real, b as real, scale);
    RoundMonotone(a as real * scale, b as real * scale);
  }

  lemma ScaledEdgeExact(v: int, scale: real, n: int)
    requires v as real * scale == n as real && n >= 1
    ensures ScaledEdge(v, scale) == n
  {
    RoundInt(n);
  }

  lemma RoundMonotone(x: real, y: real)
    requires x <= y
    ensures Round(x) <= Round(y)
  {
  }

  lemma RoundInt(n: int)
    ensures Round(n as real) == n
  {
  }

  /** A video whose long edge is within the target keeps its size. */
  lemma InferenceSizeSmall(vw: nat, vh: nat, mobile: bool)
    requires vw != 0 && vh != 0 && MaxInt(vw, vh) <= TargetLongEdge(mobile)
    ensures InferenceSize(vw, vh, mobile) == Some(Size(vw, vh))
  {
    DivAtLeastOne(TargetLongEdge(mobile) as real, MaxInt(vw, vh) as real);
    assert InferenceScale(MaxInt(vw, vh), mobile) == 1.0;
    ScaledEdgeExact(vw, 1.0, vw);
    ScaledEdgeExact(vh, 1.0, vh);
  }

  /** A larger video is scaled down so that its long edge is the target. */
  lemma InferenceSizeLarge(vw: nat, vh: nat, mobile: bool)
    requires vw != 0 && vh != 0 && MaxInt(vw, vh) >= TargetLongEdge(mobile)
    ensures var r := InferenceSize(vw, vh, mobile).value;
      MaxInt(r.width, r.height) == TargetLongEdge(mobile)
  {
    var longEdge := MaxInt(vw, vh);
    var target := TargetLongEdge(mobile);
    var scale := InferenceScale(longEdge, mobile);
    DivAtMostOne(target as real, longEdge as real);
    assert scale == target as real / longEdge as real;
    ScaleToTarget(target as real, longEdge as real);
    ScaledEdgeExact(longEdge, scale, target);
    if vw >= vh {
      ScaledEdgeMonotone(vh, vw, scale);
    } else {
      ScaledEdgeMonotone(vw, vh, scale);
    }
  }

  lemma ScaleToTarget(target: real, longEdge: real)
    requires longEdge > 0.0
    ensures longEdge * (target / longEdge) == target
  {
  }

  /** Scaling keeps the orientation: the wider edge stays at least as long. */
  lemma InferenceSizeOrientation(vw: nat, vh: nat, mobile: bool)
    requires vw != 0 && vh != 0 && vw >= vh
    ensures InferenceSize(vw, vh, mobile).value.width >= InferenceSize(vw, vh, mobile).value.height
  {
    ScaledEdgeMonotone(vh, vw, InferenceScale(MaxInt(vw, vh), mobile));
  }

  lemma DivAtMostOne(a: real, b: real)
    requires 0.0 < a <= b
    ensures a / b <= 1.0
  {
  }

  lemma DivAtLeastOne(a: real, b: real)
    requires 0.0 < b <= a
    ensures a / b >= 1.0
  {
  }

  // ---------------------------------------------------------------------------
  // The sampling loop

  /** The landmarks of one sample: none without an inference image, otherwise
      `normalizePose` of the estimator's pose at the inference size. */
  function FrameLandmarks(pose: Option<BlazePose>, infer: Option<Size>): (r: Option<Landmarks>)
    ensures r.Some? <==> (infer.Some? &&
      NormalizePose(pose, infer.value.width as real, infer.value.height as real).Some?)
    ensures r.Some? ==>
      r.value == NormalizePose(pose, infer.value.width as real, infer.value.height as real).value
  {
    if infer.None? then None
    else
      var n := NormalizePose(pose, infer.value.width as real, infer.value.height as real);
      if n.None? then None else Some(n.value)
  }

  /** The record the loop pushes at step `k`. */
  function SampledFrame(duration: real, steps: int, sampleFps: int, infer: Option<Size>,
                        detect: nat -> Option<BlazePose>, k: nat): FrameRecord
  {
    FrameRecord(SampleTime(duration, steps, k), FrameLandmarks(detect(k), infer), sampleFps)
  }

  /** Record `k` of `frames` is the one the loop pushes at step `k`. */
  predicate FrameAt(frames: seq<FrameRecord>, k: int, duration: real, steps: int, sampleFps: int,
                    infer: Option<Size>, detect: nat -> Option<BlazePose>)
    requires 0 <= k < |frames|
  {
    frames[k] == SampledFrame(duration, steps, sampleFps, infer, detect, k)
  }

  predicate Detected(f: FrameRecord) {
    f.landmarks.Some?
  }

  /** `detectedFrames`: frames with landmarks. */
  function CountDetected(frames: seq<FrameRecord>): nat {
    if frames == [] then 0
    else CountDetected(frames[..|frames| - 1]) + (if Detected(frames[|frames| - 1]) then 1 else 0)
  }

  /** `directionRight` (sign 1) and `directionLeft` (sign -1): frames with
      landmarks whose facing sign is `sign`. */
  function CountSign(frames: seq<FrameRecord>, sign: int): nat {
    if frames == [] then 0
    else
      var f := frames[|frames| - 1];
      CountSign(frames[..|frames| - 1], sign) +
        (if f.landmarks.Some? && DirectionSign(f.landmarks.value) == sign then 1 else 0)
  }

  /** The working direction after the loop: set once, at the first frame with
      landmarks, and 1 when no frame has any. */
  function LockedDirection(frames: seq<FrameRecord>): int {
    if frames == [] then 1
    else
      var init, f := frames[..|frames| - 1], frames[|frames| - 1];
      if CountDetected(init) > 0 then LockedDirection(init)
      else if f.landmarks.Some? then EstimateDirectionAuto(f.landmarks.value)
      else 1
  }

  /** The sampling loop: one record per step, each the seek time and the
      landmarks detected there, with the detection and direction counters and
      the working direction. `seekOk(k)` is whether the seek to step `k`
      succeeds; a failed seek rejects, which ends the loop at that step with
      the records of the steps before it. */
  method SampleFrames(duration: real, steps: nat, sampleFps: int, infer: Option<Size>,
                      seekOk: nat -> bool, detect: nat -> Option<BlazePose>)
    returns (frames: seq<FrameRecord>, detectedFrames: nat, directionLeft: nat, directionRight: nat,
             direction: int, seekFailed: bool)
    ensures |frames| <= steps + 1
    ensures seekFailed <==> |frames| <= steps
    ensures seekFailed ==> !seekOk(|frames|)
    ensures forall k :: 0 <= k < |frames| ==> seekOk(k)
    ensures forall k :: 0 <= k < |frames| ==> FrameAt(frames, k, duration, steps, sampleFps, infer, detect)
    ensures detectedFrames == CountDetected(frames)
    ensures directionRight == CountSign(frames, 1)
    ensures directionLeft == CountSign(frames, -1)
    ensures direction == LockedDirection(frames)
  {
    frames := [];
    detectedFrames, directionLeft, directionRight := 0, 0, 0;
    direction := 1;
    seekFailed := false;
    var directionLocked := false;
    var dt := SampleDt(duration, steps);
    var k := 0;
    while k <= steps
      invariant 0 <= k <= steps + 1
      invariant |frames| == k
      invariant forall j :: 0 <= j < k ==> seekOk(j)
      invariant forall j :: 0 <= j < k ==> FrameAt(frames, j, duration, steps, sampleFps, infer, detect)
      invariant detectedFrames == CountDetected(frames)
      invariant directionRight == CountSign(frames, 1)
      invariant directionLeft == CountSign(frames, -1)
      invariant directionLocked <==> CountDetected(frames) > 0
      invariant direction == LockedDirection(frames)
    {
      var timeSec := MinReal(duration, k as real * dt);
      if !seekOk(k) {
        seekFailed := true;
        return;
      }
      var landmarks := FrameLandmarks(detect(k), infer);
      var f := FrameRecord(timeSec, landmarks, sampleFps);
      assert f == SampledFrame(duration, steps, sampleFps, infer, detect, k);
      AppendFrame(frames, f);
      FramesAppend(frames, f, duration, steps, sampleFps, infer, detect);
      if landmarks.Some? {
        detectedFrames := detectedFrames + 1;
        var sign := DirectionSign(landmarks.value);
        if sign == 1 { directionRight := directionRight + 1; }
        if sign == -1 { directionLeft := directionLeft + 1; }
        if !directionLocked {
          direction := EstimateDirectionAuto(landmarks.value);
          directionLocked := true;
        }
      }
      frames := frames + [f];
      k := k + 1;
    }
  }

  /** Pushing the record of the next step keeps every record in its place. */
  lemma FramesAppend(frames: seq<FrameRecord>, f: FrameRecord, duration: real, steps: int, sampleFps: int,
                     infer: Option<Size>, detect: nat -> Option<BlazePose>)
    requires forall j :: 0 <= j < |frames| ==> FrameAt(frames, j, duration, steps, sampleFps, infer, detect)
    requires f == SampledFrame(duration, steps, sampleFps, infer, detect, |frames|)
    ensures forall j :: 0 <= j < |frames| + 1 ==> FrameAt(frames + [f], j, duration, steps, sampleFps, infer, detect)
  {
    forall j | 0 <= j < |frames| + 1
      ensures FrameAt(frames + [f], j, duration, steps, sampleFps, infer, detect)
    {
      if j < |frames| {
        assert FrameAt(frames, j, duration, steps, sampleFps, infer, detect);
      }
    }
  }

  /** How the counters and the working direction change when one frame is
      appended. */
  lemma AppendFrame(frames: seq<FrameRecord>, f: FrameRecord)
    ensures CountDetected(frames + [f]) == CountDetected(frames) + (if Detected(f) then 1 else 0)
    ensures forall sign :: (CountSign(frames + [f], sign) ==
      CountSign(frames, sign) + (if f.landmarks.Some? && DirectionSign(f.landmarks.value) == sign then 1 else 0))
    ensures LockedDirection(frames + [f]) ==
      if CountDetected(frames) > 0 then LockedDirection(frames)
      else if f.landmarks.Some? then EstimateDirectionAuto(f.landmarks.value)
      else 1
  {
    assert (frames + [f])[..|frames|] == frames;
  }

  /** The direction votes are a subset of the detections, which are a subset of
      the frames. */
  lemma {:induction false} CountersBounded(frames: seq<FrameRecord>)
    ensures CountSign(frames, 1) + CountSign(frames, -1) <= CountDetected(frames) <= |frames|
  {
    if frames != [] {
      CountersBounded(frames[..|frames| - 1]);
    }
  }

  /** The locked direction is the automatic estimate at the first frame with
      landmarks. */
  lemma {:induction false} LockedAtFirstDetection(frames: seq<FrameRecord>, j: int)
    requires 0 <= j < |frames| && frames[j].landmarks.Some?
    requires forall i :: 0 <= i < j ==> frames[i].landmarks.None?
    ensures LockedDirection(frames) == EstimateDirectionAuto(frames[j].landmarks.value)
  {
    var init := frames[..|frames| - 1];
    if j == |frames| - 1 {
      NoDetection(init);
    } else {
      LockedAtFirstDetection(init, j);
      DetectionCounted(init, j);
    }
  }

  lemma {:induction false} NoDetection(frames: seq<FrameRecord>)
    requires forall i :: 0 <= i < |frames| ==> frames[i].landmarks.None?
    ensures CountDetected(frames) == 0
    ensures LockedDirection(frames) == 1
  {
    if frames != [] {
      NoDetection(frames[..|frames| - 1]);
    }
  }

  lemma {:induction false} DetectionCounted(frames: seq<FrameRecord>, j: int)
    requires 0 <= j < |frames| && frames[j].landmarks.Some?
    ensures CountDetected(frames) > 0
  {
    if j < |frames| - 1 {
      DetectionCounted(frames[..|frames| - 1], j);
    }
  }

  /** Once set, the direction is not changed by later frames. */
  lemma {:induction false} LockedDirectionStable(frames: seq<FrameRecord>, more: seq<FrameRecord>)
    requires CountDetected(frames) > 0
    ensures LockedDirection(frames + more) == LockedDirection(frames)
  {
    if more != [] {
      var init := more[..|more| - 1];
      assert frames + more == (frames + init) + [more[|more| - 1]];
      LockedDirectionStable(frames, init);
      CountPrefix(frames, init);
      AppendFrame(frames + init, more[|more| - 1]);
    } else {
      assert frames + more == frames;
    }
  }

  lemma {:induction false} CountPrefix(frames: seq<FrameRecord>, more: seq<FrameRecord>)
    ensures CountDetected(frames + more) >= CountDetected(frames)
  {
    if more != [] {
      var init := more[..|more| - 1];
      assert frames + more == (frames + init) + [more[|more| - 1]];
      CountPrefix(frames, init);
      AppendFrame(frames + init, more[|more| - 1]);
    } else {
      assert frames + more == frames;
    }
  }

  /** The working direction is always +1 or -1. */
  lemma {:induction false} LockedDirectionSign(frames: seq<FrameRecord>)
    ensures LockedDirection(frames) == 1 || LockedDirection(frames) == -1
  {
    if frames != [] {
      LockedDirectionSign(frames[..|frames| - 1]);
    }
  }
}
