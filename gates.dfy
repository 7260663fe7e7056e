/** The validity gates of `analyze` (app.js): the early exits, and the issue
    each one reports, in the order the source checks them. */
module Gates {
  import opened Numbers

  const MIN_LONG_EDGE: int := 1920
  const MIN_SHORT_EDGE: int := 1080
  const NORMAL_FPS: real := 30.0
  const NORMAL_FPS_TOLERANCE: real := 6.0
  const SLOWMO_FPS: real := 240.0
  const SLOWMO_FPS_TOLERANCE: real := 20.0
  const SLOWMO_FACTOR: int := 8
  const MIN_DURATION_SEC: real := 3.0
  const MOBILE_FPS_FALLBACK: real := 30.0
  const MIN_DETECTED_FRAMES: int := 8
  const MIN_DETECTION_RATIO: real := 0.2
  const MIN_DIRECTION_SAMPLES: int := 8
  const MAX_DIRECTION_FLIP_RATIO: real := 0.25
  const MIN_CONTACTS: int := 4

  /** The issues `analyze` can stop with, with the values it reports. */
  datatype Issue =
    | ResolutionLow(width: int, height: int)
    | FpsUnknown
    | FpsUnsupported(fps: real)
    | VideoTooShort(detected: real, video: real)
    | NoRunner
    | LowDetection
    | DirectionUnclear
    | DirectionInconsistent
    | FewStrides(left: int, right: int)

  /** The gates, named after the issue they report. */
  datatype Gate =
    | ResolutionGate | FpsKnownGate | FpsSupportedGate | DurationGate
    | RunnerGate | DetectionGate | DirectionVotesGate | DirectionConsistentGate
    | ContactsGate

  /** Position of a gate in the order `analyze` checks them. */
  function Rank(g: Gate): nat {
    match g
    case ResolutionGate => 0
    case FpsKnownGate => 1
    case FpsSupportedGate => 2
    case DurationGate => 3
    case RunnerGate => 4
    case DetectionGate => 5
    case DirectionVotesGate => 6
    case DirectionConsistentGate => 7
    case ContactsGate => 8
  }

  function GateOf(issue: Issue): Gate {
    match issue
    case ResolutionLow(_, _) => ResolutionGate
    case FpsUnknown => FpsKnownGate
    case FpsUnsupported(_) => FpsSupportedGate
    case VideoTooShort(_, _) => DurationGate
    case NoRunner => RunnerGate
    case LowDetection => DetectionGate
    case DirectionUnclear => DirectionVotesGate
    case DirectionInconsistent => DirectionConsistentGate
    case FewStrides(_, _) => ContactsGate
  }

  /** What `analyze` has measured when it checks the gates: the video size and
      duration, the frame rate after the mobile fallback, the counters of the
      sampling loop, and the number of contact records per leg. */
  datatype Measurements = Measurements(
    width: int, height: int, duration: real, fps: Num,
    frameCount: int, detectedFrames: int, directionLeft: int, directionRight: int,
    leftContacts: int, rightContacts: int)

  /** The probed frame rate, or 30 on a mobile device when the probe failed. */
  function EffectiveFps(probed: Num, mobile: bool): (r: Num)
    ensures r.NaN? <==> probed.NaN? && !mobile
  {
    if probed.NaN? && mobile then Finite(MOBILE_FPS_FALLBACK) else probed
  }

  predicate IsNormalFps(fps: real) {
    AbsReal(fps - NORMAL_FPS) <= NORMAL_FPS_TOLERANCE
  }

  predicate IsSlowMoFps(fps: real) {
    AbsReal(fps - SLOWMO_FPS) <= SLOWMO_FPS_TOLERANCE
  }

  /** Video seconds per real second: 8 for slow motion, else 1. */
  function SlowMoFactor(fps: real): (r: int)
    ensures r == 1 || r == SLOWMO_FACTOR
  {
    if IsSlowMoFps(fps) then SLOWMO_FACTOR else 1
  }

  /** Real duration of the recorded motion. */
  function RealDuration(duration: real, fps: real): real {
    duration / SlowMoFactor(fps) as real
  }

  /** `frames.length ? detectedFrames / frames.length : 0`. */
  function DetectionRatio(detected: int, frameCount: int): real {
    if frameCount != 0 then detected as real / frameCount as real else 0.0
  }

  /** `Math.min(left, right) / (left + right)`. */
  function FlipRatio(left: int, right: int): real
    requires left + right != 0
  {
    MinInt(left, right) as real / (left + right) as real
  }

  /** The condition under which each gate stops the analysis, each read on its
      own. */
  predicate Fails(g: Gate, ms: Measurements) {
    match g
    case ResolutionGate =>
      MaxInt(ms.width, ms.height) < MIN_LONG_EDGE || MinInt(ms.width, ms.height) < MIN_SHORT_EDGE
    case FpsKnownGate => ms.fps.NaN?
    case FpsSupportedGate => ms.fps.Finite? && !IsNormalFps(ms.fps.v) && !IsSlowMoFps(ms.fps.v)
    case DurationGate => ms.fps.Finite? && RealDuration(ms.duration, ms.fps.v) < MIN_DURATION_SEC
    case RunnerGate => ms.detectedFrames == 0
    case DetectionGate =>
      ms.detectedFrames < MIN_DETECTED_FRAMES ||
      DetectionRatio(ms.detectedFrames, ms.frameCount) < MIN_DETECTION_RATIO
    case DirectionVotesGate => ms.directionLeft + ms.directionRight < MIN_DIRECTION_SAMPLES
    case DirectionConsistentGate =>
      ms.directionLeft > 0 && ms.directionRight > 0 &&
      FlipRatio(ms.directionLeft, ms.directionRight) > MAX_DIRECTION_FLIP_RATIO
    case ContactsGate => ms.leftContacts + ms.rightContacts < MIN_CONTACTS
  }

  /** The gates checked before sampling: resolution, frame rate known, frame
      rate supported, real duration. */
  function PreSamplingIssue(width: int, height: int, duration: real, fps: Num): (r: Option<Issue>)
    ensures r.Some? ==> Rank(GateOf(r.value)) < Rank(RunnerGate)
    ensures r.None? ==> fps.Finite? && RealDuration(duration, fps.v) >= MIN_DURATION_SEC
  {
    if MaxInt(width, height) < MIN_LONG_EDGE || MinInt(width, height) < MIN_SHORT_EDGE then
      Some(ResolutionLow(width, height))
    else if fps.NaN? then Some(FpsUnknown)
    else if !IsNormalFps(fps.v) && !IsSlowMoFps(fps.v) then Some(FpsUnsupported(fps.v))
    else if RealDuration(duration, fps.v) < MIN_DURATION_SEC then
      Some(VideoTooShort(RealDuration(duration, fps.v), duration))
    else None
  }

  /** The gates on the sampling loop's counters. */
  function DetectionIssue(frameCount: int, detected: int, left: int, right: int): (r: Option<Issue>)
    ensures r.Some? ==> Rank(RunnerGate) <= Rank(GateOf(r.value)) < Rank(ContactsGate)
    ensures r.None? ==> detected >= MIN_DETECTED_FRAMES && left + right >= MIN_DIRECTION_SAMPLES
  {
    if detected == 0 then Some(NoRunner)
    else if detected < MIN_DETECTED_FRAMES || DetectionRatio(detected, frameCount) < MIN_DETECTION_RATIO then
      Some(LowDetection)
    else if left + right < MIN_DIRECTION_SAMPLES then Some(DirectionUnclear)
    else if left > 0 && right > 0 && FlipRatio(left, right) > MAX_DIRECTION_FLIP_RATIO then
      Some(DirectionInconsistent)
    else None
  }

  /** The last gate, on the number of contact records. */
  function ContactIssue(leftContacts: int, rightContacts: int): (r: Option<Issue>)
    ensures r.None? <==> leftContacts + rightContacts >= MIN_CONTACTS
    ensures r.Some? ==> GateOf(r.value) == ContactsGate && r.value == FewStrides(leftContacts, rightContacts)
  {
    if leftContacts + rightContacts < MIN_CONTACTS then Some(FewStrides(leftContacts, rightContacts))
    else None
  }

  /** The issue `analyze` reports: the stages in order, the first that stops
      wins. */
  function GateChain(ms: Measurements): (r: Option<Issue>)
    ensures r.Some? ==>
      (Rank(GateOf(r.value)) < Rank(RunnerGate) <==> PreSamplingIssue(ms.width, ms.height, ms.duration, ms.fps).Some?)
  {
    var pre := PreSamplingIssue(ms.width, ms.height, ms.duration, ms.fps);
    if pre.Some? then pre
    else
      var det := DetectionIssue(ms.frameCount, ms.detectedFrames, ms.directionLeft, ms.directionRight);
      if det.Some? then det
      else ContactIssue(ms.leftContacts, ms.rightContacts)
  }

  /** The gates are checked in their fixed order and the first one that fails is
      the only issue reported: the chain reports an issue exactly when some gate
      fails, the reported gate fails, and no earlier gate does. */
  lemma GateChainFirstFailing(ms: Measurements)
    ensures GateChain(ms).Some? <==> exists g :: Fails(g, ms)
    ensures GateChain(ms).Some? ==>
      Fails(GateOf(GateChain(ms).value), ms) &&
      forall h :: Rank(h) < Rank(GateOf(GateChain(ms).value)) ==> !Fails(h, ms)
  {
    var r := GateChain(ms);
    if r.Some? {
      assert Fails(GateOf(r.value), ms);
      forall h | Rank(h) < Rank(GateOf(r.value)) ensures !Fails(h, ms) {
        FailsCases(h, ms);
      }
    } else {
      forall g ensures !Fails(g, ms) {
        FailsCases(g, ms);
      }
    }
  }

  lemma FailsCases(g: Gate, ms: Measurements)
    ensures Fails(g, ms) ==> GateChain(ms).Some? && Rank(GateOf(GateChain(ms).value)) <= Rank(g)
  {
  }

  /** The issue reports the values it is about. */
  lemma IssueValues(ms: Measurements)
    ensures GateChain(ms) == Some(ResolutionLow(ms.width, ms.height)) <==> Fails(ResolutionGate, ms)
    ensures GateChain(ms).Some? && GateChain(ms).value.VideoTooShort? ==>
      ms.fps.Finite? && GateChain(ms).value.detected == RealDuration(ms.duration, ms.fps.v) &&
      GateChain(ms).value.video == ms.duration
    ensures GateChain(ms).Some? && GateChain(ms).value.FewStrides? ==>
      GateChain(ms).value == FewStrides(ms.leftContacts, ms.rightContacts)
  {
  }

  /** A run that passes every gate has at least 8 detections making up at least
      a fifth of the frames, at least 8 direction votes with at most a quarter
      in the minority, and at least 4 contacts. */
  lemma PassedGates(ms: Measurements)
    requires GateChain(ms).None?
    ensures MaxInt(ms.width, ms.height) >= MIN_LONG_EDGE && MinInt(ms.width, ms.height) >= MIN_SHORT_EDGE
    ensures ms.fps.Finite? && (IsNormalFps(ms.fps.v) || IsSlowMoFps(ms.fps.v))
    ensures RealDuration(ms.duration, ms.fps.v) >= MIN_DURATION_SEC
    ensures ms.detectedFrames >= MIN_DETECTED_FRAMES
    ensures DetectionRatio(ms.detectedFrames, ms.frameCount) >= MIN_DETECTION_RATIO
    ensures ms.directionLeft + ms.directionRight >= MIN_DIRECTION_SAMPLES
    ensures MinInt(ms.directionLeft, ms.directionRight) as real <=
      MAX_DIRECTION_FLIP_RATIO * (ms.directionLeft + ms.directionRight) as real ||
      ms.directionLeft <= 0 || ms.directionRight <= 0
    ensures ms.leftContacts + ms.rightContacts >= MIN_CONTACTS
  {
    var l, r := ms.directionLeft, ms.directionRight;
    if l > 0 && r > 0 {
      assert FlipRatio(l, r) <= MAX_DIRECTION_FLIP_RATIO;
      DivAtMost(MinInt(l, r) as real, (l + r) as real, MAX_DIRECTION_FLIP_RATIO);
    }
  }

  lemma DivAtMost(a: real, b: real, c: real)
    requires b > 0.0 && a / b <= c
    ensures a <= c * b
  {
    assert a == (a / b) * b;
  }

  /** The normal and slow-motion bands do not overlap, so the slow-motion factor
      is decided by the band alone. */
  lemma FpsBandsDisjoint(fps: real)
    ensures !(IsNormalFps(fps) && IsSlowMoFps(fps))
    ensures IsNormalFps(fps) ==> SlowMoFactor(fps) == 1
  {
  }
}
