/** Per-pose logic of the pipeline (app.js): `normalizePose`, `directionSign`,
    `estimateDirectionAuto` and `classifyFootStrike`, plus the frame record the
    sampling loop builds. */
module Pose {
  import opened Numbers
  import opened Stats
  import opened Geometry

  /** A keypoint as the pose estimator reports it, in pixels of the inference
      image. */
  datatype Keypoint = Keypoint(x: Num, y: Num, score: Num)

  /** One pose from the estimator: its keypoints and an optional overall score
      (`NaN` when the estimator gives none). */
  datatype Pose = Pose(keypoints: seq<Keypoint>, score: Num)

  /** A pose of the BlazePose model, which always reports 33 keypoints. */
  type BlazePose = p: Pose | |p.keypoints| == LANDMARK_COUNT
    witness Pose(seq(33, _ => Keypoint(NaN, NaN, NaN)), NaN)

  /** One sampled instant: its time in seconds, the landmarks detected there (if
      any) and the nominal sample rate. */
  datatype FrameRecord = FrameRecord(t: real, landmarks: Option<Landmarks>, sampleFps: int)

  const MIN_POSE_SCORE: real := 0.2

  // ---------------------------------------------------------------------------
  // normalizePose

  /** `clamp01(x)`: `Math.max(0, Math.min(1, x))`, which keeps a NaN a NaN. */
  function Clamp01(x: Num): (r: Num)
    ensures r.Finite? <==> x.Finite?
    ensures r.Finite? ==> 0.0 <= r.v <= 1.0
    ensures x.Finite? && 0.0 <= x.v <= 1.0 ==> r == x
  {
    if x.Finite? then Finite(Clamp(x.v, 0.0, 1.0)) else NaN
  }

  /** A keypoint's score, with a non-finite score read as 0. */
  function KeypointScore(kp: Keypoint): real {
    if kp.score.Finite? then kp.score.v else 0.0
  }

  /** The scores `normalizePose` averages when the pose has no score of its own. */
  function KeypointScores(kps: seq<Keypoint>): (r: seq<Num>)
    ensures |r| == |kps|
    ensures forall i :: 0 <= i < |kps| ==> r[i] == Finite(KeypointScore(kps[i]))
  {
    seq(|kps|, i requires 0 <= i < |kps| => Finite(KeypointScore(kps[i])))
  }

  /** The score `normalizePose` gates on: the pose's own score when finite, else
      the mean of the keypoint scores. */
  function PoseScore(p: Pose): Num {
    if p.score.Finite? then p.score else Mean(KeypointScores(p.keypoints))
  }

  /** One coordinate divided by the image extent, clamped into [0, 1]. */
  function NormalizeCoord(c: Num, extent: real): Num {
    Clamp01(if c.Finite? && extent > 0.0 then Finite(c.v / extent) else NaN)
  }

  function NormalizeKeypoint(kp: Keypoint, vw: real, vh: real): Landmark {
    Landmark(NormalizeCoord(kp.x, vw), NormalizeCoord(kp.y, vh), Finite(KeypointScore(kp)))
  }

  /** `normalizePose(pose, vw, vh)`: no landmarks for a missing pose, an empty
      keypoint list, or a score that is non-finite or below the minimum;
      otherwise one normalised landmark per keypoint. */
  function NormalizePose(pose: Option<Pose>, vw: real, vh: real): (r: Option<seq<Landmark>>)
    ensures r.Some? ==> pose.Some? && |r.value| == |pose.value.keypoints|
    ensures r.Some? ==> forall i :: 0 <= i < |r.value| ==>
      r.value[i] == NormalizeKeypoint(pose.value.keypoints[i], vw, vh)
  {
    if pose.None? || |pose.value.keypoints| == 0 then None
    else
      var score := PoseScore(pose.value);
      if score.NaN? || score.v < MIN_POSE_SCORE then None
      else
        var kps := pose.value.keypoints;
        Some(seq(|kps|, i requires 0 <= i < |kps| => NormalizeKeypoint(kps[i], vw, vh)))
  }

  /** The score gate of `normalizePose`: a present, non-empty pose is kept exactly
      when its score reaches 0.2, where a pose without a finite score of its own
      is scored by the mean of its keypoint scores (non-finite ones counting as
      0), and that mean is always finite. */
  lemma NormalizePoseGate(pose: Option<Pose>, vw: real, vh: real)
    ensures pose.None? || |pose.value.keypoints| == 0 ==> NormalizePose(pose, vw, vh).None?
    ensures pose.Some? && |pose.value.keypoints| > 0 ==>
      PoseScore(pose.value).Finite? &&
      (NormalizePose(pose, vw, vh).Some? <==> PoseScore(pose.value).v >= MIN_POSE_SCORE)
  {
    if pose.Some? && |pose.value.keypoints| > 0 {
      var s := KeypointScores(pose.value.keypoints);
      assert s[0] == Finite(s[0].v);
      assert s[0].v in FiniteValues(s);
    }
  }

  /** A pose without a score of its own is kept when every keypoint score is
      finite and at least 0.2, and dropped when every keypoint score is below
      0.2 (or non-finite). */
  lemma KeypointScoresDecide(p: Pose, vw: real, vh: real)
    requires p.score.NaN? && |p.keypoints| > 0
    ensures (forall i :: 0 <= i < |p.keypoints| ==> KeypointScore(p.keypoints[i]) >= MIN_POSE_SCORE)
      ==> NormalizePose(Some(p), vw, vh).Some?
    ensures (forall i :: 0 <= i < |p.keypoints| ==> KeypointScore(p.keypoints[i]) < MIN_POSE_SCORE)
      ==> NormalizePose(Some(p), vw, vh).None?
  {
    var s := KeypointScores(p.keypoints);
    var fv := FiniteValues(s);
    NormalizePoseGate(Some(p), vw, vh);
    MeanWithinRange(s);
    assert fv != [];
    assert forall x :: x in fv ==> exists i :: 0 <= i < |p.keypoints| && x == KeypointScore(p.keypoints[i]) by {
      forall x | x in fv
        ensures exists i :: 0 <= i < |p.keypoints| && x == KeypointScore(p.keypoints[i])
      {
        assert Finite(x) in s;
        var i :| 0 <= i < |s| && s[i] == Finite(x);
        assert x == KeypointScore(p.keypoints[i]);
      }
    }
  }

  /** Every normalised coordinate is either not-a-number or inside [0, 1]; it is
      finite exactly when the keypoint coordinate is finite and the image extent
      positive. */
  lemma NormalizedCoordinates(pose: Option<Pose>, vw: real, vh: real, i: int)
    requires NormalizePose(pose, vw, vh).Some?
    requires 0 <= i < |NormalizePose(pose, vw, vh).value|
    ensures var l := NormalizePose(pose, vw, vh).value[i];
      var kp := pose.value.keypoints[i];
      (l.x.Finite? <==> kp.x.Finite? && vw > 0.0) &&
      (l.y.Finite? <==> kp.y.Finite? && vh > 0.0) &&
      (l.x.Finite? ==> 0.0 <= l.x.v <= 1.0) &&
      (l.y.Finite? ==> 0.0 <= l.y.v <= 1.0) &&
      l.score.Finite?
  {
  }

  /** A keypoint inside the image is mapped back onto itself by scaling its
      normalised coordinates with the image size. */
  lemma NormalizeRoundTrip(pose: Option<Pose>, vw: real, vh: real, i: int)
    requires NormalizePose(pose, vw, vh).Some?
    requires 0 <= i < |NormalizePose(pose, vw, vh).value|
    requires vw > 0.0 && vh > 0.0
    requires pose.value.keypoints[i].x.Finite? && 0.0 <= pose.value.keypoints[i].x.v <= vw
    requires pose.value.keypoints[i].y.Finite? && 0.0 <= pose.value.keypoints[i].y.v <= vh
    ensures NormalizePose(pose, vw, vh).value[i].x.Finite?
    ensures NormalizePose(pose, vw, vh).value[i].y.Finite?
    ensures NormalizePose(pose, vw, vh).value[i].x.v * vw == pose.value.keypoints[i].x.v
    ensures NormalizePose(pose, vw, vh).value[i].y.v * vh == pose.value.keypoints[i].y.v
  {
    var kp := pose.value.keypoints[i];
    UnitScale(kp.x.v, vw);
    UnitScale(kp.y.v, vh);
  }

  lemma UnitScale(c: real, extent: real)
    requires extent > 0.0 && 0.0 <= c <= extent
    ensures 0.0 <= c / extent <= 1.0 && (c / extent) * extent == c
  {
    DivBetween(c, extent, 0.0, 1.0);
  }

  // ---------------------------------------------------------------------------
  // Facing direction

  /** Horizontal offset of the nose from the midpoint of the hips. */
  function NoseOffset(lms: Landmarks): Num {
    Sub(At(lms, Nose).x, Midpoint(Pos(At(lms, LeftHip)), Pos(At(lms, RightHip))).x)
  }

  const DIRECTION_DEAD_BAND: real := 0.015

  /** `directionSign(landmarks)`: +1 facing right, -1 facing left, 0 when the
      offset is unknown or inside the dead band. */
  function DirectionSign(lms: Landmarks): (r: int)
    ensures -1 <= r <= 1
  {
    var dx := NoseOffset(lms);
    if dx.NaN? || AbsReal(dx.v) < DIRECTION_DEAD_BAND then 0
    else if dx.v > 0.0 then 1
    else -1
  }

  /** The three outcomes of `directionSign` in terms of the nose offset. */
  lemma DirectionSignCases(lms: Landmarks)
    ensures DirectionSign(lms) == 0 <==>
      NoseOffset(lms).NaN? || -DIRECTION_DEAD_BAND < NoseOffset(lms).v < DIRECTION_DEAD_BAND
    ensures DirectionSign(lms) == 1 <==>
      NoseOffset(lms).Finite? && NoseOffset(lms).v >= DIRECTION_DEAD_BAND
    ensures DirectionSign(lms) == -1 <==>
      NoseOffset(lms).Finite? && NoseOffset(lms).v <= -DIRECTION_DEAD_BAND
  {
  }

  /** Mirroring the image reverses the facing direction. */
  lemma DirectionSignMirror(lms: Landmarks)
    ensures DirectionSign(Mirror(lms)) == -DirectionSign(lms)
  {
    var ml := Mirror(lms);
    assert At(ml, Nose) == MirrorLandmark(At(lms, Nose));
    assert At(ml, LeftHip) == MirrorLandmark(At(lms, LeftHip));
    assert At(ml, RightHip) == MirrorLandmark(At(lms, RightHip));
    MirrorMidpoint(Pos(At(lms, LeftHip)), Pos(At(lms, RightHip)));
    var dx := NoseOffset(lms);
    if dx.Finite? {
      assert NoseOffset(ml) == Finite(-dx.v);
    } else {
      assert NoseOffset(ml).NaN?;
    }
  }

  /** `estimateDirectionAuto(landmarks)`: the facing sign, with an undecided sign
      read as facing right. */
  function EstimateDirectionAuto(lms: Landmarks): (r: int)
    ensures r == 1 || r == -1
    ensures DirectionSign(lms) != 0 ==> r == DirectionSign(lms)
    ensures DirectionSign(lms) == 0 ==> r == 1
  {
    var sign := DirectionSign(lms);
    if sign != 0 then sign else 1
  }

  // ---------------------------------------------------------------------------
  // Foot strike

  datatype Strike = Heel | Midfoot | Forefoot | Unknown

  const STRIKE_THRESHOLD: real := 0.012

  /** `classifyFootStrike(heel, toe)` from `dy = heel.y - toe.y`: a heel clearly
      lower than the toe is a heel strike, clearly higher a forefoot strike. */
  function ClassifyFootStrike(heel: Option<Landmark>, toe: Option<Landmark>): (r: Strike)
    ensures r == Unknown <==> heel.None? || toe.None? || heel.value.y.NaN? || toe.value.y.NaN?
  {
    if heel.None? || toe.None? then Unknown
    else
      var dy := Sub(heel.value.y, toe.value.y);
      if dy.NaN? then Unknown
      else if dy.v > STRIKE_THRESHOLD then Heel
      else if dy.v < -STRIKE_THRESHOLD then Forefoot
      else Midfoot
  }

  /** The classification of heel and of forefoot strikes swapped. */
  function Opposite(s: Strike): Strike {
    match s
    case Heel => Forefoot
    case Forefoot => Heel
    case other => other
  }

  /** Each class in terms of `dy`: unknown exactly when a landmark or `dy` is
      missing, and otherwise decided by the 0.012 threshold on either side. */
  lemma FootStrikeCases(heel: Option<Landmark>, toe: Option<Landmark>)
    ensures ClassifyFootStrike(heel, toe) == Unknown <==>
      heel.None? || toe.None? || Sub(heel.value.y, toe.value.y).NaN?
    ensures ClassifyFootStrike(heel, toe) == Heel <==>
      heel.Some? && toe.Some? && heel.value.y.Finite? && toe.value.y.Finite? &&
      heel.value.y.v - toe.value.y.v > STRIKE_THRESHOLD
    ensures ClassifyFootStrike(heel, toe) == Forefoot <==>
      heel.Some? && toe.Some? && heel.value.y.Finite? && toe.value.y.Finite? &&
      heel.value.y.v - toe.value.y.v < -STRIKE_THRESHOLD
    ensures ClassifyFootStrike(heel, toe) == Midfoot <==>
      heel.Some? && toe.Some? && heel.value.y.Finite? && toe.value.y.Finite? &&
      -STRIKE_THRESHOLD <= heel.value.y.v - toe.value.y.v <= STRIKE_THRESHOLD
  {
  }

  /** Exchanging the heel and toe landmarks exchanges heel and forefoot strikes. */
  lemma FootStrikeSwap(heel: Option<Landmark>, toe: Option<Landmark>)
    ensures ClassifyFootStrike(toe, heel) == Opposite(ClassifyFootStrike(heel, toe))
  {
  }

  /** The classification depends only on how far the heel is below the toe:
      moving the whole foot up or down the image does not change it. */
  lemma FootStrikeShift(heel: Landmark, toe: Landmark, c: real)
    ensures ClassifyFootStrike(Some(heel.(y := Add(heel.y, Finite(c)))), Some(toe.(y := Add(toe.y, Finite(c)))))
      == ClassifyFootStrike(Some(heel), Some(toe))
  {
  }
}
