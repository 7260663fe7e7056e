/** Per-contact metrics, `computeContactMetrics` (app.js): at every detected
    contact the leg length, overstride, knee angle, trunk lean, foot strike and
    the retraction speed over a short look-back window. */
module ContactMetrics {
  import opened Numbers
  import opened Geometry
  import opened Pose

  datatype Leg = L | R

  function KneeJoint(leg: Leg): Joint { if leg == L then LeftKnee else RightKnee }
  function AnkleJoint(leg: Leg): Joint { if leg == L then LeftAnkle else RightAnkle }
  function HeelJoint(leg: Leg): Joint { if leg == L then LeftHeel else RightHeel }
  function ToeJoint(leg: Leg): Joint { if leg == L then LeftToe else RightToe }

  /** One record of `computeContactMetrics`. */
  datatype ContactMetric = ContactMetric(
    t: real, leg: Leg, overstrideRatio: Num, kneeAngle: Num, trunkLeanDeg: Num,
    strike: Strike, retractSpeed: Num, legLen: Num, overstride: Num)

  /** Length of the look-back window for the retraction speed, in seconds of
      real time. */
  const RETRACTION_WINDOW_SEC: real := 0.12

  /** `frames[i]?.landmarks`: nothing for an index outside the frame list. */
  function LandmarksAt(frames: seq<FrameRecord>, i: int): Option<Landmarks> {
    if 0 <= i < |frames| then frames[i].landmarks else None
  }

  function HipCentre(lms: Landmarks): Point {
    Midpoint(Pos(At(lms, LeftHip)), Pos(At(lms, RightHip)))
  }

  function ShoulderCentre(lms: Landmarks): Point {
    Midpoint(Pos(At(lms, LeftShoulder)), Pos(At(lms, RightShoulder)))
  }

  /** `(ankle.x - hip.x) * direction`: how far the ankle is ahead of the hip
      along the running direction. */
  function AnkleAhead(lms: Landmarks, leg: Leg, direction: int): Num {
    Scale(Sub(At(lms, AnkleJoint(leg)).x, HipCentre(lms).x), direction as real)
  }

  /** Hip to knee plus knee to ankle. */
  function LegLength(m: MathLib, lms: Landmarks, leg: Leg): Num {
    var knee := Pos(At(lms, KneeJoint(leg)));
    Add(Dist2D(m, HipCentre(lms), knee), Dist2D(m, knee, Pos(At(lms, AnkleJoint(leg)))))
  }

  /** `legLen > 0 ? overstride / legLen : NaN`. */
  function OverstrideRatio(overstride: Num, legLen: Num): Num {
    if legLen.Finite? && legLen.v > 0.0 then DivBy(overstride, legLen.v) else NaN
  }

  /** Trunk lean from vertical in degrees, positive when the shoulders are ahead
      of the hips along the running direction; not-a-number when the shoulders
      and hips are level (`dy` is 0), and `Math.atan` of a non-finite ratio is
      not finite either. */
  function TrunkLean(m: MathLib, lms: Landmarks, direction: int): Num {
    LeanAngle(m, Scale(Sub(ShoulderCentre(lms).x, HipCentre(lms).x), direction as real),
      Sub(HipCentre(lms).y, ShoulderCentre(lms).y))
  }

  /** `dy !== 0 ? atan(dx / dy) * 180 / PI : NaN`. */
  function LeanAngle(m: MathLib, dx: Num, dy: Num): Num {
    if dy == Finite(0.0) then NaN
    else if dx.Finite? && dy.Finite? then Finite(Degrees(m.atan(dx.v / dy.v)))
    else NaN
  }

  /** Look-back window in samples: `floor(sampleFps * 0.12 * timeScale)` but at
      least 2, and 2 when the frame carries no sample rate. */
  function RetractionWindow(sampleFps: int, timeScale: real): (w: int)
    ensures w >= 2
  {
    if sampleFps == 0 then 2
    else MaxInt(2, (sampleFps as real * (RETRACTION_WINDOW_SEC * timeScale)).Floor)
  }

  /** Index of the reference frame for the retraction speed. */
  function ReferenceIndex(i: int, w: int): int {
    MaxInt(0, i - w)
  }

  /** Reference frame of the contact at `i`. */
  function ReferenceOf(frames: seq<FrameRecord>, i: int, timeScale: real): int
    requires 0 <= i < |frames|
  {
    ReferenceIndex(i, RetractionWindow(frames[i].sampleFps, timeScale))
  }

  /** `(f.t - f0.t) / timeScale`, the real time since the reference frame. */
  function ElapsedSince(frames: seq<FrameRecord>, i: int, j0: int, timeScale: real): Num
    requires 0 <= i < |frames| && 0 <= j0 < |frames|
  {
    DivBy(Finite(frames[i].t - frames[j0].t), timeScale)
  }

  /** Retraction speed: the rate at which the ankle falls back towards the hip
      over the look-back window, positive when it is pulled back; not-a-number
      when the reference frame has no landmarks or no positive time lies
      between the two frames. */
  function RetractSpeed(frames: seq<FrameRecord>, i: int, leg: Leg, direction: int, timeScale: real): Num
    requires LandmarksAt(frames, i).Some?
  {
    var j0 := ReferenceOf(frames, i, timeScale);
    match LandmarksAt(frames, j0)
    case None => NaN
    case Some(l0) =>
      RetractRate(AnkleAhead(l0, leg, direction), AnkleAhead(frames[i].landmarks.value, leg, direction),
        ElapsedSince(frames, i, j0, timeScale))
  }

  /** `-(rel1 - rel0) / dt` when `dt` is finite and positive. */
  function RetractRate(rel0: Num, rel1: Num, dt: Num): Num {
    if dt.Finite? && dt.v > 0.0 then DivBy(Scale(Sub(rel1, rel0), -1.0), dt.v) else NaN
  }

  /** The record `computeContactMetrics` pushes for the contact at frame `i`. */
  function MetricAt(m: MathLib, frames: seq<FrameRecord>, i: int, leg: Leg, direction: int, timeScale: real): (r: ContactMetric)
    requires LandmarksAt(frames, i).Some?
    ensures r.t == frames[i].t && r.leg == leg
    ensures var lms := frames[i].landmarks.value;
      r.strike != Unknown <==> At(lms, HeelJoint(leg)).y.Finite? && At(lms, ToeJoint(leg)).y.Finite?
  {
    var lms := frames[i].landmarks.value;
    var legLen := LegLength(m, lms, leg);
    var overstride := AnkleAhead(lms, leg, direction);
    ContactMetric(
      frames[i].t, leg,
      OverstrideRatio(overstride, legLen),
      AngleDeg(m, HipCentre(lms), Pos(At(lms, KneeJoint(leg))), Pos(At(lms, AnkleJoint(leg)))),
      TrunkLean(m, lms, direction),
      ClassifyFootStrike(Some(At(lms, HeelJoint(leg))), Some(At(lms, ToeJoint(leg)))),
      RetractSpeed(frames, i, leg, direction, timeScale),
      legLen, overstride)
  }

  /** The contacts that yield a record: those whose frame has landmarks, in the
      order given. */
  function Usable(frames: seq<FrameRecord>, contacts: seq<nat>): (r: seq<nat>)
    ensures |r| <= |contacts|
    ensures forall i :: i in r <==> i in contacts && LandmarksAt(frames, i).Some?
  {
    if contacts == [] then []
    else
      var last := contacts[|contacts| - 1];
      var init := contacts[..|contacts| - 1];
      assert contacts == init + [last];
      Usable(frames, init) + (if LandmarksAt(frames, last).Some? then [last] else [])
  }

  /** Record `k` is the metric of the `k`-th usable contact. */
  predicate RecordAt(m: MathLib, frames: seq<FrameRecord>, contacts: seq<nat>, out: seq<ContactMetric>,
                     k: int, leg: Leg, direction: int, timeScale: real)
    requires 0 <= k < |out| == |Usable(frames, contacts)|
  {
    LandmarksAt(frames, Usable(frames, contacts)[k]).Some? &&
    out[k] == MetricAt(m, frames, Usable(frames, contacts)[k], leg, direction, timeScale)
  }

  /** `computeContactMetrics(frames, contacts, leg, direction, timeScale)`: one
      record per usable contact, in contact order. */
  method ComputeContactMetrics(m: MathLib, frames: seq<FrameRecord>, contacts: seq<nat>,
                               leg: Leg, direction: int, timeScale: real)
    returns (out: seq<ContactMetric>)
    ensures |out| == |Usable(frames, contacts)|
    ensures forall k :: 0 <= k < |out| ==> RecordAt(m, frames, contacts, out, k, leg, direction, timeScale)
  {
    out := [];
    var n := 0;
    ghost var seen: seq<nat> := [];
    while n < |contacts|
      invariant 0 <= n <= |contacts| && seen == contacts[..n]
      invariant |out| == |Usable(frames, seen)|
      invariant forall k :: 0 <= k < |out| ==> RecordAt(m, frames, seen, out, k, leg, direction, timeScale)
    {
      var i := contacts[n];
      ghost var after := seen + [i];
      assert after == contacts[..n + 1];
      if LandmarksAt(frames, i).Some? {
        var next := out + [MetricAt(m, frames, i, leg, direction, timeScale)];
        RecordsPush(m, frames, seen, after, i, out, next, leg, direction, timeScale);
        out := next;
      } else {
        RecordsKeep(m, frames, seen, after, i, out, leg, direction, timeScale);
      }
      seen := after;
      n := n + 1;
    }
    assert seen == contacts;
  }

  /** A contact with landmarks appends its record. */
  lemma RecordsPush(m: MathLib, frames: seq<FrameRecord>, before: seq<nat>, after: seq<nat>, x: nat,
                    out: seq<ContactMetric>, next: seq<ContactMetric>, leg: Leg, direction: int, timeScale: real)
    requires after == before + [x] && LandmarksAt(frames, x).Some?
    requires next == out + [MetricAt(m, frames, x, leg, direction, timeScale)]
    requires |out| == |Usable(frames, before)|
    requires forall k :: 0 <= k < |out| ==> RecordAt(m, frames, before, out, k, leg, direction, timeScale)
    ensures |next| == |Usable(frames, after)|
    ensures forall k :: 0 <= k < |next| ==> RecordAt(m, frames, after, next, k, leg, direction, timeScale)
  {
    assert after[..|after| - 1] == before;
    forall k | 0 <= k < |next|
      ensures RecordAt(m, frames, after, next, k, leg, direction, timeScale)
    {
      if k < |out| {
        assert RecordAt(m, frames, before, out, k, leg, direction, timeScale);
      }
    }
  }

  /** A contact without landmarks yields nothing. */
  lemma RecordsKeep(m: MathLib, frames: seq<FrameRecord>, before: seq<nat>, after: seq<nat>, x: nat,
                    out: seq<ContactMetric>, leg: Leg, direction: int, timeScale: real)
    requires after == before + [x] && LandmarksAt(frames, x).None?
    requires |out| == |Usable(frames, before)|
    requires forall k :: 0 <= k < |out| ==> RecordAt(m, frames, before, out, k, leg, direction, timeScale)
    ensures |out| == |Usable(frames, after)|
    ensures forall k :: 0 <= k < |out| ==> RecordAt(m, frames, after, out, k, leg, direction, timeScale)
  {
    assert after[..|after| - 1] == before;
    forall k | 0 <= k < |out|
      ensures RecordAt(m, frames, after, out, k, leg, direction, timeScale)
    {
      assert RecordAt(m, frames, before, out, k, leg, direction, timeScale);
    }
  }

  /** The usable contacts keep the contact order. */
  lemma {:induction false} UsableIncreasing(frames: seq<FrameRecord>, contacts: seq<nat>)
    requires Increasing(contacts)
    ensures Increasing(Usable(frames, contacts))
  {
    if contacts != [] {
      var last := contacts[|contacts| - 1];
      var init := contacts[..|contacts| - 1];
      UsableIncreasing(frames, init);
      var u := Usable(frames, init);
      forall k | 0 <= k < |u| ensures u[k] < last {
        assert u[k] in init;
      }
    }
  }

  /** When every contact has landmarks, every contact yields a record. */
  lemma {:induction false} UsableAll(frames: seq<FrameRecord>, contacts: seq<nat>)
    requires forall k :: 0 <= k < |contacts| ==> LandmarksAt(frames, contacts[k]).Some?
    ensures Usable(frames, contacts) == contacts
  {
    if contacts != [] {
      var init := contacts[..|contacts| - 1];
      UsableAll(frames, init);
      assert contacts == init + [contacts[|contacts| - 1]];
    }
  }

  /** The reference frame lies at least two samples back, or at the start. */
  lemma ReferenceIndexBounds(frames: seq<FrameRecord>, i: int, timeScale: real)
    requires 0 <= i < |frames|
    ensures var j0 := ReferenceOf(frames, i, timeScale);
      var w := RetractionWindow(frames[i].sampleFps, timeScale);
      w >= 2 && 0 <= j0 <= i && (j0 == 0 || j0 == i - w) && (j0 == 0 <==> i <= w)
  {
  }

  /** The guards of one record: the overstride ratio is finite exactly when the
      leg length is finite and positive (and the overstride finite); the trunk
      lean is not-a-number when shoulders and hips are level; the retraction
      speed is finite only when the reference frame has landmarks and a positive
      real time has passed since it. */
  lemma MetricGuards(m: MathLib, frames: seq<FrameRecord>, i: int, leg: Leg, direction: int, timeScale: real)
    requires LandmarksAt(frames, i).Some?
    ensures var r := MetricAt(m, frames, i, leg, direction, timeScale);
      (r.overstrideRatio.Finite? <==> r.legLen.Finite? && r.legLen.v > 0.0 && r.overstride.Finite?) &&
      (r.overstrideRatio.Finite? ==> r.overstrideRatio.v * r.legLen.v == r.overstride.v) &&
      r.leg == leg && r.t == frames[i].t
    ensures var lms := frames[i].landmarks.value;
      Sub(HipCentre(lms).y, ShoulderCentre(lms).y) == Finite(0.0) ==>
        MetricAt(m, frames, i, leg, direction, timeScale).trunkLeanDeg.NaN?
    ensures var j0 := ReferenceOf(frames, i, timeScale);
      MetricAt(m, frames, i, leg, direction, timeScale).retractSpeed.Finite? ==>
        LandmarksAt(frames, j0).Some? && timeScale != 0.0 &&
        (frames[i].t - frames[j0].t) / timeScale > 0.0
  {
  }

  /** The retraction speed is finite whenever the reference frame has landmarks
      with finite ankle and hip positions and a positive real time has passed. */
  lemma RetractSpeedDefined(frames: seq<FrameRecord>, i: int, leg: Leg, direction: int, timeScale: real)
    requires LandmarksAt(frames, i).Some?
    requires var j0 := ReferenceOf(frames, i, timeScale);
      LandmarksAt(frames, j0).Some? &&
      AnkleAhead(frames[j0].landmarks.value, leg, direction).Finite? &&
      AnkleAhead(frames[i].landmarks.value, leg, direction).Finite? &&
      timeScale != 0.0 && (frames[i].t - frames[j0].t) / timeScale > 0.0
    ensures RetractSpeed(frames, i, leg, direction, timeScale).Finite?
  {
  }

  /** Sign convention: running to the right (+1) the overstride is positive when
      the ankle is to the right of the hip; running to the left (-1), when it is
      to the left. */
  lemma OverstrideSign(lms: Landmarks, leg: Leg)
    requires At(lms, AnkleJoint(leg)).x.Finite? && HipCentre(lms).x.Finite?
    ensures AnkleAhead(lms, leg, 1).Finite? && AnkleAhead(lms, leg, -1).Finite?
    ensures AnkleAhead(lms, leg, 1).v > 0.0 <==> At(lms, AnkleJoint(leg)).x.v > HipCentre(lms).x.v
    ensures AnkleAhead(lms, leg, -1).v > 0.0 <==> At(lms, AnkleJoint(leg)).x.v < HipCentre(lms).x.v
  {
  }

  // ---------------------------------------------------------------------------
  // Mirror invariance: the metrics describe the runner, not the camera side.
  // `MirrorFrames` is the transformation the lemmas apply to the input, not an
  // operation of the source.

  function MirrorFrame(f: FrameRecord): FrameRecord {
    f.(landmarks := if f.landmarks.Some? then Some(Mirror(f.landmarks.value)) else None)
  }

  function MirrorFrames(frames: seq<FrameRecord>): (r: seq<FrameRecord>)
    ensures |r| == |frames|
    ensures forall i :: 0 <= i < |frames| ==> r[i] == MirrorFrame(frames[i])
  {
    seq(|frames|, i requires 0 <= i < |frames| => MirrorFrame(frames[i]))
  }

  /** A mirrored image seen with the opposite running direction gives the same
      forward distance of the ankle. */
  lemma AnkleAheadMirror(lms: Landmarks, leg: Leg, direction: int)
    ensures AnkleAhead(Mirror(lms), leg, -direction) == AnkleAhead(lms, leg, direction)
  {
    var ml := Mirror(lms);
    assert At(ml, AnkleJoint(leg)) == MirrorLandmark(At(lms, AnkleJoint(leg)));
    assert At(ml, LeftHip) == MirrorLandmark(At(lms, LeftHip));
    assert At(ml, RightHip) == MirrorLandmark(At(lms, RightHip));
    MirrorMidpoint(Pos(At(lms, LeftHip)), Pos(At(lms, RightHip)));
    var d := Sub(At(lms, AnkleJoint(leg)).x, HipCentre(lms).x);
    if d.Finite? {
      assert Sub(At(ml, AnkleJoint(leg)).x, HipCentre(ml).x) == Finite(-d.v);
      NegTimesNeg(d.v, direction as real);
    }
  }

  lemma NegTimesNeg(a: real, b: real)
    ensures (-a) * (-b) == a * b
  {
  }

  lemma TrunkLeanMirror(m: MathLib, lms: Landmarks, direction: int)
    ensures TrunkLean(m, Mirror(lms), -direction) == TrunkLean(m, lms, direction)
  {
    var ml := Mirror(lms);
    assert At(ml, LeftHip) == MirrorLandmark(At(lms, LeftHip));
    assert At(ml, RightHip) == MirrorLandmark(At(lms, RightHip));
    assert At(ml, LeftShoulder) == MirrorLandmark(At(lms, LeftShoulder));
    assert At(ml, RightShoulder) == MirrorLandmark(At(lms, RightShoulder));
    MirrorMidpoint(Pos(At(lms, LeftHip)), Pos(At(lms, RightHip)));
    MirrorMidpoint(Pos(At(lms, LeftShoulder)), Pos(At(lms, RightShoulder)));
    var d := Sub(ShoulderCentre(lms).x, HipCentre(lms).x);
    if d.Finite? {
      assert Sub(ShoulderCentre(ml).x, HipCentre(ml).x) == Finite(-d.v);
      NegTimesNeg(d.v, direction as real);
    }
    assert Scale(Sub(ShoulderCentre(ml).x, HipCentre(ml).x), (-direction) as real)
      == Scale(Sub(ShoulderCentre(lms).x, HipCentre(lms).x), direction as real);
    assert Sub(HipCentre(ml).y, ShoulderCentre(ml).y) == Sub(HipCentre(lms).y, ShoulderCentre(lms).y);
  }

  lemma LegLengthMirror(m: MathLib, lms: Landmarks, leg: Leg)
    ensures LegLength(m, Mirror(lms), leg) == LegLength(m, lms, leg)
    ensures AngleDeg(m, HipCentre(Mirror(lms)), Pos(At(Mirror(lms), KneeJoint(leg))), Pos(At(Mirror(lms), AnkleJoint(leg))))
      == AngleDeg(m, HipCentre(lms), Pos(At(lms, KneeJoint(leg))), Pos(At(lms, AnkleJoint(leg))))
  {
    var ml := Mirror(lms);
    assert At(ml, LeftHip) == MirrorLandmark(At(lms, LeftHip));
    assert At(ml, RightHip) == MirrorLandmark(At(lms, RightHip));
    MirrorMidpoint(Pos(At(lms, LeftHip)), Pos(At(lms, RightHip)));
    var hip, knee, ankle := HipCentre(lms), Pos(At(lms, KneeJoint(leg))), Pos(At(lms, AnkleJoint(leg)));
    assert Pos(At(ml, KneeJoint(leg))) == MirrorPoint(knee);
    assert Pos(At(ml, AnkleJoint(leg))) == MirrorPoint(ankle);
    assert HipCentre(ml) == MirrorPoint(hip);
    MirrorDist(m, hip, knee);
    MirrorDist(m, knee, ankle);
    MirrorAngle(m, hip, knee, ankle);
  }

  /** The foot-strike class reads only heights, which mirroring keeps. */
  lemma StrikeMirror(lms: Landmarks, leg: Leg)
    ensures ClassifyFootStrike(Some(At(Mirror(lms), HeelJoint(leg))), Some(At(Mirror(lms), ToeJoint(leg))))
      == ClassifyFootStrike(Some(At(lms, HeelJoint(leg))), Some(At(lms, ToeJoint(leg))))
  {
    var ml := Mirror(lms);
    assert At(ml, HeelJoint(leg)).y == At(lms, HeelJoint(leg)).y;
    assert At(ml, ToeJoint(leg)).y == At(lms, ToeJoint(leg)).y;
  }

  /** Every metric of a contact is the same for the mirrored video analysed with
      the opposite direction: the sign conventions follow the running direction,
      not the side the camera films from. */
  lemma MetricMirror(m: MathLib, frames: seq<FrameRecord>, i: int, leg: Leg, direction: int, timeScale: real)
    requires LandmarksAt(frames, i).Some?
    ensures LandmarksAt(MirrorFrames(frames), i).Some?
    ensures MetricAt(m, MirrorFrames(frames), i, leg, -direction, timeScale)
      == MetricAt(m, frames, i, leg, direction, timeScale)
  {
    var mf := MirrorFrames(frames);
    var lms := frames[i].landmarks.value;
    assert mf[i].landmarks.value == Mirror(lms);
    AnkleAheadMirror(lms, leg, direction);
    TrunkLeanMirror(m, lms, direction);
    LegLengthMirror(m, lms, leg);
    StrikeMirror(lms, leg);
    RetractSpeedMirror(frames, i, leg, direction, timeScale);
  }

  lemma RetractSpeedMirror(frames: seq<FrameRecord>, i: int, leg: Leg, direction: int, timeScale: real)
    requires LandmarksAt(frames, i).Some?
    ensures LandmarksAt(MirrorFrames(frames), i).Some?
    ensures RetractSpeed(MirrorFrames(frames), i, leg, -direction, timeScale)
      == RetractSpeed(frames, i, leg, direction, timeScale)
  {
    var mf := MirrorFrames(frames);
    var lms := frames[i].landmarks.value;
    assert mf[i].landmarks.value == Mirror(lms);
    AnkleAheadMirror(lms, leg, direction);
    var j0 := ReferenceOf(frames, i, timeScale);
    assert ReferenceOf(mf, i, timeScale) == j0;
    assert ElapsedSince(mf, i, j0, timeScale) == ElapsedSince(frames, i, j0, timeScale);
    if LandmarksAt(frames, j0).Some? {
      AnkleAheadMirror(frames[j0].landmarks.value, leg, direction);
      assert mf[j0].landmarks.value == Mirror(frames[j0].landmarks.value);
    }
  }

  /** Mirroring selects the same contacts. */
  lemma {:induction false} UsableMirror(frames: seq<FrameRecord>, contacts: seq<nat>)
    ensures Usable(MirrorFrames(frames), contacts) == Usable(frames, contacts)
  {
    if contacts != [] {
      UsableMirror(frames, contacts[..|contacts| - 1]);
    }
  }
}
