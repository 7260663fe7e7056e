/** The threshold classifiers `interpretOverstride`, `interpretKnee`,
    `interpretTrunkLean`, `interpretRetraction` and the summary flags of
    `buildFlags` (app.js). Labels are the translation keys the source looks up;
    the translated text is not modelled. */
module Interpret {
  import opened Numbers
  import opened Summary

  datatype Level = Na | Good | Warn | Bad

  /** How far a level is from "good"; `Na` has no place on the scale. */
  function Severity(l: Level): int {
    match l
    case Na => -1
    case Good => 0
    case Warn => 1
    case Bad => 2
  }

  datatype Verdict = Verdict(key: string, level: Level)

  /** `interpretOverstride(ratio)`. */
  function InterpretOverstride(ratio: Num): (r: Verdict)
    ensures r.level == Na <==> ratio.NaN?
    ensures ratio.Finite? ==> (r.level == Bad <==> ratio.v >= 0.20) && (r.level == Good <==> ratio.v < 0.06)
  {
    if ratio.NaN? then Verdict("interpret.overstride.unknown", Na)
    else if ratio.v >= 0.20 then Verdict("interpret.overstride.severe", Bad)
    else if ratio.v >= 0.12 then Verdict("interpret.overstride.moderate", Warn)
    else if ratio.v >= 0.06 then Verdict("interpret.overstride.mild", Warn)
    else Verdict("interpret.overstride.good", Good)
  }

  /** `interpretKnee(angle)`. */
  function InterpretKnee(angle: Num): (r: Verdict)
    ensures r.level == Na <==> angle.NaN?
    ensures angle.Finite? ==> (r.level == Bad <==> angle.v >= 170.0) && (r.level == Good <==> angle.v < 160.0)
  {
    if angle.NaN? then Verdict("interpret.knee.unknown", Na)
    else if angle.v >= 170.0 then Verdict("interpret.knee.locked", Bad)
    else if angle.v >= 160.0 then Verdict("interpret.knee.extended", Warn)
    else Verdict("interpret.knee.good", Good)
  }

  /** `interpretTrunkLean(deg)`: positive is forward along the running direction. */
  function InterpretTrunkLean(deg: Num): (r: Verdict)
    ensures r.level == Na <==> deg.NaN?
    ensures deg.Finite? ==> (r.level == Bad <==> deg.v < -2.0) && (r.level == Good <==> 0.0 <= deg.v <= 12.0)
  {
    if deg.NaN? then Verdict("interpret.trunk.unknown", Na)
    else if deg.v < -2.0 then Verdict("interpret.trunk.backward", Bad)
    else if deg.v < 0.0 then Verdict("interpret.trunk.slightBackward", Warn)
    else if deg.v <= 12.0 then Verdict("interpret.trunk.reasonable", Good)
    else Verdict("interpret.trunk.largeForward", Warn)
  }

  /** `interpretRetraction(speed)`: positive is pulling the foot back. */
  function InterpretRetraction(speed: Num): (r: Verdict)
    ensures r.level == Na <==> speed.NaN?
    ensures speed.Finite? ==> (r.level == Bad <==> speed.v < -0.02) && (r.level == Good <==> speed.v >= 0.02)
  {
    if speed.NaN? then Verdict("interpret.retraction.unknown", Na)
    else if speed.v < -0.02 then Verdict("interpret.retraction.forwardReach", Bad)
    else if speed.v < 0.02 then Verdict("interpret.retraction.slowPull", Warn)
    else Verdict("interpret.retraction.good", Good)
  }

  /** A larger overstride ratio, or a straighter knee, is never judged better. */
  lemma SeverityMonotone(a: real, b: real)
    requires a <= b
    ensures Severity(InterpretOverstride(Finite(a)).level) <= Severity(InterpretOverstride(Finite(b)).level)
    ensures Severity(InterpretKnee(Finite(a)).level) <= Severity(InterpretKnee(Finite(b)).level)
    ensures Severity(InterpretRetraction(Finite(a)).level) >= Severity(InterpretRetraction(Finite(b)).level)
  {
  }

  /** Trunk lean is good exactly within 0 to 12 degrees forward, bad exactly when
      more than 2 degrees backward, and a warning otherwise. */
  lemma TrunkLeanBands(deg: real)
    ensures InterpretTrunkLean(Finite(deg)).level == Good <==> 0.0 <= deg <= 12.0
    ensures InterpretTrunkLean(Finite(deg)).level == Bad <==> deg < -2.0
    ensures InterpretTrunkLean(Finite(deg)).level == Warn <==> (-2.0 <= deg < 0.0 || deg > 12.0)
  {
  }

  // ---------------------------------------------------------------------------
  // buildFlags

  datatype Flag = Flag(level: Level, text: string)

  function OverstrideFlag(median: Num): Flag {
    if median.NaN? then Flag(Warn, "flags.overstrideUnknown")
    else if median.v >= 0.12 then Flag(Bad, "flags.overstrideBad")
    else Flag(Good, "flags.overstrideGood")
  }

  function KneeFlag(median: Num): Flag {
    if median.NaN? then Flag(Warn, "flags.kneeUnknown")
    else if median.v >= 165.0 then Flag(Bad, "flags.kneeBad")
    else Flag(Good, "flags.kneeGood")
  }

  function TrunkFlag(median: Num): Flag {
    if median.NaN? then Flag(Warn, "flags.trunkUnknown")
    else if median.v < -1.0 then Flag(Bad, "flags.trunkBad")
    else Flag(Good, "flags.trunkGood")
  }

  function HeelFlag(rate: Num): Flag {
    if rate.NaN? then Flag(Warn, "flags.heelUnknown")
    else if rate.v >= 0.6 then Flag(Warn, "flags.heelMostly")
    else if rate.v <= 0.2 then Flag(Good, "flags.heelMostlyNon")
    else Flag(Warn, "flags.heelMixed")
  }

  function RetractionFlag(median: Num): Flag {
    if median.NaN? then Flag(Warn, "flags.retractionUnknown")
    else if median.v < 0.02 then Flag(Warn, "flags.retractionSlow")
    else Flag(Good, "flags.retractionGood")
  }

  /** `buildFlags(summary)`. */
  function BuildFlags(s: SummaryRecord): (r: seq<Flag>)
    ensures |r| == (if s.contactCount == 0 then 1 else 5)
    ensures forall k :: 0 <= k < |r| ==> r[k].level != Na
  {
    if s.contactCount == 0 then [Flag(Warn, "flags.noContacts")]
    else [OverstrideFlag(s.overstrideRatioMedian), KneeFlag(s.kneeAngleMedian),
          TrunkFlag(s.trunkLeanMedian), HeelFlag(s.heelStrikeRate),
          RetractionFlag(s.retractSpeedMedian)]
  }

  /** One warning when there are no contacts, otherwise exactly five flags, one
      per metric in a fixed order, each "bad" only for its own threshold and a
      warning whenever its metric is missing. */
  lemma FlagsShape(s: SummaryRecord)
    ensures |BuildFlags(s)| == (if s.contactCount == 0 then 1 else 5)
    ensures s.contactCount == 0 ==> BuildFlags(s)[0] == Flag(Warn, "flags.noContacts")
    ensures s.contactCount != 0 ==>
      (BuildFlags(s)[0].level == Bad <==> s.overstrideRatioMedian.Finite? && s.overstrideRatioMedian.v >= 0.12) &&
      (BuildFlags(s)[1].level == Bad <==> s.kneeAngleMedian.Finite? && s.kneeAngleMedian.v >= 165.0) &&
      (BuildFlags(s)[2].level == Bad <==> s.trunkLeanMedian.Finite? && s.trunkLeanMedian.v < -1.0) &&
      (BuildFlags(s)[3].level == Good <==> s.heelStrikeRate.Finite? && s.heelStrikeRate.v <= 0.2) &&
      (BuildFlags(s)[4].level == Good <==> s.retractSpeedMedian.Finite? && s.retractSpeedMedian.v >= 0.02)
    ensures s.contactCount != 0 ==> forall i :: 0 <= i < 5 ==> BuildFlags(s)[i].level != Na
    ensures forall i :: 0 <= i < |BuildFlags(s)| ==> BuildFlags(s)[i].level != Bad || s.contactCount != 0
  {
  }

  /** A flag is a warning about a missing metric exactly when that metric is
      not-a-number. */
  lemma FlagsUnknown(s: SummaryRecord)
    requires s.contactCount != 0
    ensures BuildFlags(s)[0].text == "flags.overstrideUnknown" <==> s.overstrideRatioMedian.NaN?
    ensures BuildFlags(s)[1].text == "flags.kneeUnknown" <==> s.kneeAngleMedian.NaN?
    ensures BuildFlags(s)[2].text == "flags.trunkUnknown" <==> s.trunkLeanMedian.NaN?
    ensures BuildFlags(s)[3].text == "flags.heelUnknown" <==> s.heelStrikeRate.NaN?
    ensures BuildFlags(s)[4].text == "flags.retractionUnknown" <==> s.retractSpeedMedian.NaN?
  {
  }
}
