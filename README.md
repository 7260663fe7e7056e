# StrideIQ gait pipeline in Dafny

StrideIQ is a browser tool. It samples a running video, runs a pose estimator on each sampled instant, and turns the landmarks into per-contact running metrics and a summary. This project models the logic of `app.js` that runs once landmarks exist:

- **Statistics.** `percentile`, `median` and `mean`.
- **Facing direction.** `directionSign` and `estimateDirectionAuto`.
- **Contact detection.** The greedy contact-peak detector `findContactPeaks`.
- **Foot strike and pose normalisation.** `classifyFootStrike` and `normalizePose`.
- **Per-contact metrics.** `computeContactMetrics` builds one record per usable contact.
- **`analyze` itself.** Its gates, sampling loop, facing-direction vote, contact pass and summary.
- **Small helpers.** The `interpret*` classifiers, `buildFlags`, `escapeHtml`, `interpolate`, and the inference-size arithmetic of `ensureInferenceCanvas`.

How JavaScript values become Dafny values:

- A JavaScript number becomes `Num`, either `Finite(v: real)` or `NaN`. `NaN` stands for every value `Number.isFinite` rejects.
- A landmark set is a sequence of exactly 33 landmarks.
- `Math.hypot`, `Math.acos` and `Math.atan` are fields of a `MathLib` value that each operation takes as a parameter. One property of `Math.hypot` is built in: `Geometry.Hypot` passes it the absolute values of its arguments, because `Math.hypot` ignores their signs. The mirror lemmas rely on this. Nothing else is assumed about the three functions, except in `AngleDegDegenerate`, which asks that `hypot(0, 0) == 0`.
- The pose estimator is the oracle `detect`. For each sample index it gives the estimator's first pose, or nothing. Nothing also covers the path where the estimator throws.
- Each `seekTo` is an input too: `rewindOk` says whether the rewind to the start (app.js:1224) succeeds, and `seekOk(k)` whether the seek of sample `k` (app.js:1315) does. A seek error rejects, nothing in `analyze` catches it, and the click handler then shows the analysis-failed alert (app.js:1514-1521). The model ends such a run with the outcome `SeekFailed`.

Files, one module each:

- `numbers.dfy`: `Num`, `Option`, and a few arithmetic helpers.
- `stats.dfy`: `percentile`, `median`, `mean` and insertion sort.
- `geometry.dfy`: landmarks, `midpoint`, `dist2D`, `angleDeg`, and mirroring the image.
- `pose.dfy`: `clamp01`, `normalizePose`, `directionSign`, `estimateDirectionAuto` and `classifyFootStrike`.
- `contacts.dfy`: `findContactPeaks`. It is an imperative loop proved against the peak predicates.
- `metrics.dfy`: `computeContactMetrics`. It is an imperative loop proved against the per-record function `MetricAt`.
- `sampling.dfy`: the step count, the sample times, `ensureInferenceCanvas`, and the sampling loop.
- `gates.dfy`: the validity gates and the issue each reports, in order.
- `summary.dfy`: sorting by time, the heel-strike rate, the summary, and the majority direction.
- `interpret.dfy`: the `interpret*` classifiers and `buildFlags`.
- `text.dfy`: `escapeHtml` and `interpolate`.
- `contact_pass.dfy`: the heel-height and time series, and the contact peaks and records of each leg.
- `analysis.dfy`: `analyze` as one method, split into stages.

Two behaviours of the code worth noting:

- **`normalizePose` does not always give finite coordinates.** `clamp01` is `Math.max(0, Math.min(1, x))`, and that keeps a NaN a NaN. So when the raw coordinate is non-finite, or the inference size is 0, the landmark coordinate is NaN. Finite coordinates lie in [0, 1]. See `Pose.NormalizedCoordinates`.
- **Detected frames can exceed direction votes.** The vote counters count only frames whose `directionSign` is non-zero. So the model proves `directionLeft + directionRight <= detectedFrames <= frames.length` rather than equality.

## Model

| member | source | states |
|---|---|---|
| Stats.FiniteValues | app.js:585 | the filtered list holds exactly the finite inputs and is no longer than the input |
| Stats.Sort | app.js:585 | the result is ascending and a permutation of the input |
| Stats.Insert | app.js:585 | inserting into an ascending list keeps it ascending and adds exactly the one element |
| Stats.Percentile | app.js:584-592 | not-a-number exactly when no finite value exists |
| Stats.RankIndexInRange | app.js:587-589 | for p in [0,1] the rank `(n-1)*p` lies in [0, n-1], and its floor and ceiling are valid neighbouring indices |
| Stats.RankIndexMonotone | app.js:587 | the rank is nondecreasing in p |
| Stats.InterpolatedBetween | app.js:587-591 | the interpolated value lies between the sorted values at the floor and the ceiling of the rank |
| Stats.InterpolatedWithin | app.js:587-591 | the interpolated value lies between the smallest and largest sorted value |
| Stats.InterpolatedMonotone | app.js:587-591 | on a sorted list, interpolation is nondecreasing in p |
| Stats.InterpolatedSplits | app.js:587-591 | sorted values at ranks up to the rank index are at most the interpolated value, and those from it on are at least that value |
| Stats.PercentileWithinRange | app.js:584-592 | a finite percentile lies between the minimum and maximum finite input |
| Stats.PercentileEndpoints | app.js:584-592 | percentile 0 is the minimum finite input and percentile 1 the maximum |
| Stats.PercentileMonotone | app.js:584-592 | for 0 <= p <= q <= 1 both are defined or neither is, and percentile p <= percentile q |
| Stats.PercentileSplitsRanks | app.js:584-592 | the percentile separates the sorted finite values at its rank: those with rank at most (n-1)p are not above it, those with rank at least (n-1)p are not below it |
| Stats.PercentilePermutation | app.js:584-592 | the percentile depends only on the multiset of inputs, not on their order |
| Stats.FiniteValuesPermutation | app.js:585 | permuting the input permutes the finite values |
| Stats.FiniteValuesCount | app.js:585 | each finite value occurs as often after filtering as it did before |
| Stats.SortedUnique | app.js:585 | two ascending permutations of the same values are equal, so the sort is determined by its input |
| Stats.SortedEnds | app.js:585 | the sorted list starts at the minimum and ends at the maximum of the input |
| Stats.Median | app.js:594-596 | the median is the 0.5 percentile, not-a-number exactly when no finite value exists |
| Stats.MedianSplitsSorted | app.js:594-596 | the sorted finite values in the lower half are at most the median and those in the upper half at least |
| Stats.Mean | app.js:598-602 | the mean of the finite values is not-a-number exactly when there are none |
| Stats.MeanWithinRange | app.js:598-602 | a finite mean lies between the minimum and maximum finite input |
| Stats.SumBounds | app.js:601 | the sum of values within [lo, hi] lies within [n*lo, n*hi] |
| Stats.AverageBetween | app.js:601 | the average of values within [lo, hi] lies within [lo, hi] |
| Stats.MinOf | app.js:585 | the minimum belongs to the list and bounds it from below |
| Stats.MaxOf | app.js:585 | the maximum belongs to the list and bounds it from above |
| Geometry.Index | app.js:715-721 | every named body part has a position below 33 |
| Geometry.Dist2D | app.js:560-564 | the distance is finite exactly when both points are finite |
| Geometry.Midpoint | app.js:556-558 | the midpoint is finite exactly when both points are, and then each coordinate lies between those of the two points |
| Geometry.AngleDeg | app.js:566-582 | the angle is defined exactly when the three points are finite and both rays have non-zero length |
| Geometry.AngleDegDegenerate | app.js:566-582 | when a ray of the angle has zero length the angle is not-a-number |
| Geometry.Mirror | app.js:556-582 | not an operation of the source but the transformation the mirror lemmas apply: the reflection x ↦ 1 − x applied to every landmark |
| Geometry.MirrorMidpoint | app.js:556-558 | mirroring commutes with `midpoint` |
| Geometry.MirrorDist | app.js:560-564 | mirroring keeps distances |
| Geometry.RayAngleMirror | app.js:566-582 | negating both horizontal ray components keeps the angle |
| Geometry.MirrorAngle | app.js:566-582 | mirroring keeps the angle at a joint |
| Pose.Clamp01 | app.js:341-343 | a finite input lands in [0,1] and is unchanged if already inside, and a NaN stays NaN |
| Pose.KeypointScores | app.js:662-664 | one score per keypoint, with a non-finite score read as 0 |
| Pose.NormalizePose | app.js:660-675 | an accepted pose yields exactly one landmark per keypoint, each the normalised keypoint; acceptance reads the pose score of `PoseScore` (app.js:662-664), the estimator's score or else the mean keypoint score |
| Pose.NormalizePoseGate | app.js:660-665 | no pose or no keypoints gives none; otherwise the score is finite and the pose is accepted exactly when the score is >= 0.2 |
| Pose.KeypointScoresDecide | app.js:662-665 | without a pose score, all keypoint scores >= 0.2 accepts the pose and all below 0.2 rejects it |
| Pose.NormalizedCoordinates | app.js:666-673 | a coordinate is finite exactly when the raw one is finite and the extent positive; finite coordinates lie in [0,1]; the score is finite |
| Pose.NormalizeRoundTrip | app.js:666-673 | a pixel coordinate within the image is recovered by multiplying its normalised value by the extent |
| Pose.DirectionSign | app.js:604-611 | the sign is -1, 0 or 1 |
| Pose.DirectionSignCases | app.js:604-611 | 0 exactly when the nose offset from the hip midpoint is not finite or strictly inside the 0.015 band; 1 exactly when it is at least 0.015; -1 exactly when it is at most -0.015 |
| Pose.DirectionSignMirror | app.js:604-611 | mirroring the image flips the sign |
| Pose.EstimateDirectionAuto | app.js:613-624 | the estimate is never 0: a non-zero sign is kept, 0 becomes +1 |
| Pose.ClassifyFootStrike | app.js:650-658 | the class is unknown exactly when the heel or the toe is missing or either height is not finite |
| Pose.FootStrikeCases | app.js:650-658 | unknown exactly when heel or toe is missing or dy is not finite; heel exactly when dy > 0.012; forefoot exactly when dy < -0.012; midfoot otherwise |
| Pose.FootStrikeSwap | app.js:650-658 | swapping heel and toe swaps heel and forefoot strikes and keeps the others |
| Pose.FootStrikeShift | app.js:650-658 | shifting heel and toe vertically by the same amount does not change the class |
| ContactEvents.FindContactPeaks | app.js:626-648 | no finite sample gives no peaks; otherwise each peak is a candidate (index in [1,n-2], finite neighbours and time, at or above the 80th percentile, above its left and not below its right neighbour), indices strictly increase, consecutive peaks are at least minStepSec apart, and each candidate left out lies within minStepSec after the last accepted peak before it |
| ContactEvents.PeakThreshold | app.js:629-630 | the threshold is not-a-number exactly when no height is finite |
| ContactEvents.GreedyPeaks | app.js:631-647 | the scan for a given threshold keeps exactly the candidates that are minStepSec after the previous kept peak, in increasing order |
| ContactEvents.AcceptStep | app.js:641-644 | accepting a candidate far enough from the last peak keeps the scan invariant |
| ContactEvents.RejectStep | app.js:641 | a candidate too close to the last peak is suppressed, and the scan invariant is kept |
| ContactEvents.SkipStep | app.js:636-640 | skipping a non-candidate keeps the scan invariant |
| ContactEvents.ScanDone | app.js:636-647 | at the end of the scan the invariant gives the full contract of the detector |
| ContactEvents.AcceptOrder | app.js:641-644 | appending an index beyond all peaks, at least minStepSec after the last, keeps them increasing and spaced |
| ContactEvents.AcceptSuppressed | app.js:641-644 | candidates suppressed before an accepted peak stay suppressed after it |
| ContactMetrics.RetractionWindow | app.js:762-763 | the look-back window holds at least 2 samples |
| ContactMetrics.ReferenceIndexBounds | app.js:762-764 | the reference index is max(0, i-w) with w >= 2: within [0, i], and 0 exactly when i <= w |
| ContactMetrics.Usable | app.js:724-727 | the usable contacts are exactly the contacts whose frame has landmarks |
| ContactMetrics.MetricAt | app.js:727-785 | the record carries the frame's time and the leg, and its foot strike is known exactly when the heel and toe heights are finite; its other fields are the helpers `LegLength`, `OverstrideRatio`, `TrunkLean` and `RetractSpeed` (app.js:740-773), whose guards and mirror behaviour the lemmas below state |
| ContactMetrics.ComputeContactMetrics | app.js:714-788 | one record per usable contact in contact order, each the metrics of that frame for the given leg, direction and time scale |
| ContactMetrics.RecordsPush | app.js:775-785 | pushing the record of a usable contact keeps the record correspondence |
| ContactMetrics.RecordsKeep | app.js:726 | skipping a contact without landmarks keeps the record correspondence |
| ContactMetrics.UsableIncreasing | app.js:724-727 | increasing contacts give increasing usable contacts |
| ContactMetrics.UsableAll | app.js:724-727 | when every contact frame has landmarks, every contact gives a record |
| ContactMetrics.MetricGuards | app.js:740-773 | the overstride ratio is finite exactly when the leg length is finite and positive and the overstride finite, and then ratio times leg length is the overstride; a zero trunk height gives a not-a-number lean; a finite retraction speed needs landmarks at the reference frame and a positive scaled time step; the record carries the leg and the frame time |
| ContactMetrics.RetractSpeedDefined | app.js:762-773 | with landmarks at the reference frame, finite ankle offsets and a positive scaled time step, the retraction speed is finite |
| ContactMetrics.OverstrideSign | app.js:744 | the overstride is positive exactly when the ankle is ahead of the hip in the running direction |
| ContactMetrics.MirrorFrames | app.js:714-788 | not an operation of the source but the transformation the metric mirror lemmas apply: the reflection x ↦ 1 − x applied to the landmarks of every frame, times and frame rates kept |
| ContactMetrics.AnkleAheadMirror | app.js:744 | mirroring the image and flipping the direction keeps the overstride |
| ContactMetrics.TrunkLeanMirror | app.js:751-754 | mirroring the image and flipping the direction keeps the trunk lean |
| ContactMetrics.LegLengthMirror | app.js:740-748 | mirroring keeps the leg length and the knee angle |
| ContactMetrics.StrikeMirror | app.js:756 | mirroring keeps the foot-strike class |
| ContactMetrics.MetricMirror | app.js:714-788 | mirroring the image and flipping the direction gives the same record |
| ContactMetrics.RetractSpeedMirror | app.js:760-773 | mirroring the image and flipping the direction keeps the retraction speed |
| ContactMetrics.UsableMirror | app.js:724-727 | mirroring does not change which contacts are usable |
| Sampling.NominalDt | app.js:1275 | the nominal spacing is positive and is the inverse of the rate held between 5 and 60 |
| Sampling.StepCount | app.js:1277-1280 | the step count lies between 1 and the sample cap |
| Sampling.StepCountCovers | app.js:1277-1280 | below the cap, the steps cover the duration at the nominal spacing, and one step fewer would not; at a cap above 1, one step fewer than the cap would not cover the duration, so the cap applies only when it is needed |
| Sampling.SampleTime | app.js:1312 | a sample time never passes the end of the video |
| Sampling.SampleTimes | app.js:1281-1312 | sample times lie in [0, duration], are nondecreasing in k, start at 0 and end at the duration |
| Sampling.InferenceSize | app.js:483-500 | a size exists exactly when both edges are non-zero, and each edge is at least 1 |
| Sampling.InferenceSizeSmall | app.js:488-494 | a video whose long edge is within the target keeps its size |
| Sampling.InferenceSizeLarge | app.js:488-494 | a larger video is scaled so its long edge equals the target (384 mobile, 640 desktop) |
| Sampling.InferenceSizeOrientation | app.js:488-494 | scaling keeps landscape landscape |
| Sampling.FrameLandmarks | app.js:1317-1335 | a frame has landmarks exactly when an inference size exists and the estimator's pose is accepted, and then they are the normalised pose |
| Sampling.SampleFrames | app.js:1302-1368 | at most steps+1 frames, frame k sampled at time k, and every recorded step's seek succeeded; it fails exactly when fewer than steps+1 frames are recorded, and then the seek of the next step failed; the detection and vote counters count the recorded frames that are detected and those of sign 1 and -1; the direction is the one locked at the first detection |
| Sampling.FramesAppend | app.js:1348-1352 | appending the next sampled frame extends the per-frame correspondence |
| Sampling.AppendFrame | app.js:1336-1352 | one frame adds to each counter exactly what the loop adds, and the lock changes only on the first detection |
| Sampling.CountersBounded | app.js:1336-1341 | directionLeft + directionRight <= detectedFrames <= frames.length |
| Sampling.LockedAtFirstDetection | app.js:1343-1346 | `LockedDirection`, the direction the loop locks, is the estimate of the first frame with landmarks |
| Sampling.NoDetection | app.js:1302-1346 | without any detection the counters stay 0 and the direction stays +1 |
| Sampling.DetectionCounted | app.js:1336-1337 | a frame with landmarks makes the detection count positive |
| Sampling.LockedDirectionStable | app.js:1343-1346 | once locked, later frames never change the direction |
| Sampling.CountPrefix | app.js:1336-1337 | the detection count never decreases as frames are added |
| Sampling.LockedDirectionSign | app.js:1303-1346 | the locked direction is +1 or -1 |
| Gates.EffectiveFps | app.js:1228-1239 | the frame rate is unknown exactly when the probe failed on a non-mobile device |
| Gates.SlowMoFactor | app.js:1252 | the factor is 1 or 8 |
| Gates.PreSamplingIssue | app.js:1211-1263 | an issue here is one of the four gates before the runner gate; passing them means a known frame rate and a real duration of at least 3 s, where `RealDuration` (app.js:1253) is the duration divided by the slow-motion factor |
| Gates.DetectionIssue | app.js:1373-1404 | an issue here is one of the gates from the runner gate up to, not including, the contacts gate; passing them means at least 8 detections and at least 8 direction votes |
| Gates.ContactIssue | app.js:1421-1430 | no issue exactly when there are at least 4 contacts; otherwise the few-strides issue of the contacts gate with both counts |
| Gates.GateChain | app.js:1211-1430 | a reported issue is a pre-sampling gate exactly when the pre-sampling checks fail |
| Gates.GateChainFirstFailing | app.js:1211-1430 | an issue is reported exactly when some gate fails; the reported gate fails and no earlier gate does |
| Gates.FailsCases | app.js:1211-1430 | a failing gate forces an issue at that gate or an earlier one |
| Gates.IssueValues | app.js:1211-1426 | the resolution, duration and few-strides issues carry the measured values |
| Gates.PassedGates | app.js:1211-1430 | a run past every gate has a supported resolution and frame rate, a real duration of at least 3 s, at least 8 detections making up at least a fifth of the frames, at least 8 votes with at most a quarter in the minority, and at least 4 contacts |
| Gates.FpsBandsDisjoint | app.js:1241-1252 | the normal and slow-motion bands do not overlap |
| Summary.InsertByTime | app.js:1421 | inserting into a time-sorted list keeps it sorted and adds exactly that record |
| Summary.SortByTime | app.js:1421 | the contacts come out sorted by time and are a permutation of the input |
| Summary.Column | app.js:1432-1435 | the column has one entry per record, taken from that record |
| Summary.Count | app.js:1438-1440 | an occurrence count is at most the length |
| Summary.CountHeelKnown | app.js:1438-1440 | heel strikes plus unknown strikes are at most the total |
| Summary.CountZero | app.js:1438-1440 | the count is 0 exactly when the class is absent, and full exactly when every entry is that class |
| Summary.CountMultiset | app.js:1438-1440 | the count is the multiplicity of the class |
| Summary.HeelStrikeRate | app.js:1437-1442 | the rate is not-a-number exactly when every strike is unknown |
| Summary.HeelStrikeRateUndefined | app.js:1437-1442 | the heel-strike rate is not-a-number exactly when every strike is unknown |
| Summary.HeelStrikeRateBounds | app.js:1437-1442 | a defined rate lies in [0,1]; it is 0 exactly without a heel strike and 1 exactly when every classified strike is a heel strike |
| Summary.HeelStrikeRatePermutation | app.js:1437-1442 | the rate does not depend on the order of the strikes |
| Summary.InsertColumn | app.js:1421-1435 | inserting a record adds its value to every column |
| Summary.SortColumn | app.js:1421-1435 | sorting permutes every column |
| Summary.MedianPermutation | app.js:594-596 | the median does not depend on the order of its inputs |
| Summary.SummaryFields | app.js:1468-1475 | the count is the number of records; each median is not-a-number exactly when its column has no finite value; the heel-strike rate is not-a-number exactly when every strike is unknown |
| Summary.Summarize | app.js:1465-1475 | the count is the number of contacts, and the heel-strike rate is not-a-number exactly when every contact's strike is unknown |
| Summary.SummaryOrderFree | app.js:1421-1475 | summarising the sorted records gives the same summary as the unsorted ones |
| Summary.MajorityDirection | app.js:1406-1408 | with votes, +1 exactly when right votes >= left votes and -1 otherwise; with none, the locked direction stays |
| Interpret.SeverityMonotone | app.js:677-707 | a larger overstride ratio or knee angle is never less severe, and a larger retraction speed never more severe |
| Interpret.TrunkLeanBands | app.js:692-699 | good exactly in [0, 12] degrees, bad below -2, warn in [-2, 0) or above 12 |
| Interpret.FlagsShape | app.js:790-853 | one "no contacts" warning when there are no contacts, otherwise exactly 5 flags in a fixed order, none "na", with each "bad" or "good" exactly at its threshold; a "bad" flag needs contacts |
| Interpret.FlagsUnknown | app.js:800-850 | each flag reports its "unknown" text exactly when its summary value is not finite |
| Interpret.InterpretOverstride | app.js:677-683 | "na" exactly for a non-finite ratio; for a finite one, "bad" exactly from 0.20 and "good" exactly below 0.06 |
| Interpret.InterpretKnee | app.js:685-690 | "na" exactly for a non-finite angle; for a finite one, "bad" exactly from 170 degrees and "good" exactly below 160 |
| Interpret.InterpretTrunkLean | app.js:692-699 | "na" exactly for a non-finite lean; for a finite one, "bad" exactly below -2 degrees and "good" exactly in [0, 12] |
| Interpret.InterpretRetraction | app.js:701-707 | "na" exactly for a non-finite speed; for a finite one, "bad" exactly below -0.02 and "good" exactly from 0.02 |
| Interpret.BuildFlags | app.js:790-853 | one flag without contacts and five with them, none of them "na"; the five are `OverstrideFlag`, `KneeFlag`, `TrunkFlag`, `HeelFlag` and `RetractionFlag` (app.js:800-850), whose thresholds `FlagsShape` states |
| Text.ReplaceAll | app.js:1030-1034 | every character of the result comes from the replacement text or is a character of the input other than the replaced one |
| Text.ReplaceAllConcat | app.js:1030-1034 | replacing distributes over concatenation |
| Text.ReplaceAllAbsent | app.js:1030-1034 | replacing an absent character changes nothing |
| Text.EscapeHtmlConcat | app.js:1028-1035 | escaping distributes over concatenation |
| Text.EscapeHtml | app.js:1028-1035 | the escaped text holds no `<`, `>`, `"` or `'` |
| Text.EscapeChar | app.js:1028-1035 | an escaped character holds no markup character; `&` becomes `&amp;` and a character outside the five is kept |
| Text.EscapeHtmlChar | app.js:1028-1035 | the five chained replacements escape a single character as the per-character table does |
| Text.EscapeHtmlPerChar | app.js:1028-1035 | the chained replacements equal escaping character by character |
| Text.EscapeHtmlPlain | app.js:1028-1035 | text without `&`, `<`, `>`, `"` or `'` is left unchanged |
| Text.EscapeEachSafe | app.js:1028-1035 | character-by-character escaping leaves no markup character |
| Text.UnescapeStep | app.js:1028-1035 | decoding an escaped character gives back that character |
| Text.EscapeHtmlRoundTrip | app.js:1028-1035 | decoding the five entities inverts `escapeHtml` |
| Text.EscapeEachRoundTrip | app.js:1028-1035 | decoding inverts character-by-character escaping |
| Text.WordRun | app.js:90 | the run is the longest prefix of word characters (`\w`) |
| Text.PlaceholderKey | app.js:90 | a key found at the start is non-empty and the text starts with `{key}` |
| Text.InterpolatePlaceholder | app.js:89-91 | a `{key}` placeholder becomes the variable's value when the key is known and stays as written otherwise, and the rest is substituted |
| Text.WordRunOf | app.js:90 | a run of word characters followed by a non-word character is exactly that run |
| Text.InterpolateNoVars | app.js:89-91 | with no variables the text is unchanged |
| Text.InterpolatePlain | app.js:89-91 | text without `{` is unchanged |
| Text.Interpolate | app.js:89-91 | every character of the result that the template lacks comes from the value of a variable |
| ContactPass.HeightSeries | app.js:1411-1412 | one heel height per frame, NaN where the frame has no landmarks |
| ContactPass.TimeSeries | app.js:1413 | one time per frame |
| ContactPass.LegContacts | app.js:1415-1420 | one leg's peaks satisfy the detector's contract on that heel's heights, and its records correspond to the usable peaks, using the slow-motion factor as time scale |
| ContactPass.BothLegsMeasured | app.js:1406-1420 | the direction and both legs' peaks and records, with record counts equal to the measured contact counts, make up a measured contact pass |
| ContactPass.BothLegs | app.js:1406-1420 | the contact pass sets the measured contact counts to the number of records of each leg and nothing else, and gives each leg's peaks and records as the detector and metrics specify, facing the given direction |
| Analysis.Assemble | app.js:1419-1475 | the result keeps both legs' peaks and records and the direction; all contacts are sorted by time and a permutation of left and right; the summary is that of all contacts; and the contact count is the number of all contacts |
| Analysis.Analyze | app.js:1191-1476 | no file gives the choose-video alert and no duration the not-loaded alert; a seek failure happens only past the resolution gate, and when the rewind succeeded it is the first sample seek that failed, after the pre-sampling gates and the model load passed; every other outcome except a resolution stop needs the rewind to succeed, and a run that gets past sampling had every sample seek succeed; a stop reports exactly the gate chain's issue; a model failure happens only after the pre-sampling gates pass; a run that reaches sampling samples the frames and counts as specified; a few-strides stop reports the two legs' record counts, which add up to fewer than 4, and those records are the measured contact pass; a finished analysis passed every gate, has the slow-motion factor, minimum step and real duration of the run, faces the majority direction, and holds the measured contact pass and a summary of all contacts |
| Analysis.SampleStage | app.js:1273-1368 | the measurements carry the video values and the loop's counters; the frames are those sampled; a failure is the first failing seek, and without one every step's seek succeeded |
| Analysis.SampleAndGate | app.js:1273-1476 | a failed sample seek aborts the run at the first failing step; otherwise, after sampling, a stop is a detection or contact gate reported as the chain's issue; a few-strides stop reports the measured record counts; otherwise the analysis is complete |
| Analysis.GateStage | app.js:1370-1476 | the gates after sampling keep the video values and counters; a stop is the chain's issue at the runner gate or later; a few-strides stop reports the measured record counts; otherwise the analysis is complete and faces the majority of the votes |
| Analysis.DetectionStopped | app.js:1373-1404 | a detection issue after passing the pre-sampling gates is the chain's issue, at the runner gate or later |
| Analysis.GatesPassed | app.js:1211-1430 | past all three stages the chain reports nothing, the frame rate is known, the real duration is at least 3 s and there are at least 4 contacts |
| Analysis.ContactStage | app.js:1406-1476 | the contact pass keeps the earlier measurements and records the two legs' record counts; a stop is the few-strides issue of the chain, carrying those counts, which add up to fewer than 4; otherwise the analysis is complete |

## Left out

- Rendering and DOM updates are left out: `renderResults`, `renderIssue`, `drawOverlay`, `drawConnectors`, `drawLandmarks`, `setStatus`, `setProgress`, `log`, `alert` and `applyTranslations`. They are UI side effects. An issue is reported as a value.
- `estimateVideoFps` (app.js:1037-1157) is left out. It depends on wall-clock timers and playback callbacks. Its result is the input `probedFps`.
- The event plumbing of `seekTo` (app.js:1171-1189), `yieldToUI` and `sleep` is left out. The loop is sequential; whether a seek resolves or rejects is the input `rewindOk` or `seekOk`.
- The error message of a failed seek and the alert that shows it are left out: the outcome `SeekFailed` stands for both.
- `loadModel`, the backend selection, `resetPoseDetector` and `installFetchProgress` are left out. They are foreign libraries and the network. Whether the model is ready is the input `modelReady`.
- The pose estimator is an arbitrary function from sample index to an optional 33-keypoint pose. Other keypoint counts are not modelled. In the source, keypoints past the 33rd are never read. With 32 keypoints the right toe is missing, so `classifyFootStrike` gives "unknown" for the right foot (app.js:652). With fewer than 25 the hips are missing, and `midpoint` throws when `directionSign` calls it (app.js:557, app.js:606).
- IEEE arithmetic is not modelled: rounding, overflow, infinities and NaN propagation inside arithmetic. Numbers are reals, and `Num.NaN` marks the values `Number.isFinite` rejects.
- `Math.hypot`, `Math.acos` and `Math.atan` are uninterpreted. So the range [0, 180] of `angleDeg` is not proved, only its zero-length guard.
- `midpoint`'s `z` coordinate is not modelled, because nothing in the pipeline reads it.
- `t()` translation, `getArray` and `getValueByPath` (app.js:85-87) are left out. They are dynamic property lookups on JSON dictionaries. Flags and issues carry their translation key instead of translated text.
- `Text.Interpolate`: variables are a `map<string, string>`. `String()` conversion and inherited object properties are not modelled.
- `Text.EscapeHtml`: the `String(s)` conversion of non-string inputs is not modelled.
- `formatNum` and `buildAdvice` are display formatting and are left out.
- Language, model-type persistence and `downloadJson` are left out. They are `localStorage`, URL and file I/O.
- Progress reporting and logging inside the sampling loop are left out. They change no analysed value.
- Most of `analysis.meta` (app.js:1445-1462) is left out as its own record. Its run values are all in the model: `slowMoFactor`, `minStepSec` and `realDurationSec` are fields of `Analysis.Result`, and `direction` is `Result.legs.direction`. `durationSec` and `inputFpsEstimate` are the measurements' `duration` and `fps`, and `sampleFps` is the constant `DEFAULT_SAMPLE_FPS`. The creation time, the model name and runtime, the notes and `directionMode` are left out: they are clock, library and translation data, and the constant "auto".
- `Summary.SortByTime`: it proves sorted and a permutation. It does not state that equal times keep the left-before-right order of the stable JavaScript sort.
- `DIRECTION_MODE` is the constant "auto". So `directionFromUI` is modelled as `estimateDirectionAuto`, and its "left" and "right" branches are unreachable.
