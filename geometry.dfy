/** Landmarks, the fixed 33-point body topology, and the vector helpers
    `midpoint`, `dist2D` and `angleDeg` (app.js). */
module Geometry {
  import opened Numbers

  /** One body landmark in normalised image coordinates: `x` grows to the right,
      `y` grows downwards, so a larger `y` is closer to the ground. */
  datatype Landmark = Landmark(x: Num, y: Num, score: Num)

  /** A plain position. The source's `midpoint` also averages a `z` that no part
      of the pipeline reads; it is not modelled. */
  datatype Point = Point(x: Num, y: Num)

  /** Number of landmarks in one detected pose (the BlazePose topology). */
  const LANDMARK_COUNT: nat := 33

  /** One detected pose: landmark `k` is always body part `k`. */
  type Landmarks = s: seq<Landmark> | |s| == LANDMARK_COUNT
    witness seq(33, _ => Landmark(NaN, NaN, NaN))

  /** The body parts the pipeline reads, by name rather than by position. */
  datatype Joint =
    | Nose
    | LeftShoulder | RightShoulder
    | LeftHip | RightHip
    | LeftKnee | RightKnee
    | LeftAnkle | RightAnkle
    | LeftHeel | RightHeel
    | LeftToe | RightToe

  /** Position of a body part in a landmark set. */
  function Index(j: Joint): (i: nat)
    ensures i < LANDMARK_COUNT
  {
    match j
    case Nose => 0
    case LeftShoulder => 11
    case RightShoulder => 12
    case LeftHip => 23
    case RightHip => 24
    case LeftKnee => 25
    case RightKnee => 26
    case LeftAnkle => 27
    case RightAnkle => 28
    case LeftHeel => 29
    case RightHeel => 30
    case LeftToe => 31
    case RightToe => 32
  }

  function At(lms: Landmarks, j: Joint): Landmark {
    lms[Index(j)]
  }

  function Pos(l: Landmark): Point {
    Point(l.x, l.y)
  }

  predicate FinitePoint(p: Point) {
    p.x.Finite? && p.y.Finite?
  }

  /** `midpoint(a, b)`. */
  function Midpoint(a: Point, b: Point): (r: Point)
    ensures FinitePoint(r) <==> FinitePoint(a) && FinitePoint(b)
    ensures FinitePoint(r) ==>
      MinReal(a.x.v, b.x.v) <= r.x.v <= MaxReal(a.x.v, b.x.v) &&
      MinReal(a.y.v, b.y.v) <= r.y.v <= MaxReal(a.y.v, b.y.v)
  {
    Point(Half(a.x, b.x), Half(a.y, b.y))
  }

  /** The transcendental functions the source takes from `Math`; the model does
      not interpret them. */
  datatype MathLib = MathLib(hypot: (real, real) -> real, acos: real -> real, atan: real -> real)

  /** `Math.hypot(dx, dy)`. Its value depends only on the magnitudes of its
      arguments, which the model builds in by passing those. */
  function Hypot(m: MathLib, dx: real, dy: real): real {
    m.hypot(AbsReal(dx), AbsReal(dy))
  }

  /** `Math.PI` as a double. */
  const PI: real := 3.141592653589793

  /** `dist2D(a, b)`: `Math.hypot` of the coordinate differences. */
  function Dist2D(m: MathLib, a: Point, b: Point): (r: Num)
    ensures r.Finite? <==> FinitePoint(a) && FinitePoint(b)
  {
    if FinitePoint(a) && FinitePoint(b) then Finite(Hypot(m, a.x.v - b.x.v, a.y.v - b.y.v))
    else NaN
  }

  function Clamp(x: real, lo: real, hi: real): real {
    MaxReal(lo, MinReal(hi, x))
  }

  /** `angleDeg(a, b, c)`: the angle at `b` between the rays to `a` and to `c`,
      from the clamped cosine; not-a-number when a ray has length zero. */
  function AngleDeg(m: MathLib, a: Point, b: Point, c: Point): (r: Num)
    ensures r.Finite? <==>
      FinitePoint(a) && FinitePoint(b) && FinitePoint(c) &&
      Hypot(m, a.x.v - b.x.v, a.y.v - b.y.v) != 0.0 && Hypot(m, c.x.v - b.x.v, c.y.v - b.y.v) != 0.0
  {
    if !(FinitePoint(a) && FinitePoint(b) && FinitePoint(c)) then NaN
    else RayAngle(m, a.x.v - b.x.v, a.y.v - b.y.v, c.x.v - b.x.v, c.y.v - b.y.v)
  }

  /** The angle between the rays `(abx, aby)` and `(cbx, cby)`, in degrees. */
  function RayAngle(m: MathLib, abx: real, aby: real, cbx: real, cby: real): Num {
    var dot := abx * cbx + aby * cby;
    var ab, cb := Hypot(m, abx, aby), Hypot(m, cbx, cby);
    if ab == 0.0 || cb == 0.0 then NaN
    else Finite(Degrees(m.acos(Clamp(Cosine(dot, ab, cb), -1.0, 1.0))))
  }

  /** `dot / (ab * cb)`. */
  function Cosine(dot: real, ab: real, cb: real): real
    requires ab != 0.0 && cb != 0.0
  {
    dot / (ab * cb)
  }

  /** Radians to degrees, `rad * 180 / Math.PI`. */
  function Degrees(rad: real): real {
    rad * 180.0 / PI
  }

  /** A `hypot` that, like `Math.hypot`, gives 0 for a zero vector. */
  predicate ZeroAtOrigin(m: MathLib) {
    m.hypot(0.0, 0.0) == 0.0
  }

  /** `angleDeg` is not-a-number when either ray has zero length. */
  lemma AngleDegDegenerate(m: MathLib, a: Point, b: Point, c: Point)
    requires ZeroAtOrigin(m)
    requires a == b || c == b
    ensures AngleDeg(m, a, b, c).NaN?
  {
    if FinitePoint(a) && FinitePoint(b) && FinitePoint(c) {
      if a == b {
        assert a.x.v - b.x.v == 0.0 && a.y.v - b.y.v == 0.0;
      } else {
        assert c.x.v - b.x.v == 0.0 && c.y.v - b.y.v == 0.0;
      }
    }
  }

  // ---------------------------------------------------------------------------
  // Horizontal mirroring of the image (x becomes 1 - x). The source has no such
  // operation: it is the transformation the mirror lemmas apply to the input.

  function MirrorX(x: Num): Num {
    Sub(Finite(1.0), x)
  }

  function MirrorPoint(p: Point): Point {
    Point(MirrorX(p.x), p.y)
  }

  function MirrorLandmark(l: Landmark): Landmark {
    Landmark(MirrorX(l.x), l.y, l.score)
  }

  function Mirror(lms: Landmarks): (r: Landmarks)
    ensures forall k :: 0 <= k < LANDMARK_COUNT ==> r[k] == MirrorLandmark(lms[k])
  {
    seq(LANDMARK_COUNT, k requires 0 <= k < LANDMARK_COUNT => MirrorLandmark(lms[k]))
  }

  /** Mirroring commutes with `midpoint`. */
  lemma MirrorMidpoint(a: Point, b: Point)
    ensures Midpoint(MirrorPoint(a), MirrorPoint(b)) == MirrorPoint(Midpoint(a, b))
  {
  }

  /** Distances do not change under mirroring. */
  lemma MirrorDist(m: MathLib, a: Point, b: Point)
    ensures Dist2D(m, MirrorPoint(a), MirrorPoint(b)) == Dist2D(m, a, b)
  {
    if FinitePoint(a) && FinitePoint(b) {
      var dx := a.x.v - b.x.v;
      assert (1.0 - a.x.v) - (1.0 - b.x.v) == -dx;
      assert AbsReal(-dx) == AbsReal(dx);
    }
  }

  lemma RayAngleMirror(m: MathLib, abx: real, aby: real, cbx: real, cby: real)
    ensures RayAngle(m, -abx, aby, -cbx, cby) == RayAngle(m, abx, aby, cbx, cby)
  {
    var nx, ny := -abx, -cbx;
    assert Hypot(m, nx, aby) == Hypot(m, abx, aby);
    assert Hypot(m, ny, cby) == Hypot(m, cbx, cby);
    assert nx * ny + aby * cby == abx * cbx + aby * cby;
  }

  /** Angles do not change under mirroring. */
  lemma MirrorAngle(m: MathLib, a: Point, b: Point, c: Point)
    ensures AngleDeg(m, MirrorPoint(a), MirrorPoint(b), MirrorPoint(c)) == AngleDeg(m, a, b, c)
  {
    if FinitePoint(a) && FinitePoint(b) && FinitePoint(c) {
      var abx, aby := a.x.v - b.x.v, a.y.v - b.y.v;
      var cbx, cby := c.x.v - b.x.v, c.y.v - b.y.v;
      var ma, mb, mc := MirrorPoint(a), MirrorPoint(b), MirrorPoint(c);
      assert ma.x.v - mb.x.v == -abx && ma.y.v - mb.y.v == aby;
      assert mc.x.v - mb.x.v == -cbx && mc.y.v - mb.y.v == cby;
      assert AngleDeg(m, ma, mb, mc) == RayAngle(m, -abx, aby, -cbx, cby);
      RayAngleMirror(m, abx, aby, cbx, cby);
    }
  }
}
