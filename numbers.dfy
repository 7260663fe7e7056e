/** JavaScript numbers as the gait pipeline uses them.

    The pipeline only ever asks `Number.isFinite` of a value, so one constructor,
    `NaN`, stands for every non-finite value (NaN, +Infinity, -Infinity).  Finite
    values are exact reals: IEEE rounding and overflow are not modelled. */
module Numbers {

  datatype Option<+T> = None | Some(value: T)

  datatype Num = Finite(v: real) | NaN

  /** `a + b`: non-finite as soon as one operand is. */
  function Add(a: Num, b: Num): Num {
    if a.Finite? && b.Finite? then Finite(a.v + b.v) else NaN
  }

  /** `a - b`. */
  function Sub(a: Num, b: Num): Num {
    if a.Finite? && b.Finite? then Finite(a.v - b.v) else NaN
  }

  /** `a * k` for a finite factor `k`. */
  function Scale(a: Num, k: real): Num {
    if a.Finite? then Finite(a.v * k) else NaN
  }

  /** `a / k`: division by zero gives a non-finite result. */
  function DivBy(a: Num, k: real): Num {
    if a.Finite? && k != 0.0 then Finite(a.v / k) else NaN
  }

  /** `(a + b) / 2`, the coordinate rule of the source's `midpoint`. */
  function Half(a: Num, b: Num): Num {
    if a.Finite? && b.Finite? then Finite((a.v + b.v) / 2.0) else NaN
  }

  function MinReal(a: real, b: real): real { if a <= b then a else b }
  function MaxReal(a: real, b: real): real { if a >= b then a else b }
  function MinInt(a: int, b: int): int { if a <= b then a else b }
  function MaxInt(a: int, b: int): int { if a >= b then a else b }
  function AbsReal(a: real): real { if a < 0.0 then -a else a }

  /** `Math.ceil` on a finite value. */
  function Ceil(x: real): (r: int)
    ensures x <= r as real < x + 1.0
  {
    if x.Floor as real == x then x.Floor else x.Floor + 1
  }

  /** Real multiplication by a non-negative factor keeps order. */
  lemma MulMonotone(a: real, b: real, c: real)
    requires a <= b && c >= 0.0
    ensures a * c <= b * c
  {
    assert b * c - a * c == (b - a) * c;
  }

  /** Real multiplication by a positive factor keeps strict order. */
  lemma MulStrict(a: real, b: real, c: real)
    requires a < b && c > 0.0
    ensures a * c < b * c
  {
    assert b * c - a * c == (b - a) * c;
  }

  /** Dividing by a non-zero value and multiplying back is the identity. */
  lemma DivMul(a: real, b: real)
    requires b != 0.0
    ensures (a / b) * b == a
  {
  }

  /** `Math.round` on a finite value: halves round upwards. */
  function Round(x: real): (r: int)
    ensures x - 0.5 < r as real <= x + 0.5
  {
    (x + 0.5).Floor
  }

  /** Strictly increasing indices. */
  predicate Increasing(s: seq<nat>) {
    forall k, l :: 0 <= k < l < |s| ==> s[k] < s[l]
  }
}
