/** Normalised coordinates as exact reals: the helpers' `Math.min`/`Math.max` and boxes. */
module Geometry {

  /** `Math.min` on floats (no NaN in the model). */
  function Min(a: real, b: real): (m: real)
    ensures m <= a && m <= b && (m == a || m == b)
  {
    if a <= b then a else b
  }

  /** `Math.max` on floats (no NaN in the model). */
  function Max(a: real, b: real): (m: real)
    ensures m >= a && m >= b && (m == a || m == b)
  {
    if a >= b then a else b
  }

  /** `Math.max(0, Math.min(1, v))`: the clip to the unit interval. */
  function Clamp01(v: real): (c: real)
    ensures 0.0 <= c <= 1.0
    ensures 0.0 <= v <= 1.0 ==> c == v
    ensures v < 0.0 ==> c == 0.0
    ensures v > 1.0 ==> c == 1.0
  {
    Max(0.0, Min(1.0, v))
  }

  /** Clipping preserves order. */
  lemma Clamp01Monotone(a: real, b: real)
    requires a <= b
    ensures Clamp01(a) <= Clamp01(b)
  {
  }

  /** A box `[x1, y1, x2, y2]` in normalised image coordinates. */
  datatype Box = Box(x1: real, y1: real, x2: real, y2: real)

  predicate InUnitSquare(b: Box) {
    0.0 <= b.x1 <= 1.0 && 0.0 <= b.y1 <= 1.0 && 0.0 <= b.x2 <= 1.0 && 0.0 <= b.y2 <= 1.0
  }

  /** The corners are in order (`x1 <= x2`, `y1 <= y2`). */
  predicate Ordered(b: Box) {
    b.x1 <= b.x2 && b.y1 <= b.y2
  }
}
