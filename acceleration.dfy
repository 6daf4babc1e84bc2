/** The values that flow from the sensor hook to the exercise hook and the chart. */
module Acceleration {

  /** One entry of the rolling history: seconds since the session start and
      the three axes in m/s². Numbers are JavaScript doubles, modelled as reals. */
  datatype Sample = Sample(timestamp: real, x: real, y: real, z: real)

  /** The `accelerationData` the exercise hook receives, with its Euclidean
      norm `Math.sqrt(x*x + y*y + z*z)` carried alongside (Dafny has no square
      root; `IsReading` pins it down). */
  datatype Reading = Reading(x: real, y: real, z: real, magnitude: real)

  predicate IsReading(r: Reading)
  {
    r.magnitude >= 0.0 && r.magnitude * r.magnitude == r.x * r.x + r.y * r.y + r.z * r.z
  }

  const Zero: Reading := Reading(0.0, 0.0, 0.0, 0.0)

  /** Sign-of-product helper for SquaresOrdered. */
  lemma ProductPositive(a: real, b: real)
    requires a > 0.0 && b > 0.0
    ensures a * b > 0.0
  {
  }

  /** Sign-of-product helper for SquaresOrdered. */
  lemma ProductNonNegative(a: real, b: real)
    requires a >= 0.0 && b >= 0.0
    ensures a * b >= 0.0
  {
  }

  lemma SquaresOrdered(m: real, bound: real)
    requires m >= 0.0 && bound >= 0.0
    ensures m > bound <==> m * m > bound * bound
  {
    assert m * m - bound * bound == (m - bound) * (m + bound);
    if m > bound {
      ProductPositive(m - bound, m + bound);
    } else {
      ProductNonNegative(bound - m, m + bound);
    }
  }

  /** A magnitude above a non-negative bound is the same as a squared norm
      above the bound's square, so the threshold test needs no square root. */
  lemma AboveWithoutRoot(r: Reading, bound: real)
    requires IsReading(r) && bound >= 0.0
    ensures r.magnitude > bound <==> r.x * r.x + r.y * r.y + r.z * r.z > bound * bound
  {
    SquaresOrdered(r.magnitude, bound);
  }
}
