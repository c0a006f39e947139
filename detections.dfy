/**
 * The values that flow between the stages of the detector. Every JavaScript
 * number that is not forced to an integer is a `real`; leaf predictions and
 * thresholds (float32 in the cascade file) are exact reals here.
 */
module Detections {

  /**
   * A raw detection `[r, c, s, q, a]` or a cluster `{r, c, s, q, a}`: window
   * centre row and column, side length, quality and the angle in degrees as
   * given in `rotation` (any number; only its integral part selects the
   * cosine and sine).
   */
  datatype Detection = Detection(r: real, c: real, s: real, q: real, a: real)

  /** The number a classifier returns: a finite value, or NaN (which no comparison accepts). */
  datatype Score = Num(v: real) | NaN

  /** The search's test `q > 0`, false for NaN. */
  predicate Accepted(q: Score) {
    q.Num? && q.v > 0.0
  }

  /** Every window has a positive side length (the overlap measure divides by it). */
  predicate PositiveSizes(ds: seq<Detection>) {
    forall k :: 0 <= k < |ds| ==> ds[k].s > 0.0
  }

  /**
   * Both searches move a window centre from g0 by a step of at least 1: a
   * grid point j steps on is not before g0, and is j - 1 steps on from the
   * next point.
   */
  lemma GridPoint(g0: int, g: int, j: nat, step: int)
    requires step >= 1 && g == g0 + j * step
    ensures g0 <= g && (j > 0 ==> g == (g0 + step) + (j - 1) * step)
  {
  }
}
