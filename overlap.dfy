/**
 * `calcOverlap` (the same in src/index.js and src/utils.js): the area shared
 * by two axis-aligned square windows, given by centre and side, divided by
 * the area of the smaller window.
 */
module Overlap {
  import opened Detections

  function MinR(x: real, y: real): real {
    if x <= y then x else y
  }

  function MaxR(x: real, y: real): real {
    if x >= y then x else y
  }

  /** Length of the intersection of the spans [m1 - s1/2, m1 + s1/2] and [m2 - s2/2, m2 + s2/2]. */
  function SpanOverlap(m1: real, s1: real, m2: real, s2: real): (o: real)
    ensures 0.0 <= o
    ensures s1 >= 0.0 && s2 >= 0.0 ==> o <= MinR(s1, s2)
    ensures s1 < 0.0 || s2 < 0.0 ==> o == 0.0
  {
    MaxR(0.0, MinR(m1 + s1 / 2.0, m2 + s2 / 2.0) - MaxR(m1 - s1 / 2.0, m2 - s2 / 2.0))
  }

  /** The overlap of two windows; it lies in [0, 1]. */
  function CalcOverlap(d1: Detection, d2: Detection): (v: real)
    requires d1.s > 0.0 && d2.s > 0.0
    ensures 0.0 <= v <= 1.0
  {
    ProductBound(SpanOverlap(d1.r, d1.s, d2.r, d2.s), SpanOverlap(d1.c, d1.s, d2.c, d2.s), MinR(d1.s, d2.s));
    Prod(SpanOverlap(d1.r, d1.s, d2.r, d2.s), SpanOverlap(d1.c, d1.s, d2.c, d2.s))
      / Prod(MinR(d1.s, d2.s), MinR(d1.s, d2.s))
  }

  /** A product of two non-negative lengths (an area). */
  function Prod(a: real, b: real): (r: real)
    requires a >= 0.0 && b >= 0.0
    ensures r >= 0.0
    ensures a > 0.0 && b > 0.0 ==> r > 0.0
  {
    a * b
  }

  /** A rectangle whose sides are at most m has an area of at most m * m. */
  lemma ProductBound(a: real, b: real, m: real)
    requires 0.0 <= a <= m && 0.0 <= b <= m && m > 0.0
    ensures 0.0 <= Prod(a, b) / Prod(m, m) <= 1.0
  {
    var area, square := Prod(a, b), Prod(m, m);
    MulLe(a, m, b);
    MulLe(b, m, m);
    assert area == a * b;
    assert square == m * m;
    assert a * b <= m * b;
    assert b * m <= m * m;
    assert m * b == b * m;
    assert a * b <= m * m;
    assert area <= square;
    RatioAtMostOne(area, square);
  }

  lemma MulLe(a: real, m: real, b: real)
    requires a <= m && b >= 0.0
    ensures a * b <= m * b
  {
  }

  lemma RatioAtMostOne(x: real, y: real)
    requires 0.0 <= x <= y && y > 0.0
    ensures 0.0 <= x / y <= 1.0
  {
  }

  /** The overlap does not depend on the order of the two windows. */
  lemma OverlapSymmetric(d1: Detection, d2: Detection)
    requires d1.s > 0.0 && d2.s > 0.0
    ensures CalcOverlap(d1, d2) == CalcOverlap(d2, d1)
  {
    assert SpanOverlap(d2.r, d2.s, d1.r, d1.s) == SpanOverlap(d1.r, d1.s, d2.r, d2.s);
    assert SpanOverlap(d2.c, d2.s, d1.c, d1.s) == SpanOverlap(d1.c, d1.s, d2.c, d2.s);
    assert MinR(d2.s, d1.s) == MinR(d1.s, d2.s);
  }

  /** A window overlaps a window with the same centre and size completely. */
  lemma OverlapIdentical(d1: Detection, d2: Detection)
    requires d1.s > 0.0 && d1.r == d2.r && d1.c == d2.c && d1.s == d2.s
    ensures CalcOverlap(d1, d2) == 1.0
  {
    var s := d1.s;
    assert SpanOverlap(d1.r, s, d2.r, s) == s;
    assert SpanOverlap(d1.c, s, d2.c, s) == s;
    assert MinR(d1.s, d2.s) == s;
    assert Prod(s, s) > 0.0;
  }

  /** Windows whose row spans or whose column spans do not intersect have overlap 0. */
  lemma OverlapDisjoint(d1: Detection, d2: Detection)
    requires d1.s > 0.0 && d2.s > 0.0
    requires d1.r + d1.s / 2.0 <= d2.r - d2.s / 2.0 || d2.r + d2.s / 2.0 <= d1.r - d1.s / 2.0
          || d1.c + d1.s / 2.0 <= d2.c - d2.s / 2.0 || d2.c + d2.s / 2.0 <= d1.c - d1.s / 2.0
    ensures CalcOverlap(d1, d2) == 0.0
  {
    var or := SpanOverlap(d1.r, d1.s, d2.r, d2.s);
    var oc := SpanOverlap(d1.c, d1.s, d2.c, d2.s);
    assert or == 0.0 || oc == 0.0;
    assert Prod(or, oc) == 0.0;
  }

  /**
   * The clustering test `calcOverlap(d1, d2) > threshold`. A negative side
   * makes both overlap lengths 0 and the smaller side negative, so the ratio
   * is 0 / (ms * ms) = 0. Otherwise, when a side is 0, both overlap lengths
   * and the smaller side are 0 (see `DegenerateOverlap`), so JavaScript
   * computes 0 / 0 = NaN, which is not greater than anything.
   */
  predicate Overlaps(d1: Detection, d2: Detection, threshold: real) {
    if d1.s > 0.0 && d2.s > 0.0 then CalcOverlap(d1, d2) > threshold
    else if d1.s < 0.0 || d2.s < 0.0 then 0.0 > threshold
    else false
  }

  /**
   * The outcome of the clustering test for every pair of sizes: the ratio
   * against the threshold for positive sizes, a ratio of 0 when a size is
   * negative, and never when a size is 0 and none is negative. With a
   * threshold of at least 0 only windows of positive size can overlap.
   */
  lemma OverlapsCases(d1: Detection, d2: Detection, threshold: real)
    ensures d1.s > 0.0 && d2.s > 0.0 ==> (Overlaps(d1, d2, threshold) <==> CalcOverlap(d1, d2) > threshold)
    ensures d1.s < 0.0 || d2.s < 0.0 ==> (Overlaps(d1, d2, threshold) <==> threshold < 0.0)
    ensures d1.s >= 0.0 && d2.s >= 0.0 && (d1.s == 0.0 || d2.s == 0.0) ==> !Overlaps(d1, d2, threshold)
    ensures threshold >= 0.0 && Overlaps(d1, d2, threshold) ==> d1.s > 0.0 && d2.s > 0.0 && CalcOverlap(d1, d2) > 0.0
  {
  }

  /** A window of negative side shares no length with any other window, and the smaller side is negative. */
  lemma NegativeOverlap(d1: Detection, d2: Detection)
    requires d1.s < 0.0 || d2.s < 0.0
    ensures SpanOverlap(d1.r, d1.s, d2.r, d2.s) == 0.0
    ensures SpanOverlap(d1.c, d1.s, d2.c, d2.s) == 0.0
    ensures MinR(d1.s, d2.s) < 0.0 && MinR(d1.s, d2.s) * MinR(d1.s, d2.s) > 0.0
  {
  }

  /** A window of side 0 shares no length with any other window, and the smaller side is 0. */
  lemma DegenerateOverlap(d1: Detection, d2: Detection)
    requires d1.s >= 0.0 && d2.s >= 0.0 && (d1.s == 0.0 || d2.s == 0.0)
    ensures SpanOverlap(d1.r, d1.s, d2.r, d2.s) == 0.0
    ensures SpanOverlap(d1.c, d1.s, d2.c, d2.s) == 0.0
    ensures MinR(d1.s, d2.s) == 0.0
  {
  }
}
