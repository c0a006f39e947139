/**
 * `runCascade` of src/index.js: the multiscale sliding-window search. The
 * window side s starts at min(width, height) and shrinks by the scale
 * factor (truncated) while it is at least `minsize`; at each size the window
 * centre moves over a grid of rows and columns with step
 * `(shiftfactor * s + 1) | 0`, keeping `(s / 2 + 1) | 0` away from the borders,
 * and every angle of `rotation` is tried. Windows with q > 0 are reported.
 */
module IndexSearch {
  import opened JsNumbers
  import opened Detections

  /** The `classifier` argument: `classifier(r, c, a, s, pixels, width)` scores one window. */
  type ClassifierFn = (int, int, real, int, seq<byte>, int) -> Score

  /** Everything the search reads; `minsize` is `(initialsize * Math.sqrt(width * height)) | 0`. */
  datatype Scan = Scan(clfn: ClassifierFn, pixels: seq<byte>, width: nat, height: nat,
                       shiftfactor: real, scalefactor: real, minsize: int, rotation: seq<real>)
  {
    predicate Valid() {
      shiftfactor >= 0.0 && scalefactor > 1.0
    }
  }

  /** `(initialsize * rootArea) | 0`, where rootArea stands for `Math.sqrt(width * height)`. */
  function MinSize(initialsize: real, rootArea: real): int {
    Trunc(initialsize * rootArea)
  }

  /** `(shiftfactor * s + 1) | 0`: at least 1, so the grid always advances. */
  function Step(shiftfactor: real, s: nat): (step: int)
    requires shiftfactor >= 0.0
    ensures step >= 1
  {
    assert shiftfactor * s as real >= 0.0;
    Trunc(shiftfactor * s as real + 1.0)
  }

  /** `(s / 2 + 1) | 0`: more than half the window, so a window centred at offset lies inside the image. */
  function Offset(s: nat): (offset: int)
    ensures s as real / 2.0 < offset as real <= s as real / 2.0 + 1.0
  {
    Trunc(s as real / 2.0 + 1.0)
  }

  /** `(s / scalefactor) | 0`: a positive size strictly shrinks. */
  function NextSize(s: nat, scalefactor: real): (next: nat)
    requires scalefactor > 1.0
    ensures s >= 1 ==> next < s
  {
    var x := s as real / scalefactor;
    assert 0.0 <= x;
    assert s >= 1 ==> x < s as real by {
      if s >= 1 {
        assert x * scalefactor == s as real;
        assert s as real < s as real * scalefactor;
      }
    }
    Trunc(x)
  }

  /** The loop test of the search, with the lower bound 1 that keeps it finite (see README, Findings). */
  predicate Continue(x: Scan, s: nat) {
    s >= x.minsize && s >= 1
  }

  /** The loop test as src/index.js writes it. */
  predicate ContinueAsWritten(x: Scan, s: nat) {
    s >= x.minsize
  }

  /** The detection pushed for window (r, c, s) at angle a with quality q. */
  function Hit(r: int, c: int, s: nat, q: real, a: real): Detection {
    Detection(r as real, c as real, s as real, q, a)
  }

  /** The detections of the angles `rotation[i..]` at window (r, c, s). */
  function Angles(x: Scan, s: nat, r: int, c: int, i: nat): seq<Detection>
    requires x.Valid() && i <= |x.rotation|
    decreases |x.rotation| - i
  {
    if i == |x.rotation| then []
    else
      var a := x.rotation[i];
      var q := x.clfn(r, c, a, s, x.pixels, x.width);
      (if Accepted(q) then [Hit(r, c, s, q.v, a)] else []) + Angles(x, s, r, c, i + 1)
  }

  /** The detections of the columns c, c + step, ... of row r. */
  function Columns(x: Scan, s: nat, r: int, c: int): seq<Detection>
    requires x.Valid()
    decreases x.width - c
  {
    if c >= x.width - Offset(s) then []
    else Angles(x, s, r, c, 0) + Columns(x, s, r, c + Step(x.shiftfactor, s))
  }

  /** The detections of the rows r, r + step, ... at size s. */
  function Rows(x: Scan, s: nat, r: int): seq<Detection>
    requires x.Valid()
    decreases x.height - r
  {
    if r >= x.height - Offset(s) then []
    else Columns(x, s, r, Offset(s)) + Rows(x, s, r + Step(x.shiftfactor, s))
  }

  /** The detections of size s and of every smaller size the loop goes on to. */
  function Sizes(x: Scan, s: nat): seq<Detection>
    requires x.Valid()
    decreases s
  {
    if !Continue(x, s) then []
    else Rows(x, s, Offset(s)) + Sizes(x, NextSize(s, x.scalefactor))
  }

  /** What `runCascade` returns. */
  function Search(x: Scan): seq<Detection>
    requires x.Valid()
  {
    Sizes(x, Min(x.width, x.height))
  }

  /** The window sizes the search visits from s on. */
  function Schedule(x: Scan, s: nat): seq<nat>
    requires x.Valid()
    decreases s
  {
    if !Continue(x, s) then [] else [s] + Schedule(x, NextSize(s, x.scalefactor))
  }

  /**
   * The sizes the corrected search visits are at least minsize and at least
   * 1, and strictly decreasing, so there are at most s of them.
   */
  lemma {:induction false} ScheduleShrinks(x: Scan, s: nat)
    requires x.Valid()
    ensures forall k :: 0 <= k < |Schedule(x, s)| ==> Schedule(x, s)[k] >= x.minsize && 1 <= Schedule(x, s)[k] <= s
    ensures forall k :: 0 <= k < |Schedule(x, s)| - 1 ==> Schedule(x, s)[k + 1] < Schedule(x, s)[k]
    ensures |Schedule(x, s)| <= s
    decreases s
  {
    if Continue(x, s) {
      ScheduleShrinks(x, NextSize(s, x.scalefactor));
    }
  }

  /** The size after k passes of the loop. */
  function SizeAfter(s: nat, scalefactor: real, k: nat): nat
    requires scalefactor > 1.0
  {
    if k == 0 then s else NextSize(SizeAfter(s, scalefactor, k - 1), scalefactor)
  }

  /**
   * With the loop test as written, a `minsize` of 0 or less is met by every
   * size the loop reaches (the size stops at 0): the loop never exits.
   */
  lemma AsWrittenNeverStops(x: Scan, s: nat, k: nat)
    requires x.Valid() && x.minsize <= 0
    ensures ContinueAsWritten(x, SizeAfter(s, x.scalefactor, k))
  {
  }

  /** With the default initialsize 0.1, an 8x8 image (square root of the area 8) gives minsize 0. */
  lemma SmallImageHasZeroMinSize()
    ensures MinSize(0.1, 8.0) == 0
  {
    assert 0.1 * 8.0 == 0.8;
  }

  /** After s reaches 0 the size stays 0. */
  lemma {:induction false} ZeroSizeIsFixed(scalefactor: real, k: nat)
    requires scalefactor > 1.0
    ensures SizeAfter(0, scalefactor, k) == 0
  {
    if k > 0 {
      ZeroSizeIsFixed(scalefactor, k - 1);
      assert (0 as real) / scalefactor == 0.0;
    }
  }

  /**
   * A reported detection: quality q > 0 given by the classifier for exactly
   * that window and angle, an angle from `rotation`, an integral size with
   * max(minsize, 1) <= s <= min(width, height), and a centre on the grid
   * margin: offset <= r < height - offset and offset <= c < width - offset,
   * which puts the whole window inside the image.
   */
  predicate Reported(x: Scan, d: Detection)
    requires x.Valid()
  {
    && d.r == d.r.Floor as real && d.c == d.c.Floor as real && d.s == d.s.Floor as real
    && x.minsize <= d.s.Floor && 1 <= d.s.Floor <= Min(x.width, x.height)
    && Offset(d.s.Floor) <= d.r.Floor < x.height - Offset(d.s.Floor)
    && Offset(d.s.Floor) <= d.c.Floor < x.width - Offset(d.s.Floor)
    && d.s / 2.0 < d.r && d.r + d.s / 2.0 < x.height as real
    && d.s / 2.0 < d.c && d.c + d.s / 2.0 < x.width as real
    && d.a in x.rotation
    && d.q > 0.0
    && x.clfn(d.r.Floor, d.c.Floor, d.a, d.s.Floor, x.pixels, x.width) == Num(d.q)
  }

  predicate AllReported(x: Scan, ds: seq<Detection>)
    requires x.Valid()
  {
    forall k :: 0 <= k < |ds| ==> Reported(x, ds[k])
  }

  lemma ConcatReported(x: Scan, a: seq<Detection>, b: seq<Detection>)
    requires x.Valid() && AllReported(x, a) && AllReported(x, b)
    ensures AllReported(x, a + b)
  {
    forall k | 0 <= k < |a + b|
      ensures Reported(x, (a + b)[k])
    {
      if k >= |a| {
        assert (a + b)[k] == b[k - |a|];
      }
    }
  }

  lemma {:induction false} AnglesReported(x: Scan, s: nat, r: int, c: int, i: nat)
    requires x.Valid() && i <= |x.rotation|
    requires x.minsize <= s && 1 <= s <= Min(x.width, x.height)
    requires Offset(s) <= r < x.height - Offset(s) && Offset(s) <= c < x.width - Offset(s)
    ensures AllReported(x, Angles(x, s, r, c, i))
    decreases |x.rotation| - i
  {
    if i < |x.rotation| {
      AnglesReported(x, s, r, c, i + 1);
      var a := x.rotation[i];
      var q := x.clfn(r, c, a, s, x.pixels, x.width);
      if Accepted(q) {
        var d := Hit(r, c, s, q.v, a);
        assert d.r.Floor == r && d.c.Floor == c && d.s.Floor == s;
        assert Reported(x, d);
      }
      ConcatReported(x, if Accepted(q) then [Hit(r, c, s, q.v, a)] else [], Angles(x, s, r, c, i + 1));
    }
  }

  lemma {:induction false} ColumnsReported(x: Scan, s: nat, r: int, c: int)
    requires x.Valid() && x.minsize <= s && 1 <= s <= Min(x.width, x.height)
    requires Offset(s) <= r < x.height - Offset(s) && Offset(s) <= c
    ensures AllReported(x, Columns(x, s, r, c))
    decreases x.width - c
  {
    if c < x.width - Offset(s) {
      AnglesReported(x, s, r, c, 0);
      ColumnsReported(x, s, r, c + Step(x.shiftfactor, s));
      ConcatReported(x, Angles(x, s, r, c, 0), Columns(x, s, r, c + Step(x.shiftfactor, s)));
    }
  }

  lemma {:induction false} RowsReported(x: Scan, s: nat, r: int)
    requires x.Valid() && x.minsize <= s && 1 <= s <= Min(x.width, x.height)
    requires Offset(s) <= r
    ensures AllReported(x, Rows(x, s, r))
    decreases x.height - r
  {
    if r < x.height - Offset(s) {
      ColumnsReported(x, s, r, Offset(s));
      RowsReported(x, s, r + Step(x.shiftfactor, s));
      ConcatReported(x, Columns(x, s, r, Offset(s)), Rows(x, s, r + Step(x.shiftfactor, s)));
    }
  }

  lemma {:induction false} SizesReported(x: Scan, s: nat)
    requires x.Valid() && s <= Min(x.width, x.height)
    ensures AllReported(x, Sizes(x, s))
    decreases s
  {
    if Continue(x, s) {
      RowsReported(x, s, Offset(s));
      SizesReported(x, NextSize(s, x.scalefactor));
      ConcatReported(x, Rows(x, s, Offset(s)), Sizes(x, NextSize(s, x.scalefactor)));
    }
  }

  /** Every detection of the search is a reported window (see `Reported`). */
  lemma SearchReported(x: Scan)
    requires x.Valid()
    ensures AllReported(x, Search(x))
  {
    SizesReported(x, Min(x.width, x.height));
  }

  /** Every angle the classifier accepts at a visited window is reported, in the order of `rotation`. */
  lemma {:induction false} AnglesComplete(x: Scan, s: nat, r: int, c: int, i: nat, k: nat)
    requires x.Valid() && i <= k < |x.rotation|
    requires Accepted(x.clfn(r, c, x.rotation[k], s, x.pixels, x.width))
    ensures Hit(r, c, s, x.clfn(r, c, x.rotation[k], s, x.pixels, x.width).v, x.rotation[k])
            in Angles(x, s, r, c, i)
    decreases k - i
  {
    if i < k {
      AnglesComplete(x, s, r, c, i + 1, k);
    }
  }

  /** Every angle the classifier accepts at column c = c0 + j * step of row r is reported by the column loop from c0. */
  lemma {:induction false} ColumnsComplete(x: Scan, s: nat, r: int, c0: int, c: int, j: nat, k: nat)
    requires x.Valid() && k < |x.rotation|
    requires c == c0 + j * Step(x.shiftfactor, s) && c < x.width - Offset(s)
    requires Accepted(x.clfn(r, c, x.rotation[k], s, x.pixels, x.width))
    ensures Hit(r, c, s, x.clfn(r, c, x.rotation[k], s, x.pixels, x.width).v, x.rotation[k]) in Columns(x, s, r, c0)
    decreases j
  {
    var step := Step(x.shiftfactor, s);
    GridPoint(c0, c, j, step);
    if j == 0 {
      AnglesComplete(x, s, r, c0, 0, k);
    } else {
      ColumnsComplete(x, s, r, c0 + step, c, j - 1, k);
    }
  }

  /** Every angle the classifier accepts at grid point (r, c), r = r0 + i * step and c = offset + j * step, is reported by the row loop from r0. */
  lemma {:induction false} RowsComplete(x: Scan, s: nat, r0: int, r: int, c: int, i: nat, j: nat, k: nat)
    requires x.Valid() && k < |x.rotation|
    requires r == r0 + i * Step(x.shiftfactor, s) && r < x.height - Offset(s)
    requires c == Offset(s) + j * Step(x.shiftfactor, s) && c < x.width - Offset(s)
    requires Accepted(x.clfn(r, c, x.rotation[k], s, x.pixels, x.width))
    ensures Hit(r, c, s, x.clfn(r, c, x.rotation[k], s, x.pixels, x.width).v, x.rotation[k]) in Rows(x, s, r0)
    decreases i
  {
    var step := Step(x.shiftfactor, s);
    GridPoint(r0, r, i, step);
    if i == 0 {
      ColumnsComplete(x, s, r0, Offset(s), c, j, k);
    } else {
      RowsComplete(x, s, r0 + step, r, c, i - 1, j, k);
    }
  }

  /**
   * Every angle the classifier accepts at a grid point of a size the loop
   * visits from s0 on is reported; the grid point has row r = offset + i * step
   * and column c = offset + j * step, both inside the margin.
   */
  lemma {:induction false} SizesComplete(x: Scan, s0: nat, s: nat, r: int, c: int, i: nat, j: nat, k: nat)
    requires x.Valid() && k < |x.rotation| && s in Schedule(x, s0)
    requires r == Offset(s) + i * Step(x.shiftfactor, s) && r < x.height - Offset(s)
    requires c == Offset(s) + j * Step(x.shiftfactor, s) && c < x.width - Offset(s)
    requires Accepted(x.clfn(r, c, x.rotation[k], s, x.pixels, x.width))
    ensures Hit(r, c, s, x.clfn(r, c, x.rotation[k], s, x.pixels, x.width).v, x.rotation[k]) in Sizes(x, s0)
    decreases s0
  {
    if s == s0 {
      RowsComplete(x, s, Offset(s), r, c, i, j, k);
    } else {
      SizesComplete(x, NextSize(s0, x.scalefactor), s, r, c, i, j, k);
    }
  }

  /**
   * The converse of `SearchReported`: every window of the grid, at every size
   * the search visits and every angle of `rotation` the classifier scores
   * above 0, is among the detections of the search.
   */
  lemma SearchComplete(x: Scan, s: nat, r: int, c: int, i: nat, j: nat, k: nat)
    requires x.Valid() && k < |x.rotation| && s in Schedule(x, Min(x.width, x.height))
    requires r == Offset(s) + i * Step(x.shiftfactor, s) && r < x.height - Offset(s)
    requires c == Offset(s) + j * Step(x.shiftfactor, s) && c < x.width - Offset(s)
    requires Accepted(x.clfn(r, c, x.rotation[k], s, x.pixels, x.width))
    ensures Hit(r, c, s, x.clfn(r, c, x.rotation[k], s, x.pixels, x.width).v, x.rotation[k]) in Search(x)
  {
    SizesComplete(x, Min(x.width, x.height), s, r, c, i, j, k);
  }

  /** `runCascade` of src/index.js, with the corrected loop test. */
  method RunCascade(x: Scan) returns (detections: seq<Detection>)
    requires x.Valid()
    ensures detections == Search(x)
  {
    detections := [];
    var s: nat := Min(x.width, x.height);
    while s >= x.minsize && s >= 1
      invariant detections + Sizes(x, s) == Search(x)
      decreases s
    {
      var found := ScanRows(x, s);
      detections := detections + found;
      s := NextSize(s, x.scalefactor);
    }
  }

  /** One pass of the size loop: the rows of window centres at size s. */
  method ScanRows(x: Scan, s: nat) returns (detections: seq<Detection>)
    requires x.Valid()
    ensures detections == Rows(x, s, Offset(s))
  {
    detections := [];
    var step := Step(x.shiftfactor, s);
    var offset := Offset(s);
    var r := offset;
    while r < x.height - offset
      invariant detections + Rows(x, s, r) == Rows(x, s, offset)
      decreases x.height - r
    {
      var found := ScanColumns(x, s, r);
      detections := detections + found;
      r := r + step;
    }
  }

  /** One column of the loop: its angles come before the columns to its right. */
  lemma ColumnsStep(x: Scan, s: nat, r: int, c: int, done: seq<Detection>, start: int)
    requires x.Valid() && c < x.width - Offset(s)
    requires done + Columns(x, s, r, c) == Columns(x, s, r, start)
    ensures done + Angles(x, s, r, c, 0) + Columns(x, s, r, c + Step(x.shiftfactor, s)) == Columns(x, s, r, start)
  {
    var step := Step(x.shiftfactor, s);
    assert Columns(x, s, r, c) == Angles(x, s, r, c, 0) + Columns(x, s, r, c + step);
    assert done + Angles(x, s, r, c, 0) + Columns(x, s, r, c + step)
      == done + (Angles(x, s, r, c, 0) + Columns(x, s, r, c + step));
  }

  /** The column loop of row r. */
  method ScanColumns(x: Scan, s: nat, r: int) returns (detections: seq<Detection>)
    requires x.Valid()
    ensures detections == Columns(x, s, r, Offset(s))
  {
    detections := [];
    var step := Step(x.shiftfactor, s);
    var offset := Offset(s);
    var c := offset;
    while c < x.width - offset
      invariant detections + Columns(x, s, r, c) == Columns(x, s, r, offset)
      decreases x.width - c
    {
      var found := ScanAngles(x, s, r, c);
      ColumnsStep(x, s, r, c, detections, offset);
      detections := detections + found;
      c := c + step;
    }
  }

  /** One angle of the loop: its detection, if the window is accepted, comes before those of the later angles. */
  lemma AnglesStep(x: Scan, s: nat, r: int, c: int, i: nat)
    requires x.Valid() && i < |x.rotation|
    ensures var q := x.clfn(r, c, x.rotation[i], s, x.pixels, x.width);
      && (Accepted(q) ==> Angles(x, s, r, c, i) == [Hit(r, c, s, q.v, x.rotation[i])] + Angles(x, s, r, c, i + 1))
      && (!Accepted(q) ==> Angles(x, s, r, c, i) == Angles(x, s, r, c, i + 1))
  {
    assert [] + Angles(x, s, r, c, i + 1) == Angles(x, s, r, c, i + 1);
  }

  /** The angle loop at window (r, c, s): the classifier is called once per angle of `rotation`. */
  method ScanAngles(x: Scan, s: nat, r: int, c: int) returns (detections: seq<Detection>)
    requires x.Valid()
    ensures detections == Angles(x, s, r, c, 0)
  {
    detections := [];
    var i := 0;
    while i < |x.rotation|
      invariant i <= |x.rotation|
      invariant detections + Angles(x, s, r, c, i) == Angles(x, s, r, c, 0)
    {
      var a := x.rotation[i];
      var q := x.clfn(r, c, a, s, x.pixels, x.width);
      AnglesStep(x, s, r, c, i);
      if q.Num? && q.v > 0.0 {
        assert detections + [Hit(r, c, s, q.v, a)] + Angles(x, s, r, c, i + 1)
          == detections + ([Hit(r, c, s, q.v, a)] + Angles(x, s, r, c, i + 1));
        detections := detections + [Hit(r, c, s, q.v, a)];
      }
      i := i + 1;
    }
  }
}
