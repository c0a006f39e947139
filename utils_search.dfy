/**
 * `runCascade` of src/utils.js: the multiscale sliding-window search with a
 * growing window. The side s starts at `initialsize` and is multiplied by
 * `scalefactor` while it is at most max(width, height); at each size the
 * centre moves over a grid with step `(shiftfactor * s + 1) >> 0`, from
 * `(s / 2 + 1) >> 0` up to and including the far border less that offset,
 * and every angle of the normalised `rotation` is tried with the classifier
 * the caller passes. Windows with q > 0 are reported.
 */
module UtilsSearch {
  import opened JsNumbers
  import opened Detections

  /** The `rotation` argument: a falsy value, one angle, or a list of angles. */
  datatype RotationOption = Unset | Angle(a: real) | AngleList(angles: seq<real>)

  /**
   * `rotation ? [].concat(rotation) : [0]`: a falsy rotation (absent or the
   * angle 0) becomes [0], a single angle a one-element list, and a list is
   * used as it is.
   */
  function NormalizeRotation(rotation: RotationOption): (angles: seq<real>)
    ensures rotation.AngleList? ==> angles == rotation.angles
    ensures rotation.Unset? ==> angles == [0.0]
    ensures rotation.Angle? ==> angles == [rotation.a]
  {
    match rotation
    case Unset => [0.0]
    case Angle(a) => if a == 0.0 then [0.0] else [a]
    case AngleList(angles) => angles
  }

  /** `clfn(r, c, a, s, pixels, ldim)`: the classifier the search is given. */
  type ClassifierFn = (int, int, real, real, seq<byte>, int) -> Score

  /** Everything the search reads, with the rotation already normalised. */
  datatype Scan = Scan(clfn: ClassifierFn, pixels: seq<byte>, width: nat, height: nat,
                       shiftfactor: real, scalefactor: real, initialsize: real, rotation: seq<real>)
  {
    /** The parameters for which the loops end: a positive start size that grows, and a forward step. */
    predicate Valid() {
      shiftfactor >= 0.0 && scalefactor > 1.0 && initialsize > 0.0
    }

    /** `Math.max(width, height)`. */
    function MaxSize(): real {
      if width >= height then width as real else height as real
    }
  }

  /** `(shiftfactor * s + 1) >> 0`: at least 1, so the grid always advances. */
  function Step(shiftfactor: real, s: real): (step: int)
    requires shiftfactor >= 0.0 && s >= 0.0
    ensures step >= 1
  {
    assert shiftfactor * s >= 0.0;
    Trunc(shiftfactor * s + 1.0)
  }

  /** `(s / 2 + 1) >> 0`: more than half the window, so a window centred at offset starts inside the image. */
  function Offset(s: real): (offset: int)
    requires s >= 0.0
    ensures s / 2.0 < offset as real <= s / 2.0 + 1.0
  {
    Trunc(s / 2.0 + 1.0)
  }

  /** The detection pushed for window (r, c, s) at angle a with quality q. */
  function Hit(r: int, c: int, s: real, q: real, a: real): Detection {
    Detection(r as real, c as real, s, q, a)
  }

  /** The detections of the angles `rotation[i..]` at window (r, c, s). */
  function Angles(x: Scan, s: real, r: int, c: int, i: nat): seq<Detection>
    requires i <= |x.rotation|
    decreases |x.rotation| - i
  {
    if i == |x.rotation| then []
    else
      var a := x.rotation[i];
      var q := x.clfn(r, c, a, s, x.pixels, x.width);
      (if Accepted(q) then [Hit(r, c, s, q.v, a)] else []) + Angles(x, s, r, c, i + 1)
  }

  /** The detections of the columns c, c + step, ... of row r, up to `width - offset` inclusive. */
  function Columns(x: Scan, s: real, r: int, c: int): seq<Detection>
    requires x.Valid() && s >= 0.0
    decreases x.width - c
  {
    if c > x.width - Offset(s) then []
    else Angles(x, s, r, c, 0) + Columns(x, s, r, c + Step(x.shiftfactor, s))
  }

  /** The detections of the rows r, r + step, ... at size s, up to `height - offset` inclusive. */
  function Rows(x: Scan, s: real, r: int): seq<Detection>
    requires x.Valid() && s >= 0.0
    decreases x.height - r
  {
    if r > x.height - Offset(s) then []
    else Columns(x, s, r, Offset(s)) + Rows(x, s, r + Step(x.shiftfactor, s))
  }

  /** The least growth of the size in one pass: `initialsize * (scalefactor - 1)`. */
  function Growth(x: Scan): (g: real)
    requires x.Valid()
    ensures g > 0.0
  {
    Positive(x.initialsize, x.scalefactor - 1.0);
    x.initialsize * (x.scalefactor - 1.0)
  }

  /** A bound on the passes left from size s: every pass grows the size by at least `Growth`. */
  function Remaining(x: Scan, s: real): nat
    requires x.Valid()
  {
    if s > x.MaxSize() then 0
    else
      Quotient(x.MaxSize() - s, Growth(x));
      ((x.MaxSize() - s) / Growth(x)).Floor + 1
  }

  lemma Positive(a: real, b: real)
    requires a > 0.0 && b > 0.0
    ensures a * b > 0.0
  {
  }

  lemma Quotient(a: real, g: real)
    requires a >= 0.0 && g > 0.0
    ensures a / g >= 0.0
  {
  }

  /** A pass from a size at least `initialsize` grows it by at least `Growth`, so fewer passes remain. */
  lemma RemainingDecreases(x: Scan, s: real)
    requires x.Valid() && x.initialsize <= s <= x.MaxSize()
    ensures s * x.scalefactor >= s + Growth(x)
    ensures Remaining(x, s * x.scalefactor) < Remaining(x, s)
  {
    GrowthStep(s, x.initialsize, x.scalefactor);
    RemainingMonotonic(x, s, s * x.scalefactor);
  }

  /** A size at least `Growth` beyond s has fewer passes left. */
  lemma RemainingMonotonic(x: Scan, s: real, next: real)
    requires x.Valid() && s <= x.MaxSize() && next >= s + Growth(x)
    ensures Remaining(x, next) < Remaining(x, s)
  {
    var g, m := Growth(x), x.MaxSize();
    if next <= m {
      RemainingStep(m, s, next, g);
      assert Remaining(x, next) == ((m - next) / g).Floor + 1;
      assert Remaining(x, s) == ((m - s) / g).Floor + 1;
    }
  }

  /** Moving at least g closer to m lowers the floor of the distance counted in steps of g. */
  lemma RemainingStep(m: real, s: real, next: real, g: real)
    requires g > 0.0 && s + g <= next <= m
    ensures ((m - next) / g).Floor < ((m - s) / g).Floor
  {
    DivideMonotonic(m - next, m - s - g, g);
    DivideShift(m - s, g);
    FloorStep((m - next) / g, (m - s) / g);
  }

  lemma GrowthStep(s: real, s0: real, f: real)
    requires s >= s0 && f > 1.0
    ensures s * f >= s + s0 * (f - 1.0)
  {
    NonNegative(s - s0, f - 1.0);
  }

  lemma NonNegative(a: real, b: real)
    requires a >= 0.0 && b >= 0.0
    ensures a * b >= 0.0
  {
  }

  lemma DivideShift(a: real, g: real)
    requires g > 0.0
    ensures (a - g) / g == a / g - 1.0
  {
    var q, p := a / g, (a - g) / g;
    assert q * g == a;
    assert p * g == a - g;
    assert (p - q + 1.0) * g == 0.0;
    ZeroProduct(p - q + 1.0, g);
  }

  lemma ZeroProduct(a: real, g: real)
    requires g > 0.0 && a * g == 0.0
    ensures a == 0.0
  {
  }

  lemma FloorStep(a: real, b: real)
    requires a <= b - 1.0
    ensures a.Floor < b.Floor
  {
  }

  lemma DivideMonotonic(a: real, b: real, g: real)
    requires a <= b && g > 0.0
    ensures a / g <= b / g
  {
  }

  /** The detections of size s and of every larger size the loop goes on to. */
  function Sizes(x: Scan, s: real): seq<Detection>
    requires x.Valid() && s >= x.initialsize
  {
    ScheduleBounded(x, s);
    var ss := Schedule(x, s);
    assert forall k :: 0 <= k < |ss| ==> ss[k] in ss;
    Passes(x, ss)
  }

  /** The passes of the size loop at the sizes ss, in order: the rows of each. */
  function Passes(x: Scan, ss: seq<real>): seq<Detection>
    requires x.Valid() && forall k :: 0 <= k < |ss| ==> ss[k] >= 0.0
  {
    if ss == [] then [] else Rows(x, ss[0], Offset(ss[0])) + Passes(x, ss[1..])
  }

  /** What `runCascade` returns. */
  function Search(x: Scan): seq<Detection>
    requires x.Valid()
  {
    Sizes(x, x.initialsize)
  }

  /** `scalefactor^k`. */
  function Power(f: real, k: nat): real {
    if k == 0 then 1.0 else f * Power(f, k - 1)
  }

  /** The window sizes the search visits from s on. */
  function Schedule(x: Scan, s: real): seq<real>
    requires x.Valid() && s >= x.initialsize
    decreases Remaining(x, s)
  {
    if s > x.MaxSize() then []
    else
      RemainingDecreases(x, s);
      [s] + Schedule(x, s * x.scalefactor)
  }

  /** The k-th size the search visits from s is s * scalefactor^k. */
  lemma {:induction false} ScheduleGeometric(x: Scan, s: real)
    requires x.Valid() && s >= x.initialsize
    ensures IsGeometric(Schedule(x, s), s, x.scalefactor)
    decreases Remaining(x, s)
  {
    if s <= x.MaxSize() {
      RemainingDecreases(x, s);
      ScheduleGeometric(x, s * x.scalefactor);
      GeometricCons(s, x.scalefactor, Schedule(x, s * x.scalefactor));
    }
  }

  /** The k-th element of ss is s * f^k. */
  predicate IsGeometric(ss: seq<real>, s: real, f: real) {
    forall k :: 0 <= k < |ss| ==> ss[k] == s * Power(f, k)
  }

  /** Prepending s to a geometric sequence starting at s * f gives one starting at s. */
  lemma GeometricCons(s: real, f: real, rest: seq<real>)
    requires IsGeometric(rest, s * f, f)
    ensures IsGeometric([s] + rest, s, f)
  {
    forall k | 0 <= k < |[s] + rest|
      ensures ([s] + rest)[k] == s * Power(f, k)
    {
      if k > 0 {
        assert ([s] + rest)[k] == rest[k - 1];
        PowerStep(s, f, k);
      }
    }
  }

  lemma PowerStep(s: real, f: real, k: nat)
    requires k > 0
    ensures (s * f) * Power(f, k - 1) == s * Power(f, k)
  {
  }

  /** Every visited size lies between initialsize and max(width, height). */
  lemma {:induction false} ScheduleBounded(x: Scan, s: real)
    requires x.Valid() && s >= x.initialsize
    ensures forall t :: t in Schedule(x, s) ==> s <= t <= x.MaxSize()
    decreases Remaining(x, s)
  {
    if s <= x.MaxSize() {
      RemainingDecreases(x, s);
      ScheduleBounded(x, s * x.scalefactor);
    }
  }

  /** The visited sizes strictly increase. */
  lemma {:induction false} ScheduleIncreasing(x: Scan, s: real)
    requires x.Valid() && s >= x.initialsize
    ensures forall k :: 0 <= k < |Schedule(x, s)| - 1 ==> Schedule(x, s)[k] < Schedule(x, s)[k + 1]
    decreases Remaining(x, s)
  {
    if s <= x.MaxSize() {
      RemainingDecreases(x, s);
      ScheduleIncreasing(x, s * x.scalefactor);
      var rest := Schedule(x, s * x.scalefactor);
      assert Schedule(x, s) == [s] + rest;
      if |rest| > 0 {
        ScheduleBounded(x, s * x.scalefactor);
        assert rest[0] in rest;
      }
    }
  }

  /**
   * A reported detection: quality q > 0 given by the classifier for exactly
   * that window and angle, an angle from `rotation`, a size from initialsize
   * up to max(width, height), and a centre on the grid with the inclusive
   * bounds offset <= r <= height - offset and offset <= c <= width - offset,
   * which still keep the whole window inside the image.
   */
  predicate Reported(x: Scan, d: Detection)
    requires x.Valid()
  {
    && d.r == d.r.Floor as real && d.c == d.c.Floor as real
    && x.initialsize <= d.s <= x.MaxSize()
    && Offset(d.s) <= d.r.Floor <= x.height - Offset(d.s)
    && Offset(d.s) <= d.c.Floor <= x.width - Offset(d.s)
    && d.s / 2.0 < d.r && d.r + d.s / 2.0 < x.height as real
    && d.s / 2.0 < d.c && d.c + d.s / 2.0 < x.width as real
    && d.a in x.rotation
    && d.q > 0.0
    && x.clfn(d.r.Floor, d.c.Floor, d.a, d.s, x.pixels, x.width) == Num(d.q)
  }

  predicate AllReported(x: Scan, ds: seq<Detection>)
    requires x.Valid()
  {
    forall k :: 0 <= k < |ds| ==> Reported(x, ds[k])
  }

  lemma ConcatReported(x: Scan, a: seq<Detection>, b: seq<Detection>)
    requires x.Valid() && AllReported(x, a) && AllReported(x, b)
    ensures AllReported(x, a + b)
  {
    forall k | 0 <= k < |a + b|
      ensures Reported(x, (a + b)[k])
    {
      if k >= |a| {
        assert (a + b)[k] == b[k - |a|];
      }
    }
  }

  lemma {:induction false} AnglesReported(x: Scan, s: real, r: int, c: int, i: nat)
    requires x.Valid() && i <= |x.rotation|
    requires x.initialsize <= s <= x.MaxSize()
    requires Offset(s) <= r <= x.height - Offset(s) && Offset(s) <= c <= x.width - Offset(s)
    ensures AllReported(x, Angles(x, s, r, c, i))
    decreases |x.rotation| - i
  {
    if i < |x.rotation| {
      AnglesReported(x, s, r, c, i + 1);
      var a := x.rotation[i];
      var q := x.clfn(r, c, a, s, x.pixels, x.width);
      if Accepted(q) {
        var d := Hit(r, c, s, q.v, a);
        assert d.r.Floor == r && d.c.Floor == c;
        assert Reported(x, d);
      }
      ConcatReported(x, if Accepted(q) then [Hit(r, c, s, q.v, a)] else [], Angles(x, s, r, c, i + 1));
    }
  }

  lemma {:induction false} ColumnsReported(x: Scan, s: real, r: int, c: int)
    requires x.Valid() && x.initialsize <= s <= x.MaxSize()
    requires Offset(s) <= r <= x.height - Offset(s) && Offset(s) <= c
    ensures AllReported(x, Columns(x, s, r, c))
    decreases x.width - c
  {
    if c <= x.width - Offset(s) {
      AnglesReported(x, s, r, c, 0);
      ColumnsReported(x, s, r, c + Step(x.shiftfactor, s));
      ConcatReported(x, Angles(x, s, r, c, 0), Columns(x, s, r, c + Step(x.shiftfactor, s)));
    }
  }

  lemma {:induction false} RowsReported(x: Scan, s: real, r: int)
    requires x.Valid() && x.initialsize <= s <= x.MaxSize()
    requires Offset(s) <= r
    ensures AllReported(x, Rows(x, s, r))
    decreases x.height - r
  {
    if r <= x.height - Offset(s) {
      ColumnsReported(x, s, r, Offset(s));
      RowsReported(x, s, r + Step(x.shiftfactor, s));
      ConcatReported(x, Columns(x, s, r, Offset(s)), Rows(x, s, r + Step(x.shiftfactor, s)));
    }
  }

  lemma {:induction false} SizesReported(x: Scan, s: real)
    requires x.Valid() && s >= x.initialsize
    ensures AllReported(x, Sizes(x, s))
    decreases Remaining(x, s)
  {
    if s <= x.MaxSize() {
      RemainingDecreases(x, s);
      SizesStep(x, s);
      RowsReported(x, s, Offset(s));
      SizesReported(x, s * x.scalefactor);
      ConcatReported(x, Rows(x, s, Offset(s)), Sizes(x, s * x.scalefactor));
    }
  }

  /** Every detection of the search is a reported window (see `Reported`). */
  lemma SearchReported(x: Scan)
    requires x.Valid()
    ensures AllReported(x, Search(x))
  {
    SizesReported(x, x.initialsize);
  }

  /** Every angle the classifier accepts at a visited window is reported, in the order of `rotation`. */
  lemma {:induction false} AnglesComplete(x: Scan, s: real, r: int, c: int, i: nat, k: nat)
    requires i <= k < |x.rotation|
    requires Accepted(x.clfn(r, c, x.rotation[k], s, x.pixels, x.width))
    ensures Hit(r, c, s, x.clfn(r, c, x.rotation[k], s, x.pixels, x.width).v, x.rotation[k]) in Angles(x, s, r, c, i)
    decreases k - i
  {
    if i < k {
      AnglesComplete(x, s, r, c, i + 1, k);
    }
  }

  /** Every angle `clfn` accepts at column c = c0 + j * step of row r, up to the far margin, is reported by the column loop from c0. */
  lemma {:induction false} ColumnsComplete(x: Scan, s: real, r: int, c0: int, c: int, j: nat, k: nat)
    requires x.Valid() && s >= 0.0 && k < |x.rotation|
    requires c == c0 + j * Step(x.shiftfactor, s) && c <= x.width - Offset(s)
    requires Accepted(x.clfn(r, c, x.rotation[k], s, x.pixels, x.width))
    ensures Hit(r, c, s, x.clfn(r, c, x.rotation[k], s, x.pixels, x.width).v, x.rotation[k]) in Columns(x, s, r, c0)
    decreases j
  {
    var step := Step(x.shiftfactor, s);
    GridPoint(c0, c, j, step);
    if j == 0 {
      AnglesComplete(x, s, r, c0, 0, k);
    } else {
      ColumnsComplete(x, s, r, c0 + step, c, j - 1, k);
    }
  }

  /** Every angle `clfn` accepts at grid point (r, c), r = r0 + i * step and c = offset + j * step, is reported by the row loop from r0. */
  lemma {:induction false} RowsComplete(x: Scan, s: real, r0: int, r: int, c: int, i: nat, j: nat, k: nat)
    requires x.Valid() && s >= 0.0 && k < |x.rotation|
    requires r == r0 + i * Step(x.shiftfactor, s) && r <= x.height - Offset(s)
    requires c == Offset(s) + j * Step(x.shiftfactor, s) && c <= x.width - Offset(s)
    requires Accepted(x.clfn(r, c, x.rotation[k], s, x.pixels, x.width))
    ensures Hit(r, c, s, x.clfn(r, c, x.rotation[k], s, x.pixels, x.width).v, x.rotation[k]) in Rows(x, s, r0)
    decreases i
  {
    var step := Step(x.shiftfactor, s);
    GridPoint(r0, r, i, step);
    if i == 0 {
      ColumnsComplete(x, s, r0, Offset(s), c, j, k);
    } else {
      RowsComplete(x, s, r0 + step, r, c, i - 1, j, k);
    }
  }

  /**
   * Every angle `clfn` accepts at a grid point of a size the loop visits
   * from s0 on is reported; the grid point has row r = offset + i * step and
   * column c = offset + j * step, both within the margin.
   */
  lemma {:induction false} SizesComplete(x: Scan, s0: real, s: real, r: int, c: int, i: nat, j: nat, k: nat)
    requires x.Valid() && s0 >= x.initialsize && k < |x.rotation| && s in Schedule(x, s0)
    requires s >= 0.0
    requires r == Offset(s) + i * Step(x.shiftfactor, s) && r <= x.height - Offset(s)
    requires c == Offset(s) + j * Step(x.shiftfactor, s) && c <= x.width - Offset(s)
    requires Accepted(x.clfn(r, c, x.rotation[k], s, x.pixels, x.width))
    ensures Hit(r, c, s, x.clfn(r, c, x.rotation[k], s, x.pixels, x.width).v, x.rotation[k]) in Sizes(x, s0)
    decreases Remaining(x, s0)
  {
    assert s0 <= x.MaxSize();
    RemainingDecreases(x, s0);
    SizesStep(x, s0);
    if s == s0 {
      RowsComplete(x, s, Offset(s), r, c, i, j, k);
    } else {
      SizesComplete(x, s0 * x.scalefactor, s, r, c, i, j, k);
    }
  }

  /**
   * The converse of `SearchReported`: every window of the grid, at every size
   * the search visits and every angle `clfn` scores above 0, is among the
   * detections of the search.
   */
  lemma SearchComplete(x: Scan, s: real, r: int, c: int, i: nat, j: nat, k: nat)
    requires x.Valid() && k < |x.rotation| && s in Schedule(x, x.initialsize)
    requires s >= 0.0
    requires r == Offset(s) + i * Step(x.shiftfactor, s) && r <= x.height - Offset(s)
    requires c == Offset(s) + j * Step(x.shiftfactor, s) && c <= x.width - Offset(s)
    requires Accepted(x.clfn(r, c, x.rotation[k], s, x.pixels, x.width))
    ensures Hit(r, c, s, x.clfn(r, c, x.rotation[k], s, x.pixels, x.width).v, x.rotation[k]) in Search(x)
  {
    SizesComplete(x, x.initialsize, s, r, c, i, j, k);
  }

  /** A classifier that accepts no window gives no detection. */
  lemma RejectingClassifierFindsNothing(x: Scan)
    requires x.Valid()
    requires forall r, c, a, s, px, ld :: !Accepted(x.clfn(r, c, a, s, px, ld))
    ensures Search(x) == []
  {
    SearchReported(x);
    if Search(x) != [] {
      NotReported(x, Search(x)[0]);
    }
  }

  lemma NotReported(x: Scan, d: Detection)
    requires x.Valid()
    requires forall r, c, a, s, px, ld :: !Accepted(x.clfn(r, c, a, s, px, ld))
    ensures !Reported(x, d)
  {
  }

  /** `runCascade(pixels, width, height, clfn, shiftfactor, scalefactor, initialsize, rotation)` of src/utils.js. */
  method RunCascade(pixels: seq<byte>, width: nat, height: nat, clfn: ClassifierFn,
                    shiftfactor: real, scalefactor: real, initialsize: real, rotation: RotationOption)
    returns (detections: seq<Detection>)
    requires shiftfactor >= 0.0 && scalefactor > 1.0 && initialsize > 0.0
    ensures detections == Search(Scan(clfn, pixels, width, height, shiftfactor, scalefactor, initialsize, NormalizeRotation(rotation)))
  {
    var angles := NormalizeRotation(rotation);
    var x := Scan(clfn, pixels, width, height, shiftfactor, scalefactor, initialsize, angles);
    var maxsize := x.MaxSize();
    detections := [];
    var s := initialsize;
    while s <= maxsize
      invariant s >= initialsize
      invariant detections + Sizes(x, s) == Search(x)
      decreases Remaining(x, s)
    {
      RemainingDecreases(x, s);
      SizesStep(x, s);
      var found := ScanRows(x, s);
      detections := detections + found;
      s := s * x.scalefactor;
    }
  }

  /** A pass at a size the loop visits reports its rows before the larger sizes. */
  lemma SizesStep(x: Scan, s: real)
    requires x.Valid() && x.initialsize <= s <= x.MaxSize()
    ensures s * x.scalefactor >= x.initialsize
    ensures Sizes(x, s) == Rows(x, s, Offset(s)) + Sizes(x, s * x.scalefactor)
  {
    ScheduleStep(x, s);
    var rest := Schedule(x, s * x.scalefactor);
    assert ([s] + rest)[1..] == rest;
  }

  /** The sizes visited from s are s, then those visited from s * scalefactor. */
  lemma ScheduleStep(x: Scan, s: real)
    requires x.Valid() && x.initialsize <= s <= x.MaxSize()
    ensures s * x.scalefactor >= x.initialsize
    ensures Schedule(x, s) == [s] + Schedule(x, s * x.scalefactor)
  {
    GrowthStep(s, x.initialsize, x.scalefactor);
    Positive(x.initialsize, x.scalefactor - 1.0);
    ScheduleUnfold(x, s, s * x.scalefactor);
  }

  lemma ScheduleUnfold(x: Scan, s: real, next: real)
    requires x.Valid() && x.initialsize <= s <= x.MaxSize()
    requires next == s * x.scalefactor && next >= x.initialsize
    ensures Schedule(x, s) == [s] + Schedule(x, next)
  {
  }

  /** One pass of the size loop: the rows of window centres at size s. */
  method ScanRows(x: Scan, s: real) returns (detections: seq<Detection>)
    requires x.Valid() && s >= 0.0
    ensures detections == Rows(x, s, Offset(s))
  {
    detections := [];
    var step := Step(x.shiftfactor, s);
    var offset := Offset(s);
    var r := offset;
    while r <= x.height - offset
      invariant detections + Rows(x, s, r) == Rows(x, s, offset)
      decreases x.height - r
    {
      var found := ScanColumns(x, s, r);
      detections := detections + found;
      r := r + step;
    }
  }

  /** The column loop of row r. */
  method ScanColumns(x: Scan, s: real, r: int) returns (detections: seq<Detection>)
    requires x.Valid() && s >= 0.0
    ensures detections == Columns(x, s, r, Offset(s))
  {
    detections := [];
    var step := Step(x.shiftfactor, s);
    var offset := Offset(s);
    var c := offset;
    while c <= x.width - offset
      invariant detections + Columns(x, s, r, c) == Columns(x, s, r, offset)
      decreases x.width - c
    {
      var found := ScanAngles(x, s, r, c);
      detections := detections + found;
      c := c + step;
    }
  }

  /** The angle loop at window (r, c, s): the classifier is called once per angle. */
  method ScanAngles(x: Scan, s: real, r: int, c: int) returns (detections: seq<Detection>)
    ensures detections == Angles(x, s, r, c, 0)
  {
    detections := [];
    var i := 0;
    while i < |x.rotation|
      invariant i <= |x.rotation|
      invariant detections + Angles(x, s, r, c, i) == Angles(x, s, r, c, 0)
    {
      var a := x.rotation[i];
      var q := x.clfn(r, c, a, s, x.pixels, x.width);
      if q.Num? && q.v > 0.0 {
        detections := detections + [Hit(r, c, s, q.v, a)];
      }
      i := i + 1;
    }
  }
}
