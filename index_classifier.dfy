/**
 * `classifyRegion` of src/index.js: every tree of the cascade is walked from
 * its root (heap index 1) to a leaf by pixel-comparison tests on the rotated
 * and scaled window, the leaf predictions are summed, and the window is
 * rejected (-1) as soon as the running sum falls to a tree's threshold.
 */
module IndexClassifier {
  import opened JsNumbers
  import opened Wrappers
  import opened Detections
  import opened IndexCascade
  import CascadeLayout
  import Scoring

  /** `qcostable` and `qsintable`: 256*cos and 256*sin of each whole degree, truncated (supplied by the caller). */
  datatype Tables = Tables(qcos: seq<int>, qsin: seq<int>)
  {
    predicate Valid() {
      |qcos| == 360 && |qsin| == 360
    }
  }

  /**
   * `s * qcostable[a | 0]` and `s * qsintable[a | 0]`. Outside the tables
   * both products are NaN, which is None here.
   */
  function Rotation(tab: Tables, a: real, s: int): (rot: Option<(int, int)>)
    requires tab.Valid()
    ensures rot.Some? <==> 0 <= ToInt32(Trunc(a)) < 360
  {
    var ai := ToInt32(Trunc(a));
    if 0 <= ai < 360 then Some((s * tab.qcos[ai], s * tab.qsin[ai])) else None
  }

  /** `a | 0` drops the fraction: a non-negative angle selects the same table row as its whole degrees. */
  lemma WholeDegrees(tab: Tables, a: real, s: int)
    requires tab.Valid() && a >= 0.0
    ensures Rotation(tab, a, s) == Rotation(tab, a.Floor as real, s)
  {
    var d := a.Floor as real;
    assert d.Floor == a.Floor;
    assert Trunc(a) == Trunc(d);
  }

  /** The window a classifier call examines: centre (r, c), its rotation, and the image with its row length. */
  datatype Window = Window(r: int, c: int, rot: Option<(int, int)>, pixels: seq<byte>, ldim: int)

  /** `pixels[k] | 0`: an index outside the image reads 0. */
  function PixelAt(pixels: seq<byte>, k: int): int {
    if 0 <= k < |pixels| then pixels[k] else 0
  }

  /**
   * Where node idx of tree i starts in `tcodes`, `4 * (2^d * i + idx)`: inside
   * tree i's block and past its four placeholder zeros.
   */
  function NodeOffset(pow2: nat, i: nat, idx: nat): (n: nat)
    requires 1 <= idx < pow2
    ensures 4 * pow2 * i + 4 <= n && n + 4 <= 4 * pow2 * (i + 1)
  {
    assert 4 * pow2 * (i + 1) == 4 * pow2 * i + 4 * pow2;
    4 * (pow2 * i + idx)
  }

  /** Where leaf `leaf` of tree i sits in `tpreds`, `2^d * (i - 1) + leaf`: inside tree i's block. */
  function PredOffset(pow2: nat, i: nat, leaf: nat): (k: nat)
    requires pow2 <= leaf < 2 * pow2
    ensures pow2 * i <= k < pow2 * (i + 1)
    ensures k - pow2 * i == leaf - pow2
  {
    assert pow2 * (i + 1) == pow2 * i + pow2;
    pow2 * (i - 1) + leaf
  }

  /** Tree i's block of codes lies inside `tcodes`. */
  lemma TreeBlockInside(cas: Cascade, i: nat)
    requires cas.WellFormed() && i < cas.ntrees
    ensures 4 * Pow2(cas.tdepth) * (i + 1) <= |cas.tcodes|
    ensures Pow2(cas.tdepth) * (i + 1) <= |cas.tpreds|
  {
    var pow2 := Pow2(cas.tdepth);
    BlocksFit(pow2, i + 1, cas.ntrees);
    CascadeLayout.CodeBlocksFit(pow2, i + 1, cas.ntrees);
  }

  /**
   * The test at node idx of tree i: the two probe points are rotated and
   * scaled into the window with `>> 16`, and the result is 1 when the first
   * pixel is no brighter than the second. Where the rotation is undefined
   * every coordinate is `NaN >> 16 == 0`, both probes read pixel 0, and the
   * test gives 1.
   */
  function NodeTest(cas: Cascade, w: Window, i: nat, idx: nat): (bit: nat)
    requires cas.WellFormed() && i < cas.ntrees && 1 <= idx < Pow2(cas.tdepth)
    ensures bit <= 1
  {
    match w.rot
    case None => 1
    case Some((qcos, qsin)) =>
      TreeBlockInside(cas, i);
      var n := NodeOffset(Pow2(cas.tdepth), i, idx);
      ProbeBit(ShiftLeft16(w.r), ShiftLeft16(w.c), qcos, qsin,
               cas.tcodes[n], cas.tcodes[n + 1], cas.tcodes[n + 2], cas.tcodes[n + 3], w.pixels, w.ldim)
  }

  /**
   * The comparison of one node with codes t0..t3, the window centre already
   * shifted into `rr` and `cc`: 1 when the first probed pixel is no brighter
   * than the second.
   */
  function ProbeBit(rr: int, cc: int, qcos: int, qsin: int, t0: int, t1: int, t2: int, t3: int,
                    pixels: seq<byte>, ldim: int): (bit: nat)
    ensures bit <= 1
  {
    var r1 := ShiftRight16(rr + qcos * t0 - qsin * t1);
    var c1 := ShiftRight16(cc + qsin * t0 + qcos * t1);
    var r2 := ShiftRight16(rr + qcos * t2 - qsin * t3);
    var c2 := ShiftRight16(cc + qsin * t2 + qcos * t3);
    if PixelAt(pixels, r1 * ldim + c1) <= PixelAt(pixels, r2 * ldim + c2) then 1 else 0
  }

  /** The walk down tree i from node idx at level j: the leaf it reaches, in heap numbering. */
  function Descend(cas: Cascade, w: Window, i: nat, idx: nat, j: nat): (leaf: nat)
    requires cas.WellFormed() && i < cas.ntrees
    requires j <= cas.tdepth && Pow2(j) <= idx < 2 * Pow2(j)
    ensures Pow2(cas.tdepth) <= leaf < 2 * Pow2(cas.tdepth)
    decreases cas.tdepth - j
  {
    if j == cas.tdepth then idx
    else
      Pow2Monotonic(j + 1, cas.tdepth);
      Descend(cas, w, i, 2 * idx + NodeTest(cas, w, i, idx), j + 1)
  }

  /** The prediction of the leaf the window reaches in tree i. */
  function LeafValue(cas: Cascade, w: Window, i: nat): real
    requires cas.WellFormed() && i < cas.ntrees
  {
    var pow2 := Pow2(cas.tdepth);
    TreeBlockInside(cas, i);
    cas.tpreds[PredOffset(pow2, i, Descend(cas, w, i, 1, 0))]
  }

  /** The prediction of the leaf the window reaches, tree by tree. */
  function Leaves(cas: Cascade, w: Window): (leaves: seq<real>)
    requires cas.WellFormed()
    ensures |leaves| == cas.ntrees
  {
    seq(cas.ntrees, k requires 0 <= k < cas.ntrees => LeafValue(cas, w, k))
  }

  /** `classifyRegion(r, c, a, s, pixels, ldim)`. */
  function Classify(cas: Cascade, tab: Tables, r: int, c: int, a: real, s: int, pixels: seq<byte>, ldim: int): Score
    requires cas.WellFormed() && tab.Valid()
  {
    Scoring.Eval(Leaves(cas, Window(r, c, Rotation(tab, a, s), pixels, ldim)), cas.thresh, 0, 0.0)
  }

  /**
   * What the classifier returns: -1 exactly when some tree's running sum
   * falls to its threshold; otherwise the final sum less the last threshold,
   * which is then positive; NaN for a cascade without trees. So a window is
   * accepted (`q > 0`) exactly when no tree rejects it and there is a tree.
   */
  lemma ClassifyOutcome(cas: Cascade, tab: Tables, r: int, c: int, a: real, s: int, pixels: seq<byte>, ldim: int)
    requires cas.WellFormed() && tab.Valid()
    ensures var leaves := Leaves(cas, Window(r, c, Rotation(tab, a, s), pixels, ldim));
      && (Classify(cas, tab, r, c, a, s, pixels, ldim) == Num(-1.0) <==>
           exists k :: 0 <= k < cas.ntrees && Scoring.RejectedAt(leaves, cas.thresh, k))
      && ((forall k :: 0 <= k < cas.ntrees ==> !Scoring.RejectedAt(leaves, cas.thresh, k)) ==>
           Classify(cas, tab, r, c, a, s, pixels, ldim)
             == if cas.ntrees == 0 then NaN else Num(Scoring.Total(leaves, cas.ntrees) - cas.thresh[cas.ntrees - 1]))
      && (Accepted(Classify(cas, tab, r, c, a, s, pixels, ldim)) <==>
           cas.ntrees > 0 && forall k :: 0 <= k < cas.ntrees ==> !Scoring.RejectedAt(leaves, cas.thresh, k))
  {
    Scoring.Outcome(Leaves(cas, Window(r, c, Rotation(tab, a, s), pixels, ldim)), cas.thresh);
  }

  /**
   * Where the angle is outside the tables, every test gives 1 and every tree
   * sends the window to its last leaf, 2^(d+1) - 1.
   */
  lemma {:induction false} UndefinedRotationTakesLastLeaf(cas: Cascade, w: Window, i: nat, idx: nat, j: nat)
    requires cas.WellFormed() && i < cas.ntrees && w.rot.None?
    requires j <= cas.tdepth && idx == 2 * Pow2(j) - 1
    ensures Descend(cas, w, i, idx, j) == 2 * Pow2(cas.tdepth) - 1
    decreases cas.tdepth - j
  {
    if j < cas.tdepth {
      Pow2Monotonic(j + 1, cas.tdepth);
      UndefinedRotationTakesLastLeaf(cas, w, i, 2 * idx + 1, j + 1);
    }
  }

  /** `classifyRegion` as src/index.js runs it: a loop over the trees, each walked by a loop over its levels. */
  method ClassifyRegion(cas: Cascade, tab: Tables, r: int, c: int, a: real, s: int, pixels: seq<byte>, ldim: int)
    returns (q: Score)
    requires cas.WellFormed() && tab.Valid()
    ensures q == Classify(cas, tab, r, c, a, s, pixels, ldim)
  {
    var pow2 := Pow2(cas.tdepth);
    var rr := ShiftLeft16(r);
    var cc := ShiftLeft16(c);
    var ai := ToInt32(Trunc(a));
    var defined := 0 <= ai < 360;
    var qsin := if defined then s * tab.qsin[ai] else 0;
    var qcos := if defined then s * tab.qcos[ai] else 0;
    ghost var w := Window(r, c, Rotation(tab, a, s), pixels, ldim);
    ghost var leaves := Leaves(cas, w);
    var o := 0.0;
    var i := 0;
    while i < cas.ntrees
      invariant 0 <= i <= cas.ntrees
      invariant Scoring.Eval(leaves, cas.thresh, 0, 0.0) == Scoring.Eval(leaves, cas.thresh, i, o)
    {
      TreeBlockInside(cas, i);
      var idx := WalkTree(cas, w, i, rr, cc, defined, qcos, qsin, pixels, ldim);
      assert pow2 * (i - 1) + idx == PredOffset(pow2, i, idx);
      assert cas.tpreds[pow2 * (i - 1) + idx] == leaves[i];
      o := o + cas.tpreds[pow2 * (i - 1) + idx];
      if o <= cas.thresh[i] {
        return Num(-1.0);
      }
      i := i + 1;
    }
    if cas.ntrees == 0 {
      return NaN;
    }
    return Num(o - cas.thresh[cas.ntrees - 1]);
  }

  /** The inner loop of `classifyRegion`: tree i walked from the root through `tdepth` tests. */
  method WalkTree(cas: Cascade, ghost w: Window, i: nat, rr: int, cc: int, defined: bool, qcos: int, qsin: int,
                  pixels: seq<byte>, ldim: int)
    returns (idx: nat)
    requires cas.WellFormed() && i < cas.ntrees
    requires defined ==> w.rot == Some((qcos, qsin))
    requires !defined ==> w.rot.None?
    requires rr == ShiftLeft16(w.r) && cc == ShiftLeft16(w.c) && w.pixels == pixels && w.ldim == ldim
    ensures idx == Descend(cas, w, i, 1, 0)
  {
    idx := 1;
    var j := 0;
    while j < cas.tdepth
      invariant 0 <= j <= cas.tdepth
      invariant Pow2(j) <= idx < 2 * Pow2(j)
      invariant Descend(cas, w, i, 1, 0) == Descend(cas, w, i, idx, j)
    {
      Pow2Monotonic(j + 1, cas.tdepth);
      var bit;
      if defined {
        bit := ProbeNode(cas, w, i, idx, rr, cc, qcos, qsin, pixels, ldim);
      } else {
        // the products are NaN: all four coordinates are 0 and both probes read the same pixel
        bit := 1;
      }
      idx := 2 * idx + bit;
      j := j + 1;
    }
  }

  /** One level of the walk: the four codes of node idx and the comparison of the two probed pixels. */
  method ProbeNode(cas: Cascade, ghost w: Window, i: nat, idx: nat, rr: int, cc: int, qcos: int, qsin: int,
                   pixels: seq<byte>, ldim: int)
    returns (bit: nat)
    requires cas.WellFormed() && i < cas.ntrees && 1 <= idx < Pow2(cas.tdepth)
    requires w.rot == Some((qcos, qsin)) && rr == ShiftLeft16(w.r) && cc == ShiftLeft16(w.c)
    requires w.pixels == pixels && w.ldim == ldim
    ensures bit == NodeTest(cas, w, i, idx)
  {
    TreeBlockInside(cas, i);
    var n := 4 * (Pow2(cas.tdepth) * i + idx);
    assert n == NodeOffset(Pow2(cas.tdepth), i, idx);
    var t0, t1, t2, t3 := cas.tcodes[n + 0], cas.tcodes[n + 1], cas.tcodes[n + 2], cas.tcodes[n + 3];
    bit := ProbeBit(rr, cc, qcos, qsin, t0, t1, t2, t3, pixels, ldim);
  }
}
