/**
 * `classifyRegion` of src/utils.js: the same tree walk and early rejection
 * as in src/index.js, but with real-valued sine and cosine tables and a
 * real window size, so the probe coordinates are truncated by `>> 16`; a
 * node code missing from a short `tcodes` or an angle outside the tables
 * makes the coordinates NaN, which `>> 16` turns into 0; and a pixel read
 * outside the image is `undefined`, with which `<=` is false.
 */
module UtilsClassifier {
  import opened JsNumbers
  import opened Wrappers
  import opened Detections
  import opened IndexCascade
  import CascadeLayout
  import Scoring
  import opened UtilsCascade

  /** `qcostable` and `qsintable`: 256*cos and 256*sin of each whole degree (supplied by the caller). */
  datatype RealTables = RealTables(qcos: seq<real>, qsin: seq<real>)
  {
    predicate Valid() {
      |qcos| == 360 && |qsin| == 360
    }
  }

  /** `s * qcostable[a | 0]` and `s * qsintable[a | 0]`, None where they are NaN (an angle outside the tables). */
  function Rotation(tab: RealTables, a: real, s: real): (rot: Option<(real, real)>)
    requires tab.Valid()
    ensures rot.Some? <==> 0 <= ToInt32(Trunc(a)) < 360
  {
    var ai := ToInt32(Trunc(a));
    if 0 <= ai < 360 then Some((s * tab.qcos[ai], s * tab.qsin[ai])) else None
  }

  /** `a | 0` drops the fraction: a non-negative angle selects the same table row as its whole degrees. */
  lemma WholeDegrees(tab: RealTables, a: real, s: real)
    requires tab.Valid() && a >= 0.0
    ensures Rotation(tab, a, s) == Rotation(tab, a.Floor as real, s)
  {
    var d := a.Floor as real;
    assert d.Floor == a.Floor;
    assert Trunc(a) == Trunc(d);
    var ai := ToInt32(Trunc(a));
    if 0 <= ai < 360 {
      var x, y := Rotation(tab, a, s), Rotation(tab, d, s);
      assert x.Some? && y.Some?;
      assert x.value.0 == s * tab.qcos[ai] == y.value.0;
      assert x.value.1 == s * tab.qsin[ai] == y.value.1;
    }
  }

  /** The window a classifier call examines: centre (r, c), its rotation, and the image with its row length. */
  datatype Window = Window(r: int, c: int, rot: Option<(real, real)>, pixels: seq<byte>, ldim: int)

  /** `tcodes[n]`: undefined (None) past the end of the list. */
  function CodeAt(tcodes: seq<int>, n: int): Option<int> {
    if 0 <= n < |tcodes| then Some(tcodes[n]) else None
  }

  /** `x >> 16` of a number: ToInt32 truncates it toward zero first. */
  function Fixed(x: real): int {
    ShiftRight16(Trunc(x))
  }

  /**
   * One probe point of a node, from the two codes (u, v) of the pair:
   * `((r << 16) + qcos*u - qsin*v) >> 16` and `((c << 16) + qsin*u + qcos*v) >> 16`.
   * When the rotation or a code is missing both sums are NaN and both coordinates 0.
   */
  function Probe(w: Window, u: Option<int>, v: Option<int>): (p: (int, int))
  {
    if w.rot.None? || u.None? || v.None? then (0, 0)
    else
      var (qcos, qsin) := w.rot.value;
      var rr, cc := ShiftLeft16(w.r) as real, ShiftLeft16(w.c) as real;
      (Fixed(rr + qcos * u.value as real - qsin * v.value as real),
       Fixed(cc + qsin * u.value as real + qcos * v.value as real))
  }

  /** `pixels[k1] <= pixels[k2]` as a number: 0 when either read is outside the image. */
  function Compare(pixels: seq<byte>, k1: int, k2: int): (bit: nat)
    ensures bit <= 1
    ensures bit == 1 <==> 0 <= k1 < |pixels| && 0 <= k2 < |pixels| && pixels[k1] <= pixels[k2]
  {
    if 0 <= k1 < |pixels| && 0 <= k2 < |pixels| && pixels[k1] <= pixels[k2] then 1 else 0
  }

  /** Where node idx of tree i starts: `root + 4 * idx` with `root = 4 * 2^d * i`. */
  function NodeAt(pow2: nat, i: nat, idx: nat): (n: nat)
    requires 1 <= idx < pow2
    ensures 4 * pow2 * i + 4 <= n && n + 4 <= 4 * pow2 * (i + 1)
  {
    assert 4 * pow2 * (i + 1) == 4 * pow2 * i + 4 * pow2;
    4 * pow2 * i + 4 * idx
  }

  /** Where leaf `leaf` of tree i sits in `tpreds`, `2^d * i + leaf - 2^d`: inside tree i's block. */
  function LeafAt(pow2: nat, i: nat, leaf: nat): (k: nat)
    requires pow2 <= leaf < 2 * pow2
    ensures pow2 * i <= k < pow2 * (i + 1)
    ensures k - pow2 * i == leaf - pow2
  {
    assert pow2 * (i + 1) == pow2 * i + pow2;
    pow2 * i + leaf - pow2
  }

  /** Tree i's block of predictions lies inside `tpreds`. */
  lemma PredBlockInside(cas: Cascade, i: nat)
    requires Loaded(cas) && i < cas.ntrees
    ensures Pow2(cas.tdepth) * (i + 1) <= |cas.tpreds|
  {
    var pow2 := Pow2(cas.tdepth);
    BlocksFit(pow2, i + 1, cas.ntrees);
  }

  /** The test at node idx of tree i: 1 when the first probed pixel is no brighter than the second. */
  function NodeTest(cas: Cascade, w: Window, i: nat, idx: nat): (bit: nat)
    requires Loaded(cas) && 1 <= idx < Pow2(cas.tdepth)
    ensures bit <= 1
  {
    var n := NodeAt(Pow2(cas.tdepth), i, idx);
    NodeBit(w, CodeAt(cas.tcodes, n), CodeAt(cas.tcodes, n + 1), CodeAt(cas.tcodes, n + 2), CodeAt(cas.tcodes, n + 3))
  }

  /** The test of a node with codes t0..t3: compare the pixels at the two probe points. */
  function NodeBit(w: Window, t0: Option<int>, t1: Option<int>, t2: Option<int>, t3: Option<int>): (bit: nat)
    ensures bit <= 1
  {
    var (r1, c1) := Probe(w, t0, t1);
    var (r2, c2) := Probe(w, t2, t3);
    Compare(w.pixels, r1 * w.ldim + c1, r2 * w.ldim + c2)
  }

  /** The walk down tree i from node idx at level j: the leaf it reaches, in heap numbering. */
  function Descend(cas: Cascade, w: Window, i: nat, idx: nat, j: nat): (leaf: nat)
    requires Loaded(cas)
    requires j <= cas.tdepth && Pow2(j) <= idx < 2 * Pow2(j)
    ensures Pow2(cas.tdepth) <= leaf < 2 * Pow2(cas.tdepth)
    decreases cas.tdepth - j
  {
    if j == cas.tdepth then idx
    else
      Pow2Monotonic(j + 1, cas.tdepth);
      Descend(cas, w, i, 2 * idx + NodeTest(cas, w, i, idx), j + 1)
  }

  /** The prediction of the leaf the window reaches in tree i. */
  function LeafValue(cas: Cascade, w: Window, i: nat): real
    requires Loaded(cas) && i < cas.ntrees
  {
    PredBlockInside(cas, i);
    cas.tpreds[LeafAt(Pow2(cas.tdepth), i, Descend(cas, w, i, 1, 0))]
  }

  /** The prediction of the leaf the window reaches, tree by tree. */
  function Leaves(cas: Cascade, w: Window): (leaves: seq<real>)
    requires Loaded(cas)
    ensures |leaves| == cas.ntrees
  {
    seq(cas.ntrees, k requires 0 <= k < cas.ntrees => LeafValue(cas, w, k))
  }

  /** `classifyRegion(r, c, a, s, pixels, ldim)` of src/utils.js. */
  function Classify(cas: Cascade, tab: RealTables, r: int, c: int, a: real, s: real, pixels: seq<byte>, ldim: int): Score
    requires Loaded(cas) && tab.Valid()
  {
    Scoring.Eval(Leaves(cas, Window(r, c, Rotation(tab, a, s), pixels, ldim)), cas.thresh, 0, 0.0)
  }

  /**
   * What the classifier returns: -1 exactly when some tree's running sum
   * falls to its threshold; otherwise the final sum less the last threshold,
   * which is then positive; NaN for a cascade without trees.
   */
  lemma ClassifyOutcome(cas: Cascade, tab: RealTables, r: int, c: int, a: real, s: real, pixels: seq<byte>, ldim: int)
    requires Loaded(cas) && tab.Valid()
    ensures var leaves := Leaves(cas, Window(r, c, Rotation(tab, a, s), pixels, ldim));
      && (Classify(cas, tab, r, c, a, s, pixels, ldim) == Num(-1.0) <==>
           exists k :: 0 <= k < cas.ntrees && Scoring.RejectedAt(leaves, cas.thresh, k))
      && ((forall k :: 0 <= k < cas.ntrees ==> !Scoring.RejectedAt(leaves, cas.thresh, k)) ==>
           Classify(cas, tab, r, c, a, s, pixels, ldim)
             == if cas.ntrees == 0 then NaN else Num(Scoring.Total(leaves, cas.ntrees) - cas.thresh[cas.ntrees - 1]))
      && (Accepted(Classify(cas, tab, r, c, a, s, pixels, ldim)) <==>
           cas.ntrees > 0 && forall k :: 0 <= k < cas.ntrees ==> !Scoring.RejectedAt(leaves, cas.thresh, k))
  {
    Scoring.Outcome(Leaves(cas, Window(r, c, Rotation(tab, a, s), pixels, ldim)), cas.thresh);
  }

  /**
   * The node offsets `root + 4 * idx` of src/utils.js and `4 * (2^d * i + idx)`
   * of src/index.js are the same place, and so are the leaf offsets
   * `2^d * i + idx - 2^d` and `2^d * (i - 1) + idx`.
   */
  lemma SameOffsetsAsIndex(pow2: nat, i: nat, idx: nat, leaf: nat)
    requires 1 <= idx < pow2 && pow2 <= leaf < 2 * pow2
    ensures NodeAt(pow2, i, idx) == 4 * (pow2 * i + idx)
    ensures LeafAt(pow2, i, leaf) == pow2 * (i - 1) + leaf
  {
  }

  /** Where `tcodes` holds every block, the four node codes a test reads are all defined. */
  lemma CodesDefined(cas: Cascade, i: nat, idx: nat)
    requires Loaded(cas) && |cas.tcodes| == cas.ntrees * 4 * Pow2(cas.tdepth)
    requires i < cas.ntrees && 1 <= idx < Pow2(cas.tdepth)
    ensures NodeAt(Pow2(cas.tdepth), i, idx) + 4 <= |cas.tcodes|
  {
    var pow2 := Pow2(cas.tdepth);
    CascadeLayout.CodeBlocksFit(pow2, i + 1, cas.ntrees);
  }

  /**
   * Where a node's codes are missing (a short `tcodes`), its test probes
   * pixel 0 twice and gives 1 whenever the image is not empty.
   */
  lemma MissingCodesProbeOrigin(cas: Cascade, w: Window, i: nat, idx: nat)
    requires Loaded(cas) && 1 <= idx < Pow2(cas.tdepth)
    requires NodeAt(Pow2(cas.tdepth), i, idx) >= |cas.tcodes|
    ensures NodeTest(cas, w, i, idx) == if |w.pixels| > 0 then 1 else 0
  {
  }

  /** `classifyRegion` as src/utils.js runs it: `root` advances by a tree block per tree. */
  method ClassifyRegion(cas: Cascade, tab: RealTables, r: int, c: int, a: real, s: real, pixels: seq<byte>, ldim: int)
    returns (q: Score)
    requires Loaded(cas) && tab.Valid()
    ensures q == Classify(cas, tab, r, c, a, s, pixels, ldim)
  {
    // `a | 0`, `s * qsintable[a]` and `s * qcostable[a]`
    var rot := Rotation(tab, a, s);
    q := SumTrees(cas, Window(r, c, rot, pixels, ldim));
  }

  /** The tree loop of `classifyRegion` over window w: the running sum, the early rejection and the final score. */
  method SumTrees(cas: Cascade, w: Window) returns (q: Score)
    requires Loaded(cas)
    ensures q == Scoring.Eval(Leaves(cas, w), cas.thresh, 0, 0.0)
  {
    var pow2 := Pow2(cas.tdepth);
    ghost var leaves := Leaves(cas, w);
    var root: nat := 0;
    var o := 0.0;
    var i: nat := 0;
    while i < cas.ntrees
      invariant i <= cas.ntrees
      invariant root == 4 * pow2 * i
      invariant Scoring.Eval(leaves, cas.thresh, 0, 0.0) == Scoring.Eval(leaves, cas.thresh, i, o)
    {
      o := AddTree(cas, w, i, root, o);
      if o <= cas.thresh[i] {
        return Num(-1.0);
      }
      assert 4 * pow2 * (i + 1) == 4 * pow2 * i + 4 * pow2;
      root := root + 4 * pow2;
      i := i + 1;
    }
    if cas.ntrees == 0 {
      return NaN;
    }
    return Num(o - cas.thresh[cas.ntrees - 1]);
  }

  /**
   * `o = o + tpreds[...]` for tree i: the sum after tree i, with which the
   * evaluation from tree i either rejects or goes on to tree i + 1.
   */
  method AddTree(cas: Cascade, w: Window, i: nat, root: nat, o: real) returns (o': real)
    requires Loaded(cas) && i < cas.ntrees && root == 4 * Pow2(cas.tdepth) * i
    ensures o' == o + Leaves(cas, w)[i]
    ensures Scoring.Eval(Leaves(cas, w), cas.thresh, i, o)
         == if o' <= cas.thresh[i] then Num(-1.0) else Scoring.Eval(Leaves(cas, w), cas.thresh, i + 1, o')
  {
    var p := TreePrediction(cas, w, i, root);
    Scoring.EvalStep(Leaves(cas, w), cas.thresh, i, o);
    o' := o + p;
  }

  /** Tree i: the walk from its root and the prediction read at the leaf reached. */
  method TreePrediction(cas: Cascade, w: Window, i: nat, root: nat) returns (p: real)
    requires Loaded(cas) && i < cas.ntrees && root == 4 * Pow2(cas.tdepth) * i
    ensures p == Leaves(cas, w)[i]
  {
    var pow2 := Pow2(cas.tdepth);
    var idx := WalkTree(cas, w, i, root);
    LeafStep(cas, w, i, idx);
    p := cas.tpreds[pow2 * i + idx - pow2];
  }

  /** The prediction the loop reads for tree i, at the leaf the walk reached, is the tree's entry of `Leaves`. */
  lemma LeafStep(cas: Cascade, w: Window, i: nat, idx: nat)
    requires Loaded(cas) && i < cas.ntrees && idx == Descend(cas, w, i, 1, 0)
    ensures 0 <= Pow2(cas.tdepth) * i + idx - Pow2(cas.tdepth) < |cas.tpreds|
    ensures cas.tpreds[Pow2(cas.tdepth) * i + idx - Pow2(cas.tdepth)] == Leaves(cas, w)[i]
  {
    PredBlockInside(cas, i);
    assert Pow2(cas.tdepth) * i + idx - Pow2(cas.tdepth) == LeafAt(Pow2(cas.tdepth), i, idx);
  }

  lemma DescendStep(cas: Cascade, w: Window, i: nat, idx: nat, j: nat)
    requires Loaded(cas)
    requires j < cas.tdepth && Pow2(j) <= idx < 2 * Pow2(j) && idx < Pow2(cas.tdepth)
    ensures Pow2(j + 1) <= 2 * idx + NodeTest(cas, w, i, idx) < 2 * Pow2(j + 1)
    ensures Descend(cas, w, i, idx, j) == Descend(cas, w, i, 2 * idx + NodeTest(cas, w, i, idx), j + 1)
  {
    Pow2Monotonic(j + 1, cas.tdepth);
  }

  /** One pass of the inner loop: the four codes at `root + 4 * idx` and the pixel test of node idx of tree i. */
  method TestNode(cas: Cascade, w: Window, i: nat, idx: nat, root: nat) returns (bit: nat)
    requires Loaded(cas) && 1 <= idx < Pow2(cas.tdepth) && root == 4 * Pow2(cas.tdepth) * i
    ensures bit == NodeTest(cas, w, i, idx)
  {
    var n := root + 4 * idx;
    assert n == NodeAt(Pow2(cas.tdepth), i, idx);
    var t0, t1 := CodeAt(cas.tcodes, n + 0), CodeAt(cas.tcodes, n + 1);
    var t2, t3 := CodeAt(cas.tcodes, n + 2), CodeAt(cas.tcodes, n + 3);
    bit := NodeBit(w, t0, t1, t2, t3);
  }

  /** The inner loop: tree i walked from the root through `tdepth` tests. */
  method WalkTree(cas: Cascade, w: Window, i: nat, root: nat) returns (idx: nat)
    requires Loaded(cas) && root == 4 * Pow2(cas.tdepth) * i
    ensures idx == Descend(cas, w, i, 1, 0)
  {
    idx := 1;
    var j := 0;
    while j < cas.tdepth
      invariant 0 <= j <= cas.tdepth
      invariant Pow2(j) <= idx < 2 * Pow2(j)
      invariant Descend(cas, w, i, 1, 0) == Descend(cas, w, i, idx, j)
    {
      Pow2Monotonic(j + 1, cas.tdepth);
      DescendStep(cas, w, i, idx, j);
      var bit := TestNode(cas, w, i, idx, root);
      idx := 2 * idx + bit;
      j := j + 1;
    }
  }
}
