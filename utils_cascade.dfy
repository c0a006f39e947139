/**
 * Cascade decoding of src/utils.js: the same file layout as the strict
 * decoder, but read into growing lists. Every DataView read of a byte past
 * the end of the buffer stores 0, and the node bytes of a tree come from
 * `bytes.slice`, which stops at the end of the buffer, so a short buffer
 * never fails: it decodes to zero-filled predictions and thresholds and to
 * a `tcodes` list that may be shorter than the header promises.
 */
module UtilsCascade {
  import opened JsNumbers
  import opened Wrappers
  import opened CascadeLayout
  import opened IndexCascade

  /**
   * A cascade the lenient classifier can run: a supported depth, 2^d leaf
   * predictions and one threshold per tree. `tcodes` may be short.
   */
  predicate Loaded(c: Cascade) {
    c.tdepth <= 30 && |c.tpreds| == c.ntrees * Pow2(c.tdepth) && |c.thresh| == c.ntrees
  }

  /** A cascade of the strict decoder is one the lenient classifier can run. */
  lemma WellFormedIsLoaded(c: Cascade)
    requires c.WellFormed()
    ensures Loaded(c)
  {
  }

  /** The trees the loop `for (t = 0; t < ntrees; ++t)` reads: none for a negative count. */
  function TreeLoopCount(bytes: seq<byte>): (n: nat)
    ensures TreeCountField(bytes) >= 0 ==> n == TreeCountField(bytes)
    ensures TreeCountField(bytes) < 0 ==> n == 0
  {
    if TreeCountField(bytes) > 0 then TreeCountField(bytes) else 0
  }

  /** How many elements `bytes.slice(p, p + len)` has: the slice stops at the end of the buffer. */
  function SliceLength(size: nat, p: nat, len: nat): (k: nat)
    ensures k <= len
    ensures p + len <= size ==> k == len
    ensures p + k <= size || k == 0
  {
    if p + len <= size then len else if p < size then size - p else 0
  }

  /** The codes appended for tree t: four zeros, then the signed bytes of the clamped slice at the cursor. */
  function SlicedCodes(bytes: seq<byte>, pow2: nat, t: nat): (r: seq<int>)
    requires pow2 >= 1
    ensures 4 <= |r| <= 4 * pow2
  {
    var p := TreeStart(pow2, t);
    [0, 0, 0, 0] + seq(SliceLength(|bytes|, p, 4 * pow2 - 4), k => Int8(ByteAt(bytes, p + k)))
  }

  /** `tcodes` after the first n trees. */
  function SlicedCodesUpTo(bytes: seq<byte>, pow2: nat, n: nat): seq<int>
    requires pow2 >= 1
  {
    if n == 0 then [] else SlicedCodesUpTo(bytes, pow2, n - 1) + SlicedCodes(bytes, pow2, n - 1)
  }

  /** What `unpackCascade` of src/utils.js reads; it never fails. */
  function Decode(bytes: seq<byte>, f32: Float32Decoder): (c: Cascade)
    requires 0 <= DepthField(bytes) <= 30
    ensures Loaded(c)
    ensures c.tdepth == DepthField(bytes) && c.ntrees == TreeLoopCount(bytes)
  {
    var d := DepthField(bytes);
    var n := TreeLoopCount(bytes);
    PredsLength(bytes, f32, Pow2(d), n);
    Cascade(d, n, SlicedCodesUpTo(bytes, Pow2(d), n), Preds(bytes, f32, Pow2(d), n), Thresholds(bytes, f32, Pow2(d), n))
  }

  /** Each tree adds between 4 and 4*2^d codes, exactly 4*2^d when its node bytes are all in the buffer. */
  lemma {:induction false} SlicedCodesLength(bytes: seq<byte>, pow2: nat, n: nat)
    requires pow2 >= 1
    ensures 4 * n <= |SlicedCodesUpTo(bytes, pow2, n)| <= n * 4 * pow2
    ensures |bytes| >= TreeStart(pow2, n) ==> |SlicedCodesUpTo(bytes, pow2, n)| == n * 4 * pow2
  {
    if n > 0 {
      SlicedCodesLength(bytes, pow2, n - 1);
      NextCodeBlock(n, pow2);
      if |bytes| >= TreeStart(pow2, n) {
        TreeStartMonotonic(pow2, n - 1, n);
      }
    }
  }

  /** When the node bytes of tree t are inside the buffer, the slice is the whole block of the strict decoder. */
  lemma SlicedCodesComplete(bytes: seq<byte>, pow2: nat, t: nat)
    requires pow2 >= 1 && |bytes| >= TreeStart(pow2, t) + 4 * pow2 - 4
    ensures SlicedCodes(bytes, pow2, t) == TreeCodes(bytes, pow2, t)
  {
    var a := SlicedCodes(bytes, pow2, t);
    var b := TreeCodes(bytes, pow2, t);
    forall k | 0 <= k < 4 * pow2
      ensures a[k] == b[k]
    {
      if k >= 4 {
        assert a[k] == Int8(ByteAt(bytes, TreeStart(pow2, t) + (k - 4)));
      }
    }
  }

  /** On a buffer that holds every tree record, `tcodes` is that of the strict decoder. */
  lemma {:induction false} SlicedCodesUpToComplete(bytes: seq<byte>, pow2: nat, n: nat)
    requires pow2 >= 1 && |bytes| >= TreeStart(pow2, n)
    ensures SlicedCodesUpTo(bytes, pow2, n) == Codes(bytes, pow2, n)
  {
    if n > 0 {
      TreeStartMonotonic(pow2, n - 1, n);
      SlicedCodesUpToComplete(bytes, pow2, n - 1);
      SlicedCodesComplete(bytes, pow2, n - 1);
    }
  }

  /** Where the strict decoder of src/index.js succeeds, both decoders read the same cascade. */
  lemma AgreesWithStrictDecoder(bytes: seq<byte>, f32: Float32Decoder)
    requires IndexCascade.Decode(bytes, f32).Success?
    ensures Decode(bytes, f32) == IndexCascade.Decode(bytes, f32).value
  {
    var d := DepthField(bytes);
    SlicedCodesUpToComplete(bytes, Pow2(d), TreeCountField(bytes));
  }

  /** A buffer that is only the 16-byte header of one tree of depth 0. */
  const HEADER_ONLY: seq<byte> := [0, 0, 0, 0, 0, 0, 0, 0, 0, 0, 0, 0, 1, 0, 0, 0]

  lemma HeaderOnlyFields()
    ensures |HEADER_ONLY| == HEADER_SIZE
    ensures DepthField(HEADER_ONLY) == 0 && TreeCountField(HEADER_ONLY) == 1
  {
    var b := HEADER_ONLY;
    assert ByteAt(b, 8) == 0 && ByteAt(b, 9) == 0 && ByteAt(b, 10) == 0 && ByteAt(b, 11) == 0;
    assert ByteAt(b, 12) == 1 && ByteAt(b, 13) == 0 && ByteAt(b, 14) == 0 && ByteAt(b, 15) == 0;
    assert Int32LE(0, 0, 0, 0) == ToInt32(0);
    assert Int32LE(1, 0, 0, 0) == ToInt32(1);
  }

  /**
   * A buffer that ends with its header while the header announces one tree of
   * depth 0 (as `HEADER_ONLY` does): the strict decoder of src/index.js
   * throws, the lenient one reads a tree whose node codes are the four
   * placeholder zeros and whose prediction and threshold are the float32 of
   * four zero bytes.
   */
  lemma HeaderOnlyBuffer(bytes: seq<byte>, f32: Float32Decoder)
    requires |bytes| == HEADER_SIZE && DepthField(bytes) == 0 && TreeCountField(bytes) == 1
    ensures IndexCascade.Decode(bytes, f32) == Failure(Truncated)
    ensures Decode(bytes, f32) == Cascade(0, 1, [0, 0, 0, 0], [f32([0, 0, 0, 0])], [f32([0, 0, 0, 0])])
  {
    assert TreeStart(1, 1) == 24 && TreeStart(1, 0) == 16;
    assert Pow2(0) == 1;
    assert SliceLength(16, 16, 0) == 0;
    assert SlicedCodes(bytes, 1, 0) == [0, 0, 0, 0];
    assert SlicedCodesUpTo(bytes, 1, 1) == [] + SlicedCodes(bytes, 1, 0);
    assert WordAt(bytes, 16) == [0, 0, 0, 0];
    assert WordAt(bytes, 20) == [0, 0, 0, 0];
    assert TreePreds(bytes, f32, 1, 0) == [f32([0, 0, 0, 0])];
    assert Preds(bytes, f32, 1, 1) == [] + TreePreds(bytes, f32, 1, 0);
    assert TreeThreshold(bytes, f32, 1, 0) == f32([0, 0, 0, 0]);
  }

  /** What one pass of the tree loop appends, and where the cursor of the next tree starts. */
  lemma TreeLoopStep(bytes: seq<byte>, f32: Float32Decoder, pow2: nat, t: nat)
    requires pow2 >= 1
    ensures SlicedCodesUpTo(bytes, pow2, t + 1) == SlicedCodesUpTo(bytes, pow2, t) + SlicedCodes(bytes, pow2, t)
    ensures Preds(bytes, f32, pow2, t + 1) == Preds(bytes, f32, pow2, t) + TreePreds(bytes, f32, pow2, t)
    ensures Thresholds(bytes, f32, pow2, t + 1)
      == Thresholds(bytes, f32, pow2, t) + [f32(WordAt(bytes, TreeStart(pow2, t) + 8 * pow2 - 4))]
    ensures TreeStart(pow2, t + 1) == TreeStart(pow2, t) + 8 * pow2
  {
    assert Thresholds(bytes, f32, pow2, t + 1)[t] == TreeThreshold(bytes, f32, pow2, t);
  }

  /** `unpackCascade(bytes)` of src/utils.js: the cursor p and the three lists the tree loop pushes to. */
  method UnpackCascade(bytes: seq<byte>, f32: Float32Decoder) returns (c: Cascade)
    requires 0 <= DepthField(bytes) <= 30
    ensures c == Decode(bytes, f32)
  {
    var p := 8;
    var tdepth := Int32At(bytes, p);
    var pow2 := Pow2(tdepth);
    p := p + 4;
    var ntrees := Int32At(bytes, p);
    p := p + 4;
    var tcodes: seq<int> := [];
    var tpreds: seq<real> := [];
    var thresh: seq<real> := [];
    var t := 0;
    while t < ntrees
      invariant 0 <= t <= TreeLoopCount(bytes)
      invariant p == TreeStart(pow2, t)
      invariant tcodes == SlicedCodesUpTo(bytes, pow2, t)
      invariant tpreds == Preds(bytes, f32, pow2, t)
      invariant thresh == Thresholds(bytes, f32, pow2, t)
      decreases ntrees - t
    {
      TreeLoopStep(bytes, f32, pow2, t);
      var codes := SliceCodes(bytes, pow2, t, p);
      tcodes := tcodes + codes;
      p := p + 4 * pow2 - 4;
      var preds := ReadLeaves(bytes, f32, pow2, t, p);
      tpreds := tpreds + preds;
      p := p + 4 * pow2;
      thresh := thresh + [f32(WordAt(bytes, p))];
      p := p + 4;
      t := t + 1;
    }
    c := Cascade(tdepth, TreeLoopCount(bytes), tcodes, tpreds, thresh);
  }

  /** `push(0, 0, 0, 0)` and `push(...bytes.slice(p, p + 4*2^d - 4))` for tree t. */
  method SliceCodes(bytes: seq<byte>, pow2: nat, t: nat, p: nat) returns (codes: seq<int>)
    requires pow2 >= 1 && p == TreeStart(pow2, t)
    ensures codes == SlicedCodes(bytes, pow2, t)
  {
    var len := SliceLength(|bytes|, p, 4 * pow2 - 4);
    codes := [0, 0, 0, 0];
    var k := 0;
    while k < len
      invariant 0 <= k <= len
      invariant codes == SlicedCodes(bytes, pow2, t)[..4 + k]
    {
      assert SlicedCodes(bytes, pow2, t)[4 + k] == Int8(ByteAt(bytes, p + k));
      codes := codes + [Int8(bytes[p + k])];
      k := k + 1;
    }
    assert SlicedCodes(bytes, pow2, t)[..4 + len] == SlicedCodes(bytes, pow2, t);
  }

  /** The leaf loop of tree t: 2^d float32 words from the cursor, missing bytes read as 0. */
  method ReadLeaves(bytes: seq<byte>, f32: Float32Decoder, pow2: nat, t: nat, p0: nat) returns (preds: seq<real>)
    requires pow2 >= 1 && p0 == TreeStart(pow2, t) + 4 * pow2 - 4
    ensures preds == TreePreds(bytes, f32, pow2, t)
  {
    preds := [];
    var p := p0;
    var i := 0;
    while i < pow2
      invariant 0 <= i <= pow2
      invariant p == p0 + 4 * i
      invariant preds == TreePreds(bytes, f32, pow2, t)[..i]
    {
      preds := preds + [f32(WordAt(bytes, p))];
      p := p + 4;
      i := i + 1;
    }
  }
}
