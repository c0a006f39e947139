/**
 * The cascade file layout, read the way both decoders read it: an 8-byte
 * preamble, the tree depth and the tree count as little-endian int32, then per
 * tree 4*2^d - 4 signed node bytes, 2^d float32 leaf predictions and one
 * float32 threshold (8*2^d bytes in all). Reading past the end of the buffer
 * gives 0, as `DataView.setUint8(k, undefined)` stores; the strict decoder
 * only ever reads inside the buffer, so for it the two agree.
 */
module CascadeLayout {
  import opened JsNumbers

  /** Size of the preamble plus the two header fields. */
  const HEADER_SIZE: int := 16

  /** The decoding of one little-endian float32 (IEEE-754 is not modelled: the caller supplies it). */
  type Float32Decoder = seq<byte> -> real

  datatype DecodeError =
    | Truncated          // a DataView read past the end of the buffer
    | UnsupportedDepth   // a depth field outside 0..30
    | NegativeTreeCount  // a typed array of negative length

  function ByteAt(bytes: seq<byte>, k: int): byte {
    if 0 <= k < |bytes| then bytes[k] else 0
  }

  function WordAt(bytes: seq<byte>, k: int): (w: seq<byte>)
    ensures |w| == 4
  {
    [ByteAt(bytes, k), ByteAt(bytes, k + 1), ByteAt(bytes, k + 2), ByteAt(bytes, k + 3)]
  }

  /** `getInt32(k, true)` of a DataView over the buffer. */
  function Int32At(bytes: seq<byte>, k: int): (v: int)
    ensures IsInt32(v)
  {
    Int32LE(ByteAt(bytes, k), ByteAt(bytes, k + 1), ByteAt(bytes, k + 2), ByteAt(bytes, k + 3))
  }

  function DepthField(bytes: seq<byte>): int {
    Int32At(bytes, 8)
  }

  function TreeCountField(bytes: seq<byte>): int {
    Int32At(bytes, 12)
  }

  /**
   * Byte offset of the record of tree t (the decoder's cursor when tree t
   * begins): each record is 8*2^d bytes long.
   */
  function TreeStart(pow2: nat, t: nat): (p: int)
    ensures p >= HEADER_SIZE
  {
    if t == 0 then HEADER_SIZE else TreeStart(pow2, t - 1) + 8 * pow2
  }

  /** The closed form of `TreeStart`. */
  lemma {:induction false} TreeStartClosedForm(pow2: nat, t: nat)
    ensures TreeStart(pow2, t) == HEADER_SIZE + 8 * pow2 * t
  {
    if t > 0 {
      TreeStartClosedForm(pow2, t - 1);
      assert 8 * pow2 * (t - 1) + 8 * pow2 == 8 * pow2 * t;
    }
  }

  /** Later trees start later. */
  lemma {:induction false} TreeStartMonotonic(pow2: nat, t: nat, u: nat)
    requires t <= u
    ensures TreeStart(pow2, t) <= TreeStart(pow2, u)
  {
    if t < u {
      TreeStartMonotonic(pow2, t, u - 1);
    }
  }

  /** Node codes of tree t as the strict decoder stores them: four zeros, then the signed bytes. */
  function TreeCodes(bytes: seq<byte>, pow2: nat, t: nat): (r: seq<int>)
    ensures |r| == 4 * pow2
  {
    seq(4 * pow2, k => if k < 4 then 0 else Int8(ByteAt(bytes, TreeStart(pow2, t) + k - 4)))
  }

  lemma TreeCodeAt(bytes: seq<byte>, pow2: nat, t: nat, k: nat)
    requires 4 <= k < 4 * pow2
    ensures TreeCodes(bytes, pow2, t)[k] == Int8(ByteAt(bytes, TreeStart(pow2, t) + k - 4))
  {
  }

  /** Leaf predictions of tree t. */
  function TreePreds(bytes: seq<byte>, f32: Float32Decoder, pow2: nat, t: nat): (r: seq<real>)
    ensures |r| == pow2
  {
    seq(pow2, i => f32(WordAt(bytes, TreeStart(pow2, t) + 4 * pow2 - 4 + 4 * i)))
  }

  lemma TreePredAt(bytes: seq<byte>, f32: Float32Decoder, pow2: nat, t: nat, i: nat)
    requires i < pow2
    ensures TreePreds(bytes, f32, pow2, t)[i] == f32(WordAt(bytes, TreeStart(pow2, t) + 4 * pow2 - 4 + 4 * i))
  {
  }

  /** Rejection threshold of tree t. */
  function TreeThreshold(bytes: seq<byte>, f32: Float32Decoder, pow2: nat, t: nat): real {
    f32(WordAt(bytes, TreeStart(pow2, t) + 8 * pow2 - 4))
  }

  /** One more tree adds one block of 4 * 2^d codes. */
  lemma NextCodeBlock(n: nat, pow2: nat)
    requires n > 0
    ensures (n - 1) * 4 * pow2 + 4 * pow2 == n * 4 * pow2
  {
  }

  /** The code blocks of the first k trees fit in those of n trees when k <= n. */
  lemma CodeBlocksFit(pow2: nat, k: nat, n: nat)
    requires k <= n
    ensures 4 * pow2 * k <= n * 4 * pow2
  {
    var m := n - k;
    assert n * 4 * pow2 == 4 * pow2 * k + 4 * pow2 * m;
  }

  /** `tcodes` of the first n trees. */
  function Codes(bytes: seq<byte>, pow2: nat, n: nat): seq<int>
  {
    if n == 0 then [] else Codes(bytes, pow2, n - 1) + TreeCodes(bytes, pow2, n - 1)
  }

  /** `tpreds` of the first n trees. */
  function Preds(bytes: seq<byte>, f32: Float32Decoder, pow2: nat, n: nat): seq<real>
  {
    if n == 0 then [] else Preds(bytes, f32, pow2, n - 1) + TreePreds(bytes, f32, pow2, n - 1)
  }

  /** `thresh` of the first n trees. */
  function Thresholds(bytes: seq<byte>, f32: Float32Decoder, pow2: nat, n: nat): (r: seq<real>)
    ensures |r| == n
  {
    seq(n, (t: nat) => TreeThreshold(bytes, f32, pow2, t))
  }

  lemma {:induction false} CodesLength(bytes: seq<byte>, pow2: nat, n: nat)
    ensures |Codes(bytes, pow2, n)| == n * 4 * pow2
  {
    if n > 0 {
      CodesLength(bytes, pow2, n - 1);
      NextCodeBlock(n, pow2);
    }
  }

  lemma {:induction false} PredsLength(bytes: seq<byte>, f32: Float32Decoder, pow2: nat, n: nat)
    ensures |Preds(bytes, f32, pow2, n)| == n * pow2
  {
    if n > 0 {
      PredsLength(bytes, f32, pow2, n - 1);
      assert (n - 1) * pow2 + pow2 == n * pow2;
    }
  }

  /** A word read inside the buffer is the buffer's own four bytes. */
  lemma WordInside(bytes: seq<byte>, p: int)
    requires 0 <= p && p + 4 <= |bytes|
    ensures WordAt(bytes, p) == bytes[p .. p + 4]
  {
  }

  /** The blocks of the first t trees are no longer than those of the first u >= t. */
  lemma {:induction false} CodesGrow(bytes: seq<byte>, f32: Float32Decoder, pow2: nat, t: nat, u: nat)
    requires t <= u
    ensures |Codes(bytes, pow2, t)| <= |Codes(bytes, pow2, u)|
    ensures |Preds(bytes, f32, pow2, t)| <= |Preds(bytes, f32, pow2, u)|
  {
    if t < u {
      CodesGrow(bytes, f32, pow2, t, u - 1);
    }
  }

  /** Entry k of tree t's block in `tcodes` is entry k of that tree's codes. */
  lemma {:induction false} CodesBlock(bytes: seq<byte>, pow2: nat, n: nat, t: nat, k: nat)
    requires t < n && k < 4 * pow2
    ensures t * 4 * pow2 + k < n * 4 * pow2 == |Codes(bytes, pow2, n)|
    ensures Codes(bytes, pow2, n)[t * 4 * pow2 + k] == TreeCodes(bytes, pow2, t)[k]
  {
    CodesLength(bytes, pow2, n - 1);
    CodesLength(bytes, pow2, n);
    if t < n - 1 {
      CodesBlock(bytes, pow2, n - 1, t, k);
    }
  }

  /** Entry i of tree t's block in `tpreds` is that tree's i-th prediction. */
  lemma {:induction false} PredsBlock(bytes: seq<byte>, f32: Float32Decoder, pow2: nat, n: nat, t: nat, i: nat)
    requires t < n && i < pow2
    ensures t * pow2 + i < n * pow2 == |Preds(bytes, f32, pow2, n)|
    ensures Preds(bytes, f32, pow2, n)[t * pow2 + i] == TreePreds(bytes, f32, pow2, t)[i]
  {
    PredsLength(bytes, f32, pow2, n - 1);
    PredsLength(bytes, f32, pow2, n);
    if t < n - 1 {
      PredsBlock(bytes, f32, pow2, n - 1, t, i);
    }
  }

  /** Within a buffer long enough for n trees, tree t's record lies inside the buffer. */
  lemma TreeRecordInside(bytes: seq<byte>, pow2: nat, n: nat, t: nat)
    requires t < n && |bytes| >= TreeStart(pow2, n)
    ensures 0 <= TreeStart(pow2, t) && TreeStart(pow2, t) + 8 * pow2 <= |bytes|
  {
    TreeStartMonotonic(pow2, t + 1, n);
  }

  /** Within a buffer long enough for n trees, tree t's block of codes is four zeros and its node bytes as int8. */
  lemma TreeCodesInBuffer(bytes: seq<byte>, pow2: nat, n: nat, t: nat, k: nat)
    requires t < n && k < 4 * pow2
    requires |bytes| >= TreeStart(pow2, n)
    ensures TreeStart(pow2, t) + 8 * pow2 <= |bytes|
    ensures t * 4 * pow2 + k < |Codes(bytes, pow2, n)|
    ensures Codes(bytes, pow2, n)[t * 4 * pow2 + k] == (if k < 4 then 0 else Int8(bytes[TreeStart(pow2, t) + k - 4]))
  {
    TreeRecordInside(bytes, pow2, n, t);
    CodesBlock(bytes, pow2, n, t, k);
  }

  /** Within a buffer long enough for n trees, tree t's i-th prediction is the float32 at its place in the record. */
  lemma TreePredsInBuffer(bytes: seq<byte>, f32: Float32Decoder, pow2: nat, n: nat, t: nat, i: nat)
    requires t < n && i < pow2
    requires |bytes| >= TreeStart(pow2, n)
    ensures TreeStart(pow2, t) + 8 * pow2 <= |bytes|
    ensures t * pow2 + i < |Preds(bytes, f32, pow2, n)|
    ensures Preds(bytes, f32, pow2, n)[t * pow2 + i]
         == f32(bytes[TreeStart(pow2, t) + 4 * pow2 - 4 + 4 * i .. TreeStart(pow2, t) + 4 * pow2 + 4 * i])
  {
    TreeRecordInside(bytes, pow2, n, t);
    var w := TreeStart(pow2, t) + 4 * pow2 - 4 + 4 * i;
    assert 0 <= w && w + 4 <= |bytes|;
    WordInside(bytes, w);
    assert TreePreds(bytes, f32, pow2, t)[i] == f32(bytes[w .. w + 4]);
    PredsBlock(bytes, f32, pow2, n, t, i);
  }

  /** Within a buffer long enough for n trees, tree t's threshold is the float32 that closes its record. */
  lemma TreeThresholdInBuffer(bytes: seq<byte>, f32: Float32Decoder, pow2: nat, n: nat, t: nat)
    requires t < n
    requires |bytes| >= TreeStart(pow2, n)
    ensures TreeStart(pow2, t) + 8 * pow2 <= |bytes|
    ensures Thresholds(bytes, f32, pow2, n)[t] == f32(bytes[TreeStart(pow2, t) + 8 * pow2 - 4 .. TreeStart(pow2, t) + 8 * pow2])
  {
    TreeRecordInside(bytes, pow2, n, t);
    WordInside(bytes, TreeStart(pow2, t) + 8 * pow2 - 4);
  }
}
