/**
 * Cascade decoding of src/index.js: typed arrays sized from the header, the
 * node bytes of each tree copied behind four zeros, and every float read
 * through a DataView that throws when it would run past the buffer.
 */
module IndexCascade {
  import opened JsNumbers
  import opened Wrappers
  import opened CascadeLayout

  /** The decoded ensemble: flat `tcodes`, `tpreds` and `thresh`. */
  datatype Cascade = Cascade(tdepth: nat, ntrees: nat, tcodes: seq<int>, tpreds: seq<real>, thresh: seq<real>)
  {
    predicate WellFormed() {
      && tdepth <= 30
      && |tcodes| == ntrees * 4 * Pow2(tdepth)
      && |tpreds| == ntrees * Pow2(tdepth)
      && |thresh| == ntrees
    }
  }

  /** Number of bytes the header promises. */
  function RequiredLength(tdepth: nat, ntrees: nat): int {
    TreeStart(Pow2(tdepth), ntrees)
  }

  /** What `unpackCascade` produces, or the error it throws. */
  function Decode(bytes: seq<byte>, f32: Float32Decoder): (r: Result<Cascade, DecodeError>)
    ensures r.Success? ==> r.value.WellFormed()
    ensures r.Success? <==>
      && |bytes| >= HEADER_SIZE
      && 0 <= DepthField(bytes) <= 30
      && TreeCountField(bytes) >= 0
      && |bytes| >= RequiredLength(DepthField(bytes), TreeCountField(bytes))
  {
    if |bytes| < HEADER_SIZE then Failure(Truncated)
    else
      var d := DepthField(bytes);
      if d < 0 || d > 30 then Failure(UnsupportedDepth)
      else
        var n := TreeCountField(bytes);
        if n < 0 then Failure(NegativeTreeCount)
        else if |bytes| < RequiredLength(d, n) then Failure(Truncated)
        else
          var pow2 := Pow2(d);
          CodesLength(bytes, pow2, n);
          PredsLength(bytes, f32, pow2, n);
          Success(Cascade(d, n, Codes(bytes, pow2, n), Preds(bytes, f32, pow2, n), Thresholds(bytes, f32, pow2, n)))
  }

  /**
   * A decoded cascade is the tree layout of its own buffer, and the buffer
   * holds every tree record (so `TreeCodesInBuffer`, `TreePredsInBuffer` and
   * `TreeThresholdInBuffer` of `CascadeLayout` apply: tree t's block of
   * `tcodes` is four zeros and its node bytes as int8, its block of `tpreds`
   * its 2^d predictions, `thresh[t]` its threshold).
   */
  lemma DecodedLayout(bytes: seq<byte>, f32: Float32Decoder, c: Cascade)
    requires Decode(bytes, f32) == Success(c)
    ensures |bytes| >= TreeStart(Pow2(c.tdepth), c.ntrees)
    ensures c.tcodes == Codes(bytes, Pow2(c.tdepth), c.ntrees)
    ensures c.tpreds == Preds(bytes, f32, Pow2(c.tdepth), c.ntrees)
    ensures c.thresh == Thresholds(bytes, f32, Pow2(c.tdepth), c.ntrees)
  {
  }

  /** `unpackCascade(bytes)` of src/index.js, with the cursor p. */
  method UnpackCascade(bytes: seq<byte>, f32: Float32Decoder) returns (r: Result<Cascade, DecodeError>)
    ensures r == Decode(bytes, f32)
  {
    if |bytes| < HEADER_SIZE {
      return Failure(Truncated);
    }
    var p := 8;
    var tdepth := Int32At(bytes, p);
    p := p + 4;
    if tdepth < 0 || tdepth > 30 {
      return Failure(UnsupportedDepth);
    }
    var ntrees := Int32At(bytes, p);
    p := p + 4;
    if ntrees < 0 {
      return Failure(NegativeTreeCount);
    }
    r := AllocateAndRead(bytes, f32, tdepth, ntrees);
  }

  /** The typed arrays sized from the header, filled by the tree loop. */
  method AllocateAndRead(bytes: seq<byte>, f32: Float32Decoder, tdepth: nat, ntrees: nat)
    returns (r: Result<Cascade, DecodeError>)
    requires |bytes| >= HEADER_SIZE && tdepth == DepthField(bytes) <= 30 && ntrees == TreeCountField(bytes)
    ensures r == Decode(bytes, f32)
  {
    var pow2 := Pow2(tdepth);
    CodesLength(bytes, pow2, ntrees);
    PredsLength(bytes, f32, pow2, ntrees);
    var tcodes := new int[ntrees * 4 * pow2](_ => 0);
    var tpreds := new real[ntrees * pow2](_ => 0.0);
    var thresh := new real[ntrees](_ => 0.0);
    var complete := ReadTrees(bytes, f32, pow2, ntrees, tcodes, tpreds, thresh);
    if !complete {
      return Failure(Truncated);
    }
    return Success(Cascade(tdepth, ntrees, tcodes[..], tpreds[..], thresh[..]));
  }

  /**
   * The tree loop of `unpackCascade`: the cursor starts behind the header and
   * each tree's record is copied into its blocks. The result is false where a
   * float32 read would run past the buffer (the DataView throws).
   */
  method ReadTrees(bytes: seq<byte>, f32: Float32Decoder, pow2: nat, ntrees: nat,
                   tcodes: array<int>, tpreds: array<real>, thresh: array<real>) returns (complete: bool)
    requires pow2 >= 1 && |bytes| >= HEADER_SIZE
    requires tcodes.Length == |Codes(bytes, pow2, ntrees)| && tpreds.Length == |Preds(bytes, f32, pow2, ntrees)|
    requires thresh.Length == ntrees && tpreds != thresh
    modifies tcodes, tpreds, thresh
    ensures complete <==> |bytes| >= TreeStart(pow2, ntrees)
    ensures complete ==> tcodes[..] == Codes(bytes, pow2, ntrees)
    ensures complete ==> tpreds[..] == Preds(bytes, f32, pow2, ntrees)
    ensures complete ==> thresh[..] == Thresholds(bytes, f32, pow2, ntrees)
  {
    var p := HEADER_SIZE;
    var t := 0;
    var base, pbase := 0, 0;  // t * 4 * 2^d and t * 2^d: where tree t's blocks begin
    while t < ntrees
      invariant 0 <= t <= ntrees
      invariant p == TreeStart(pow2, t) <= |bytes|
      invariant base == |Codes(bytes, pow2, t)| && pbase == |Preds(bytes, f32, pow2, t)|
      invariant base <= tcodes.Length && pbase <= tpreds.Length
      invariant tcodes[..base] == Codes(bytes, pow2, t)
      invariant tpreds[..pbase] == Preds(bytes, f32, pow2, t)
      invariant thresh[..t] == Thresholds(bytes, f32, pow2, t)
    {
      CodesGrow(bytes, f32, pow2, t + 1, ntrees);
      TreeStartMonotonic(pow2, t + 1, ntrees);
      var ok := ReadTree(bytes, f32, pow2, t, p, tcodes, tpreds, thresh, base, pbase);
      if !ok {
        return false;
      }
      PrefixExtend(tcodes[..], base, base + 4 * pow2);
      PrefixExtend(tpreds[..], pbase, pbase + pow2);
      PrefixExtend(thresh[..], t, t + 1);
      p := p + 8 * pow2;
      t := t + 1;
      base, pbase := base + 4 * pow2, pbase + pow2;
    }
    assert tcodes[..] == tcodes[..base];
    assert tpreds[..] == tpreds[..pbase];
    assert thresh[..] == thresh[..t];
    return true;
  }

  /** A prefix of a sequence is its shorter prefix followed by the piece in between. */
  lemma PrefixExtend<T>(a: seq<T>, m: nat, n: nat)
    requires m <= n <= |a|
    ensures a[..n] == a[..m] + a[m..n]
  {
  }

  /**
   * One round of the tree loop: tree t's record, which starts at the cursor
   * `TreeStart(2^d, t)`, copied into its blocks at `base` and `pbase` and its
   * threshold into `thresh[t]`; false where a float32 read runs past the buffer.
   */
  method ReadTree(bytes: seq<byte>, f32: Float32Decoder, pow2: nat, t: nat, p: int,
                  tcodes: array<int>, tpreds: array<real>, thresh: array<real>, base: nat, pbase: nat)
    returns (ok: bool)
    requires pow2 >= 1 && base + 4 * pow2 <= tcodes.Length && pbase + pow2 <= tpreds.Length
    requires t < thresh.Length && tpreds != thresh && p == TreeStart(pow2, t)
    modifies tcodes, tpreds, thresh
    ensures ok <==> TreeStart(pow2, t + 1) <= |bytes|
    ensures tcodes[..base] == old(tcodes[..base])
    ensures tpreds[..pbase] == old(tpreds[..pbase])
    ensures thresh[..t] == old(thresh[..t])
    ensures ok ==> tcodes[base .. base + 4 * pow2] == TreeCodes(bytes, pow2, t)
    ensures ok ==> tpreds[pbase .. pbase + pow2] == TreePreds(bytes, f32, pow2, t)
    ensures ok ==> thresh[t .. t + 1] == [TreeThreshold(bytes, f32, pow2, t)]
  {
    CopyCodes(bytes, pow2, t, p, tcodes, base);
    var q := p + 4 * pow2 - 4;
    ok := ReadPreds(bytes, f32, pow2, t, q, tpreds, pbase);
    if !ok {
      return;
    }
    q := q + 4 * pow2;
    if q + 4 > |bytes| {
      return false;
    }
    WordInside(bytes, q);
    var threshold := f32(bytes[q .. q + 4]);
    assert threshold == TreeThreshold(bytes, f32, pow2, t);
    thresh[t] := threshold;
  }

  /**
   * The node codes of tree t written into its block at `base`: four zeros, then
   * `tcodes.set(bytes.subarray(p, p + 4*2^d - 4), base + 4)`, where the
   * subarray stops at the end of the buffer.
   */
  method CopyCodes(bytes: seq<byte>, pow2: nat, t: nat, p: int, tcodes: array<int>, base: nat)
    requires pow2 >= 1 && base + 4 * pow2 <= tcodes.Length && p == TreeStart(pow2, t)
    modifies tcodes
    ensures tcodes[..base] == old(tcodes[..base])
    ensures TreeStart(pow2, t) + 4 * pow2 - 4 <= |bytes| ==> tcodes[base .. base + 4 * pow2] == TreeCodes(bytes, pow2, t)
  {
    tcodes[base + 0] := 0;
    tcodes[base + 1] := 0;
    tcodes[base + 2] := 0;
    tcodes[base + 3] := 0;
    var sliceLen := 4 * pow2 - 4;
    var k := 0;
    while k < sliceLen && p + k < |bytes|
      invariant 0 <= k <= sliceLen
      invariant tcodes[..base] == old(tcodes[..base])
      invariant tcodes[base .. base + 4 + k] == TreeCodes(bytes, pow2, t)[..4 + k]
    {
      TreeCodeAt(bytes, pow2, t, 4 + k);
      tcodes[base + 4 + k] := Int8(bytes[p + k]);
      k := k + 1;
    }
  }

  /**
   * The 2^d float32 predictions of tree t, read from the cursor `p0` into its
   * block at `pbase`; false where a read runs past the buffer.
   */
  method ReadPreds(bytes: seq<byte>, f32: Float32Decoder, pow2: nat, t: nat, p0: int, tpreds: array<real>, pbase: nat)
    returns (ok: bool)
    requires pow2 >= 1 && pbase + pow2 <= tpreds.Length && p0 == TreeStart(pow2, t) + 4 * pow2 - 4
    modifies tpreds
    ensures ok <==> TreeStart(pow2, t) + 8 * pow2 - 4 <= |bytes|
    ensures tpreds[..pbase] == old(tpreds[..pbase])
    ensures ok ==> tpreds[pbase .. pbase + pow2] == TreePreds(bytes, f32, pow2, t)
  {
    var p := p0;
    var i := 0;
    while i < pow2
      invariant 0 <= i <= pow2
      invariant p == TreeStart(pow2, t) + 4 * pow2 - 4 + 4 * i
      invariant i > 0 ==> p <= |bytes|
      invariant tpreds[..pbase] == old(tpreds[..pbase])
      invariant tpreds[pbase .. pbase + i] == TreePreds(bytes, f32, pow2, t)[..i]
    {
      if p + 4 > |bytes| {
        return false;
      }
      WordInside(bytes, p);
      TreePredAt(bytes, f32, pow2, t, i);
      var pred := f32(bytes[p .. p + 4]);
      assert pred == TreePreds(bytes, f32, pow2, t)[i];
      tpreds[pbase + i] := pred;
      p := p + 4;
      i := i + 1;
    }
    return true;
  }
}
