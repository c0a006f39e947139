/**
 * The early-rejection sum shared by both `classifyRegion` functions: tree k
 * of the cascade contributes the prediction `leaves[k]` of the leaf the
 * window reaches, the running sum is compared with the tree's threshold
 * after each tree, and the first tree whose sum falls to its threshold
 * rejects the window with -1. A window no tree rejects scores the final sum
 * less the last threshold; with no trees that threshold is undefined and the
 * score NaN.
 */
module Scoring {
  import opened Detections

  /** The trees from i on, with running sum o. */
  function Eval(leaves: seq<real>, thresh: seq<real>, i: nat, o: real): Score
    requires |thresh| == |leaves| && i <= |leaves|
    decreases |leaves| - i
  {
    if i == |leaves| then
      // `o - thresh[ntrees - 1]`
      if |leaves| == 0 then NaN else Num(o - thresh[|leaves| - 1])
    else
      var o' := o + leaves[i];
      if o' <= thresh[i] then Num(-1.0) else Eval(leaves, thresh, i + 1, o')
  }

  /** One tree of the evaluation: tree i either rejects with -1 or passes its sum on. */
  lemma EvalStep(leaves: seq<real>, thresh: seq<real>, i: nat, o: real)
    requires |thresh| == |leaves| && i < |leaves|
    ensures Eval(leaves, thresh, i, o)
         == if o + leaves[i] <= thresh[i] then Num(-1.0) else Eval(leaves, thresh, i + 1, o + leaves[i])
  {
  }

  /** The sum of the predictions of the first k trees. */
  function Total(leaves: seq<real>, k: nat): real
    requires k <= |leaves|
  {
    if k == 0 then 0.0 else Total(leaves, k - 1) + leaves[k - 1]
  }

  /** Tree k rejects the window: the sum after it is at most its threshold. */
  predicate RejectedAt(leaves: seq<real>, thresh: seq<real>, k: nat)
    requires |thresh| == |leaves| && k < |leaves|
  {
    Total(leaves, k + 1) <= thresh[k]
  }

  /** No tree before i rejects the window. */
  predicate PassesBefore(leaves: seq<real>, thresh: seq<real>, i: nat)
    requires |thresh| == |leaves| && i <= |leaves|
  {
    forall k :: 0 <= k < i ==> !RejectedAt(leaves, thresh, k)
  }

  /** Some tree from i on rejects the window. */
  predicate RejectedFrom(leaves: seq<real>, thresh: seq<real>, i: nat)
    requires |thresh| == |leaves| && i <= |leaves|
  {
    exists k :: i <= k < |leaves| && RejectedAt(leaves, thresh, k)
  }

  /**
   * Started at tree i with the sum of the trees before it, the evaluation
   * gives -1 exactly when a later tree rejects, and otherwise the final sum
   * less the last threshold.
   */
  lemma {:induction false} EvalOutcome(leaves: seq<real>, thresh: seq<real>, i: nat)
    requires |thresh| == |leaves| && i <= |leaves| && PassesBefore(leaves, thresh, i)
    ensures Eval(leaves, thresh, i, Total(leaves, i)) == Num(-1.0) <==> RejectedFrom(leaves, thresh, i)
    ensures !RejectedFrom(leaves, thresh, i) ==>
      Eval(leaves, thresh, i, Total(leaves, i))
        == if |leaves| == 0 then NaN else Num(Total(leaves, |leaves|) - thresh[|leaves| - 1])
    decreases |leaves| - i
  {
    if i < |leaves| {
      if RejectedAt(leaves, thresh, i) {
        assert RejectedFrom(leaves, thresh, i);
      } else {
        assert PassesBefore(leaves, thresh, i + 1);
        assert RejectedFrom(leaves, thresh, i) <==> RejectedFrom(leaves, thresh, i + 1);
        EvalOutcome(leaves, thresh, i + 1);
      }
    } else if |leaves| > 0 {
      assert !RejectedAt(leaves, thresh, |leaves| - 1);
    }
  }

  /**
   * The score of a window: -1 exactly when some tree rejects it; otherwise
   * the final sum less the last threshold, which is then positive; NaN
   * without trees. So a window is accepted (`q > 0`) exactly when there is a
   * tree and no tree rejects it.
   */
  lemma Outcome(leaves: seq<real>, thresh: seq<real>)
    requires |thresh| == |leaves|
    ensures Eval(leaves, thresh, 0, 0.0) == Num(-1.0) <==> exists k :: 0 <= k < |leaves| && RejectedAt(leaves, thresh, k)
    ensures (forall k :: 0 <= k < |leaves| ==> !RejectedAt(leaves, thresh, k)) ==>
      Eval(leaves, thresh, 0, 0.0) == if |leaves| == 0 then NaN else Num(Total(leaves, |leaves|) - thresh[|leaves| - 1])
    ensures Accepted(Eval(leaves, thresh, 0, 0.0)) <==>
      |leaves| > 0 && forall k :: 0 <= k < |leaves| ==> !RejectedAt(leaves, thresh, k)
  {
    EvalOutcome(leaves, thresh, 0);
    assert RejectedFrom(leaves, thresh, 0) <==> exists k :: 0 <= k < |leaves| && RejectedAt(leaves, thresh, k);
    if |leaves| > 0 && forall k :: 0 <= k < |leaves| ==> !RejectedAt(leaves, thresh, k) {
      assert !RejectedAt(leaves, thresh, |leaves| - 1);
    }
  }
}
