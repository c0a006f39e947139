/**
 * `clusterDetections` (src/index.js and src/utils.js): greedy non-maximum
 * suppression. The detections are sorted by decreasing quality; then each
 * detection not yet absorbed becomes a seed and absorbs every later
 * unabsorbed detection whose overlap with it exceeds the threshold. A
 * cluster is reported as the average window of its seed and members, the
 * summed quality and the seed's angle; src/index.js truncates the averages
 * with `| 0`, src/utils.js does not.
 */
module Clustering {
  import opened JsNumbers
  import opened Detections
  import opened Overlap

  // ---------------------------------------------------------------------
  // The sort `dets.sort((a, b) => b[3] - a[3])`
  // ---------------------------------------------------------------------

  predicate SortedByQuality(ds: seq<Detection>) {
    forall i, j :: 0 <= i < j < |ds| ==> ds[i].q >= ds[j].q
  }

  /** Places d before the first entry of s whose quality is not above d's, so equal qualities keep their order. */
  function Insert(d: Detection, s: seq<Detection>): (r: seq<Detection>)
    ensures multiset(r) == multiset(s) + multiset{d}
  {
    if s == [] then [d]
    else if d.q >= s[0].q then [d] + s
    else
      assert s == [s[0]] + s[1..];
      [s[0]] + Insert(d, s[1..])
  }

  /** A stable sort by decreasing quality (the comparator `b[3] - a[3]`). */
  function SortByQuality(ds: seq<Detection>): (r: seq<Detection>)
    ensures multiset(r) == multiset(ds)
  {
    if ds == [] then []
    else
      assert ds == [ds[0]] + ds[1..];
      Insert(ds[0], SortByQuality(ds[1..]))
  }

  lemma {:induction false} InsertSorted(d: Detection, s: seq<Detection>)
    requires SortedByQuality(s)
    ensures SortedByQuality(Insert(d, s))
  {
    if s != [] && d.q < s[0].q {
      var tail := Insert(d, s[1..]);
      InsertSorted(d, s[1..]);
      forall x | x in tail
        ensures x.q <= s[0].q
      {
        assert x in multiset(tail);
        assert x == d || x in multiset(s[1..]);
      }
      assert Insert(d, s) == [s[0]] + tail;
      forall i, j | 0 <= i < j < |[s[0]] + tail|
        ensures ([s[0]] + tail)[i].q >= ([s[0]] + tail)[j].q
      {
        if i == 0 {
          assert ([s[0]] + tail)[j] == tail[j - 1];
          assert tail[j - 1] in tail;
        }
      }
    }
  }

  /** The sort's output is in decreasing order of quality and is a permutation of its input. */
  lemma {:induction false} SortSorted(ds: seq<Detection>)
    ensures SortedByQuality(SortByQuality(ds))
    ensures multiset(SortByQuality(ds)) == multiset(ds)
  {
    if ds != [] {
      SortSorted(ds[1..]);
      InsertSorted(ds[0], SortByQuality(ds[1..]));
    }
  }

  // ---------------------------------------------------------------------
  // Greedy suppression, as a recursive definition
  // ---------------------------------------------------------------------

  function Last(s: seq<Detection>): Detection
    requires s != []
  {
    s[|s| - 1]
  }

  /** The detections of s that the seed absorbs, in order. */
  function Absorbed(seed: Detection, s: seq<Detection>, threshold: real): (r: seq<Detection>)
    ensures |r| <= |s|
  {
    if s == [] then []
    else Absorbed(seed, s[..|s| - 1], threshold) + (if Overlaps(seed, Last(s), threshold) then [Last(s)] else [])
  }

  /** The detections of s that the seed leaves for later seeds, in order. */
  function Kept(seed: Detection, s: seq<Detection>, threshold: real): (r: seq<Detection>)
    ensures |r| <= |s|
  {
    if s == [] then []
    else Kept(seed, s[..|s| - 1], threshold) + (if Overlaps(seed, Last(s), threshold) then [] else [Last(s)])
  }

  /** A cluster: its seed and the detections it absorbed. */
  datatype Group = Group(seed: Detection, members: seq<Detection>)

  /**
   * The clusters of a list already in processing order: the first detection
   * is a seed, it absorbs the rest that overlap it, and the others are
   * clustered in turn.
   */
  function Clusters(ds: seq<Detection>, threshold: real): seq<Group>
    decreases |ds|
  {
    if ds == [] then []
    else [Group(ds[0], Absorbed(ds[0], ds[1..], threshold))] + Clusters(Kept(ds[0], ds[1..], threshold), threshold)
  }

  /** Seeds and members of all groups, group after group. */
  function Flatten(gs: seq<Group>): seq<Detection> {
    if gs == [] then [] else [gs[0].seed] + gs[0].members + Flatten(gs[1..])
  }

  // ---------------------------------------------------------------------
  // Cluster representatives
  // ---------------------------------------------------------------------

  datatype Field = Row | Col | Size | Quality

  function Get(d: Detection, f: Field): real {
    match f
    case Row => d.r
    case Col => d.c
    case Size => d.s
    case Quality => d.q
  }

  /** The running sum of one field over s. */
  function Sum(s: seq<Detection>, f: Field): real {
    if s == [] then 0.0 else Sum(s[..|s| - 1], f) + Get(Last(s), f)
  }

  /** `x / n`, truncated toward zero when `truncated` (`(x / n) | 0`). */
  function Average(x: real, n: nat, truncated: bool): real
    requires n >= 1
  {
    if truncated then Trunc(x / n as real) as real else x / n as real
  }

  /** The object pushed for group g. */
  function Representative(g: Group, truncated: bool): Detection {
    var n := 1 + |g.members|;
    Detection(
      Average(g.seed.r + Sum(g.members, Row), n, truncated),
      Average(g.seed.c + Sum(g.members, Col), n, truncated),
      Average(g.seed.s + Sum(g.members, Size), n, truncated),
      g.seed.q + Sum(g.members, Quality),
      g.seed.a)
  }

  function Representatives(gs: seq<Group>, truncated: bool): (r: seq<Detection>)
    ensures |r| == |gs|
  {
    seq(|gs|, k requires 0 <= k < |gs| => Representative(gs[k], truncated))
  }

  /** What `clusterDetections(dets, threshold)` returns. */
  function ClusterDetectionsSpec(dets: seq<Detection>, threshold: real, truncated: bool): seq<Detection> {
    Representatives(Clusters(SortByQuality(dets), threshold), truncated)
  }

  // ---------------------------------------------------------------------
  // Properties of the suppression
  // ---------------------------------------------------------------------

  lemma {:induction false} SplitPartition(seed: Detection, s: seq<Detection>, threshold: real)
    ensures multiset(Absorbed(seed, s, threshold)) + multiset(Kept(seed, s, threshold)) == multiset(s)
  {
    if s != [] {
      SplitPartition(seed, s[..|s| - 1], threshold);
      assert s == s[..|s| - 1] + [Last(s)];
    }
  }

  /** Every detection is a seed or a member of exactly one group: the groups partition the input. */
  lemma {:induction false} ClustersPartition(ds: seq<Detection>, threshold: real)
    ensures multiset(Flatten(Clusters(ds, threshold))) == multiset(ds)
    decreases |ds|
  {
    if ds != [] {
      var rest := ds[1..];
      SplitPartition(ds[0], rest, threshold);
      ClustersPartition(Kept(ds[0], rest, threshold), threshold);
      var gs := Clusters(ds, threshold);
      assert gs[1..] == Clusters(Kept(ds[0], rest, threshold), threshold);
      assert ds == [ds[0]] + rest;
    }
  }

  /** There are no more clusters than detections. */
  lemma ClusterCount(ds: seq<Detection>, threshold: real)
    ensures |Clusters(ds, threshold)| <= |ds|
  {
    ClustersPartition(ds, threshold);
    FlattenLength(Clusters(ds, threshold));
    assert |multiset(Flatten(Clusters(ds, threshold)))| == |multiset(ds)|;
  }

  lemma {:induction false} FlattenLength(gs: seq<Group>)
    ensures |gs| <= |Flatten(gs)|
  {
    if gs != [] {
      FlattenLength(gs[1..]);
    }
  }

  lemma {:induction false} AbsorbedOverlap(seed: Detection, s: seq<Detection>, threshold: real)
    ensures forall m :: m in Absorbed(seed, s, threshold) ==> Overlaps(seed, m, threshold)
  {
    if s != [] {
      AbsorbedOverlap(seed, s[..|s| - 1], threshold);
    }
  }

  lemma {:induction false} KeptApart(seed: Detection, s: seq<Detection>, threshold: real)
    ensures forall m :: m in Kept(seed, s, threshold) ==> !Overlaps(seed, m, threshold)
  {
    if s != [] {
      KeptApart(seed, s[..|s| - 1], threshold);
    }
  }

  /** A seed or member of the clusters of ds is one of the detections of ds. */
  lemma FromInput(ds: seq<Detection>, threshold: real, k: nat)
    requires k < |Clusters(ds, threshold)|
    ensures Clusters(ds, threshold)[k].seed in ds
    ensures forall m :: m in Clusters(ds, threshold)[k].members ==> m in ds
  {
    var gs := Clusters(ds, threshold);
    ClustersPartition(ds, threshold);
    FlattenHolds(gs, k);
    forall m | m in gs[k].members
      ensures m in ds
    {
      assert m in multiset(Flatten(gs));
    }
    assert gs[k].seed in multiset(Flatten(gs));
  }

  lemma {:induction false} FlattenHolds(gs: seq<Group>, k: nat)
    requires k < |gs|
    ensures gs[k].seed in Flatten(gs)
    ensures forall m :: m in gs[k].members ==> m in Flatten(gs)
  {
    if k > 0 {
      FlattenHolds(gs[1..], k - 1);
    }
  }

  /** Every member overlaps its seed by more than the threshold. */
  lemma {:induction false} MembersOverlapSeed(ds: seq<Detection>, threshold: real, k: nat)
    requires k < |Clusters(ds, threshold)|
    ensures forall m :: m in Clusters(ds, threshold)[k].members ==> Overlaps(Clusters(ds, threshold)[k].seed, m, threshold)
    decreases |ds|
  {
    if k == 0 {
      AbsorbedOverlap(ds[0], ds[1..], threshold);
    } else {
      MembersOverlapSeed(Kept(ds[0], ds[1..], threshold), threshold, k - 1);
    }
  }

  /** Suppression: a seed never overlaps an earlier seed by more than the threshold. */
  lemma {:induction false} SeedsApart(ds: seq<Detection>, threshold: real, k: nat, l: nat)
    requires k < l < |Clusters(ds, threshold)|
    ensures !Overlaps(Clusters(ds, threshold)[k].seed, Clusters(ds, threshold)[l].seed, threshold)
    decreases |ds|
  {
    var kept := Kept(ds[0], ds[1..], threshold);
    if k == 0 {
      FromInput(kept, threshold, l - 1);
      KeptApart(ds[0], ds[1..], threshold);
    } else {
      SeedsApart(kept, threshold, k - 1, l - 1);
    }
  }

  lemma {:induction false} KeptSorted(seed: Detection, s: seq<Detection>, threshold: real)
    requires SortedByQuality(s)
    ensures SortedByQuality(Kept(seed, s, threshold))
    ensures forall m :: m in Kept(seed, s, threshold) ==> m in s
  {
    if s != [] {
      var init := s[..|s| - 1];
      assert SortedByQuality(init);
      KeptSorted(seed, init, threshold);
      var p := Kept(seed, init, threshold);
      if !Overlaps(seed, Last(s), threshold) {
        forall i, j | 0 <= i < j < |p + [Last(s)]|
          ensures (p + [Last(s)])[i].q >= (p + [Last(s)])[j].q
        {
          if j == |p| {
            assert p[i] in init;
          }
        }
      }
    }
  }

  /**
   * On input sorted by decreasing quality, the seeds come out in decreasing
   * quality and each seed is the best detection of its group.
   */
  lemma {:induction false} SeedsByQuality(ds: seq<Detection>, threshold: real, k: nat)
    requires SortedByQuality(ds)
    requires k < |Clusters(ds, threshold)|
    ensures forall l :: k < l < |Clusters(ds, threshold)| ==> Clusters(ds, threshold)[k].seed.q >= Clusters(ds, threshold)[l].seed.q
    ensures forall m :: m in Clusters(ds, threshold)[k].members ==> m.q <= Clusters(ds, threshold)[k].seed.q
    decreases |ds|
  {
    var gs := Clusters(ds, threshold);
    var kept := Kept(ds[0], ds[1..], threshold);
    KeptSorted(ds[0], ds[1..], threshold);
    if k == 0 {
      forall l | 0 < l < |gs|
        ensures gs[0].seed.q >= gs[l].seed.q
      {
        FromInput(kept, threshold, l - 1);
        assert gs[l].seed in ds[1..];
      }
      FromInput(ds, threshold, 0);
      forall m | m in gs[0].members
        ensures m.q <= gs[0].seed.q
      {
        assert m in ds;
        if m != ds[0] {
          var j :| 0 <= j < |ds| && ds[j] == m;
        }
      }
    } else {
      SeedsByQuality(kept, threshold, k - 1);
    }
  }

  /** The output is in decreasing order of seed quality. */
  lemma SeedOrder(dets: seq<Detection>, threshold: real, k: nat, l: nat)
    requires k < l < |Clusters(SortByQuality(dets), threshold)|
    ensures Clusters(SortByQuality(dets), threshold)[k].seed.q >= Clusters(SortByQuality(dets), threshold)[l].seed.q
  {
    SortSorted(dets);
    SeedsByQuality(SortByQuality(dets), threshold, k);
  }

  /** Without overlaps every detection is its own cluster, reported unchanged (for integral windows when truncating). */
  lemma NoOverlapKeepsAll(ds: seq<Detection>, threshold: real, truncated: bool)
    requires forall i, j :: 0 <= i < j < |ds| ==> !Overlaps(ds[i], ds[j], threshold)
    requires truncated ==> forall k :: 0 <= k < |ds| ==> IsWhole(ds[k].r) && IsWhole(ds[k].c) && IsWhole(ds[k].s)
    ensures Representatives(Clusters(ds, threshold), truncated) == ds
  {
    var gs := Clusters(ds, threshold);
    Singletons(ds, threshold);
    forall k | 0 <= k < |ds|
      ensures Representative(gs[k], truncated) == ds[k]
    {
      LoneSeed(ds[k], truncated);
    }
  }

  /** A group with no members reports its seed (for an integral window when truncating). */
  lemma LoneSeed(d: Detection, truncated: bool)
    requires truncated ==> IsWhole(d.r) && IsWhole(d.c) && IsWhole(d.s)
    ensures Representative(Group(d, []), truncated) == d
  {
    if truncated {
      TruncWhole(d.r);
      TruncWhole(d.c);
      TruncWhole(d.s);
    }
  }

  /** Without overlaps every group is a lone seed, in input order. */
  lemma {:induction false} Singletons(ds: seq<Detection>, threshold: real)
    requires forall i, j :: 0 <= i < j < |ds| ==> !Overlaps(ds[i], ds[j], threshold)
    ensures |Clusters(ds, threshold)| == |ds|
    ensures forall k :: 0 <= k < |ds| ==> Clusters(ds, threshold)[k] == Group(ds[k], [])
  {
    if ds != [] {
      var rest := ds[1..];
      NothingAbsorbed(ds[0], rest, threshold);
      Singletons(rest, threshold);
      var gs := Clusters(ds, threshold);
      assert gs == [Group(ds[0], [])] + Clusters(rest, threshold);
    }
  }

  lemma {:induction false} NothingAbsorbed(seed: Detection, s: seq<Detection>, threshold: real)
    requires forall k :: 0 <= k < |s| ==> !Overlaps(seed, s[k], threshold)
    ensures Absorbed(seed, s, threshold) == []
    ensures Kept(seed, s, threshold) == s
  {
    if s != [] {
      NothingAbsorbed(seed, s[..|s| - 1], threshold);
      assert s == s[..|s| - 1] + [Last(s)];
    }
  }

  predicate IsWhole(x: real) {
    x == x.Floor as real
  }

  lemma TruncWhole(x: real)
    requires IsWhole(x)
    ensures Trunc(x / 1 as real) as real == x
  {
    assert x / 1 as real == x;
  }

  /**
   * v is the mean of n values totalling `total`: exactly, or, when
   * `truncated`, the whole number `(total / n) | 0` that rounds the mean toward zero.
   */
  predicate IsMean(v: real, total: real, n: nat, truncated: bool)
    requires n >= 1
  {
    if !truncated then v * n as real == total
    else
      && IsWhole(v)
      && (total >= 0.0 ==> v <= total / n as real < v + 1.0)
      && (total < 0.0 ==> v - 1.0 < total / n as real <= v)
  }

  lemma AverageIsMean(total: real, n: nat, truncated: bool)
    requires n >= 1
    ensures IsMean(Average(total, n, truncated), total, n, truncated)
  {
    DivMul(total, n);
  }

  /** The total of one field over a cluster is the seed's value plus the members'. */
  lemma {:induction false} SumFront(d: Detection, s: seq<Detection>, f: Field)
    ensures Sum([d] + s, f) == Get(d, f) + Sum(s, f)
    decreases |s|
  {
    if s != [] {
      assert ([d] + s)[..|[d] + s| - 1] == [d] + s[..|s| - 1];
      SumFront(d, s[..|s| - 1], f);
    }
  }

  /**
   * A cluster, seed and members together, is represented by the total of
   * its qualities, its seed's angle, and the mean of its rows, of its
   * columns and of its sizes (exact, or truncated toward zero).
   */
  lemma RepresentativeMeans(g: Group, truncated: bool)
    ensures var cluster, d := [g.seed] + g.members, Representative(g, truncated);
      && d.q == Sum(cluster, Quality)
      && d.a == g.seed.a
      && IsMean(d.r, Sum(cluster, Row), |cluster|, truncated)
      && IsMean(d.c, Sum(cluster, Col), |cluster|, truncated)
      && IsMean(d.s, Sum(cluster, Size), |cluster|, truncated)
  {
    var cluster, n := [g.seed] + g.members, 1 + |g.members|;
    SumFront(g.seed, g.members, Quality);
    SumFront(g.seed, g.members, Row);
    SumFront(g.seed, g.members, Col);
    SumFront(g.seed, g.members, Size);
    AverageIsMean(g.seed.r + Sum(g.members, Row), n, truncated);
    AverageIsMean(g.seed.c + Sum(g.members, Col), n, truncated);
    AverageIsMean(g.seed.s + Sum(g.members, Size), n, truncated);
  }

  lemma DivMul(x: real, n: nat)
    requires n >= 1
    ensures (x / n as real) * n as real == x
  {
  }

  // ---------------------------------------------------------------------
  // The loop of `clusterDetections`
  // ---------------------------------------------------------------------

  /** The detections of ds[lo..hi] whose assignment flag is not set, in order. */
  function Unassigned(ds: seq<Detection>, flags: seq<bool>, lo: nat, hi: nat): (r: seq<Detection>)
    requires lo <= hi <= |ds| && |flags| == |ds|
    decreases hi
  {
    if hi == lo then []
    else Unassigned(ds, flags, lo, hi - 1) + (if flags[hi - 1] then [] else [ds[hi - 1]])
  }

  lemma {:induction false} UnassignedFront(ds: seq<Detection>, flags: seq<bool>, lo: nat, hi: nat)
    requires lo < hi <= |ds| && |flags| == |ds|
    ensures Unassigned(ds, flags, lo, hi) == (if flags[lo] then [] else [ds[lo]]) + Unassigned(ds, flags, lo + 1, hi)
    decreases hi
  {
    if hi > lo + 1 {
      UnassignedFront(ds, flags, lo, hi - 1);
    }
  }

  lemma {:induction false} UnassignedFrame(ds: seq<Detection>, f1: seq<bool>, f2: seq<bool>, lo: nat, hi: nat)
    requires lo <= hi <= |ds| && |f1| == |ds| && |f2| == |ds|
    requires forall k :: lo <= k < hi ==> f1[k] == f2[k]
    ensures Unassigned(ds, f1, lo, hi) == Unassigned(ds, f2, lo, hi)
    decreases hi
  {
    if hi > lo {
      UnassignedFrame(ds, f1, f2, lo, hi - 1);
    }
  }

  lemma AllUnassigned(ds: seq<Detection>, flags: seq<bool>, hi: nat)
    requires hi <= |ds| && |flags| == |ds|
    requires forall k :: 0 <= k < |flags| ==> !flags[k]
    ensures Unassigned(ds, flags, 0, hi) == ds[..hi]
  {
    if hi > 0 {
      AllUnassigned(ds, flags, hi - 1);
      assert ds[..hi] == ds[..hi - 1] + [ds[hi - 1]];
    }
  }

  lemma RepresentativesSnoc(gs: seq<Group>, g: Group, truncated: bool)
    ensures Representatives(gs + [g], truncated) == Representatives(gs, truncated) + [Representative(g, truncated)]
  {
  }

  /** The object built from a group's count and running sums is its representative. */
  lemma RepresentativeOfSums(g: Group, n: nat, r: real, c: real, s: real, q: real, truncated: bool)
    requires Totals(g.seed, g.members, n, r, c, s, q)
    ensures Detection(Average(r, n, truncated), Average(c, n, truncated), Average(s, n, truncated), q, g.seed.a)
         == Representative(g, truncated)
  {
  }

  lemma SumSnoc(s: seq<Detection>, x: Detection, f: Field)
    ensures Sum(s + [x], f) == Sum(s, f) + Get(x, f)
  {
    assert (s + [x])[..|s + [x]| - 1] == s;
  }

  /**
   * One step of the inner loop: detection j, unassigned before, is flagged
   * exactly when it overlaps the seed; the unassigned ones after the seed
   * are then the kept ones and the flagged ones grow the absorbed list.
   */
  lemma AbsorbStep(ds: seq<Detection>, flags: seq<bool>, next: seq<bool>, i: nat, j: nat, threshold: real)
    requires i + 1 <= j < |ds| && |flags| == |ds| && |next| == |ds|
    requires next[j] == (flags[j] || Overlaps(ds[i], ds[j], threshold))
    requires Unassigned(ds, next, i + 1, j) == Kept(ds[i], Unassigned(ds, flags, i + 1, j), threshold)
    ensures Unassigned(ds, next, i + 1, j + 1) == Kept(ds[i], Unassigned(ds, flags, i + 1, j + 1), threshold)
  {
    var u := Unassigned(ds, flags, i + 1, j);
    if !flags[j] {
      assert Unassigned(ds, flags, i + 1, j + 1) == u + [ds[j]];
      SplitSnoc(ds[i], u, ds[j], threshold);
      if Overlaps(ds[i], ds[j], threshold) {
        assert Unassigned(ds, next, i + 1, j + 1) == Unassigned(ds, next, i + 1, j);
      } else {
        assert Unassigned(ds, next, i + 1, j + 1) == Unassigned(ds, next, i + 1, j) + [ds[j]];
      }
    } else {
      assert Unassigned(ds, flags, i + 1, j + 1) == u;
      assert Unassigned(ds, next, i + 1, j + 1) == Unassigned(ds, next, i + 1, j);
    }
  }

  /** The absorbed list grows by detection j exactly when j was unassigned and overlaps the seed. */
  lemma AbsorbedStep(ds: seq<Detection>, flags: seq<bool>, i: nat, j: nat, threshold: real)
    requires i + 1 <= j < |ds| && |flags| == |ds|
    ensures Absorbed(ds[i], Unassigned(ds, flags, i + 1, j + 1), threshold)
         == Absorbed(ds[i], Unassigned(ds, flags, i + 1, j), threshold)
            + (if !flags[j] && Overlaps(ds[i], ds[j], threshold) then [ds[j]] else [])
  {
    var u := Unassigned(ds, flags, i + 1, j);
    if !flags[j] {
      assert Unassigned(ds, flags, i + 1, j + 1) == u + [ds[j]];
      SplitSnoc(ds[i], u, ds[j], threshold);
    } else {
      assert Unassigned(ds, flags, i + 1, j + 1) == u;
    }
  }

  /** The count and the running sums of a seed and its absorbed members. */
  predicate Totals(seed: Detection, members: seq<Detection>, n: nat, r: real, c: real, s: real, q: real) {
    && n == 1 + |members| && r == seed.r + Sum(members, Row) && c == seed.c + Sum(members, Col)
    && s == seed.s + Sum(members, Size) && q == seed.q + Sum(members, Quality)
  }

  lemma TotalsSnoc(seed: Detection, members: seq<Detection>, x: Detection, n: nat, r: real, c: real, s: real, q: real)
    requires Totals(seed, members, n, r, c, s, q)
    ensures Totals(seed, members + [x], n + 1, r + x.r, c + x.c, s + x.s, q + x.q)
  {
    SumSnoc(members, x, Row);
    SumSnoc(members, x, Col);
    SumSnoc(members, x, Size);
    SumSnoc(members, x, Quality);
  }

  /** One pass of the inner loop, on the flags before (prev) and after (next) it. */
  lemma InnerStep(ds: seq<Detection>, flags: seq<bool>, prev: seq<bool>, next: seq<bool>, i: nat, j: nat, threshold: real)
    requires i + 1 <= j < |ds| && |flags| == |ds| && |prev| == |ds| && |next| == |ds|
    requires forall k :: 0 <= k < |ds| && k != j ==> next[k] == prev[k]
    requires prev[j] == flags[j] && next[j] == (flags[j] || Overlaps(ds[i], ds[j], threshold))
    requires Unassigned(ds, prev, i + 1, j) == Kept(ds[i], Unassigned(ds, flags, i + 1, j), threshold)
    ensures Unassigned(ds, next, i + 1, j + 1) == Kept(ds[i], Unassigned(ds, flags, i + 1, j + 1), threshold)
  {
    UnassignedFrame(ds, prev, next, i + 1, j);
    AbsorbStep(ds, flags, next, i, j, threshold);
  }

  lemma SplitSnoc(seed: Detection, u: seq<Detection>, x: Detection, threshold: real)
    ensures Kept(seed, u + [x], threshold) == Kept(seed, u, threshold) + (if Overlaps(seed, x, threshold) then [] else [x])
    ensures Absorbed(seed, u + [x], threshold) == Absorbed(seed, u, threshold) + (if Overlaps(seed, x, threshold) then [x] else [])
  {
    assert (u + [x])[..|u + [x]| - 1] == u;
  }

  /**
   * One step of the outer loop at an unassigned seed i: once the inner loop
   * has left exactly the kept detections unassigned, clustering what was
   * unassigned from i on yields the seed's group and then the clusters of
   * what is still unassigned after i.
   */
  lemma SeedStep(ds: seq<Detection>, before: seq<bool>, after: seq<bool>, i: nat, threshold: real)
    requires i < |ds| && |before| == |ds| && |after| == |ds| && !before[i]
    requires Unassigned(ds, after, i + 1, |ds|) == Kept(ds[i], Unassigned(ds, before, i + 1, |ds|), threshold)
    ensures Clusters(Unassigned(ds, before, i, |ds|), threshold)
         == [Group(ds[i], Absorbed(ds[i], Unassigned(ds, before, i + 1, |ds|), threshold))]
            + Clusters(Unassigned(ds, after, i + 1, |ds|), threshold)
  {
    UnassignedFront(ds, before, i, |ds|);
    var u := Unassigned(ds, before, i, |ds|);
    assert u[0] == ds[i] && u[1..] == Unassigned(ds, before, i + 1, |ds|);
  }

  /** The sort and the suppression loop, returning the cluster representatives. */
  method ClusterDetections(dets: seq<Detection>, threshold: real, truncated: bool) returns (clusters: seq<Detection>)
    ensures clusters == ClusterDetectionsSpec(dets, threshold, truncated)
  {
    var ds := SortByQuality(dets);
    var assignments := new bool[|ds|](_ => false);
    AllUnassigned(ds, assignments[..], |ds|);
    assert ds[..|ds|] == ds;
    clusters := [];
    ghost var groups: seq<Group> := [];
    var i := 0;
    while i < |ds|
      invariant 0 <= i <= |ds| && assignments.Length == |ds|
      invariant Clusters(ds, threshold) == groups + Clusters(Unassigned(ds, assignments[..], i, |ds|), threshold)
      invariant clusters == Representatives(groups, truncated)
    {
      clusters, groups := VisitSeed(ds, i, threshold, truncated, assignments, clusters, groups);
      i := i + 1;
    }
  }

  /** One pass of the outer loop: an unassigned ds[i] seeds a cluster, an assigned one is skipped. */
  method VisitSeed(ds: seq<Detection>, i: nat, threshold: real, truncated: bool, assignments: array<bool>,
                   clusters: seq<Detection>, ghost groups: seq<Group>)
    returns (clusters': seq<Detection>, ghost groups': seq<Group>)
    requires i < |ds| == assignments.Length
    requires Clusters(ds, threshold) == groups + Clusters(Unassigned(ds, assignments[..], i, |ds|), threshold)
    requires clusters == Representatives(groups, truncated)
    modifies assignments
    ensures Clusters(ds, threshold) == groups' + Clusters(Unassigned(ds, assignments[..], i + 1, |ds|), threshold)
    ensures clusters' == Representatives(groups', truncated)
  {
    ghost var before := assignments[..];
    if !assignments[i] {
      var cluster := GrowCluster(ds, i, threshold, truncated, assignments);
      OuterStep(ds, before, assignments[..], i, threshold, groups);
      RepresentativesSnoc(groups, SeedGroup(ds, before, i, threshold), truncated);
      clusters' := clusters + [cluster];
      groups' := groups + [SeedGroup(ds, before, i, threshold)];
    } else {
      OuterStep(ds, before, before, i, threshold, groups);
      clusters', groups' := clusters, groups;
    }
  }

  /** The group seed ds[i] forms with the unassigned detections after it. */
  function SeedGroup(ds: seq<Detection>, flags: seq<bool>, i: nat, threshold: real): Group
    requires i < |ds| && |flags| == |ds|
  {
    Group(ds[i], Absorbed(ds[i], Unassigned(ds, flags, i + 1, |ds|), threshold))
  }

  /**
   * One pass of the outer loop: a flagged detection adds no group; an
   * unflagged one adds its seed group, and the inner loop leaves exactly
   * the kept detections unflagged.
   */
  lemma OuterStep(ds: seq<Detection>, before: seq<bool>, after: seq<bool>, i: nat, threshold: real, groups: seq<Group>)
    requires i < |ds| && |before| == |ds| && |after| == |ds|
    requires Clusters(ds, threshold) == groups + Clusters(Unassigned(ds, before, i, |ds|), threshold)
    requires before[i] ==> after == before
    requires !before[i] ==> Unassigned(ds, after, i + 1, |ds|) == Kept(ds[i], Unassigned(ds, before, i + 1, |ds|), threshold)
    ensures Clusters(ds, threshold)
         == (if before[i] then groups else groups + [SeedGroup(ds, before, i, threshold)])
            + Clusters(Unassigned(ds, after, i + 1, |ds|), threshold)
  {
    if before[i] {
      UnassignedFront(ds, before, i, |ds|);
      assert Unassigned(ds, before, i, |ds|) == Unassigned(ds, before, i + 1, |ds|);
    } else {
      SeedStep(ds, before, after, i, threshold);
      var g := SeedGroup(ds, before, i, threshold);
      var rest := Clusters(Unassigned(ds, after, i + 1, |ds|), threshold);
      assert Clusters(Unassigned(ds, before, i, |ds|), threshold) == [g] + rest;
      assert groups + ([g] + rest) == (groups + [g]) + rest;
    }
  }

  /** The body of the outer loop for an unassigned seed ds[i]: absorb, then build the representative. */
  method GrowCluster(ds: seq<Detection>, i: nat, threshold: real, truncated: bool, assignments: array<bool>)
    returns (cluster: Detection)
    requires i < |ds| == assignments.Length
    modifies assignments
    ensures Unassigned(ds, assignments[..], i + 1, |ds|)
         == Kept(ds[i], Unassigned(ds, old(assignments[..]), i + 1, |ds|), threshold)
    ensures cluster == Representative(Group(ds[i], Absorbed(ds[i], Unassigned(ds, old(assignments[..]), i + 1, |ds|), threshold)), truncated)
  {
    ghost var before := assignments[..];
    var n, r, c, s, q := AbsorbOverlapping(ds, i, threshold, assignments);
    ghost var g := Group(ds[i], Absorbed(ds[i], Unassigned(ds, before, i + 1, |ds|), threshold));
    RepresentativeOfSums(g, n, r, c, s, q, truncated);
    cluster := Detection(Average(r, n, truncated), Average(c, n, truncated), Average(s, n, truncated), q, ds[i].a);
  }

  /**
   * The inner loop for seed ds[i]: flags every later unassigned detection
   * that overlaps the seed, and returns the count and the running sums.
   */
  method AbsorbOverlapping(ds: seq<Detection>, i: nat, threshold: real, assignments: array<bool>)
    returns (n: nat, r: real, c: real, s: real, q: real)
    requires i < |ds| == assignments.Length
    modifies assignments
    ensures forall k :: 0 <= k <= i ==> assignments[k] == old(assignments[k])
    ensures Unassigned(ds, assignments[..], i + 1, |ds|)
         == Kept(ds[i], Unassigned(ds, old(assignments[..]), i + 1, |ds|), threshold)
    ensures Totals(ds[i], Absorbed(ds[i], Unassigned(ds, old(assignments[..]), i + 1, |ds|), threshold), n, r, c, s, q)
  {
    ghost var flags := assignments[..];
    r, c, s, q := ds[i].r, ds[i].c, ds[i].s, ds[i].q;
    n := 1;
    var j := i + 1;
    while j < |ds|
      invariant i + 1 <= j <= |ds| && flags == old(assignments[..])
      invariant forall k :: 0 <= k <= i || j <= k < |ds| ==> assignments[k] == flags[k]
      invariant Unassigned(ds, assignments[..], i + 1, j) == Kept(ds[i], Unassigned(ds, flags, i + 1, j), threshold)
      invariant Totals(ds[i], Absorbed(ds[i], Unassigned(ds, flags, i + 1, j), threshold), n, r, c, s, q)
    {
      n, r, c, s, q := AbsorbOne(ds, i, j, threshold, assignments, flags, n, r, c, s, q);
      j := j + 1;
    }
  }

  /** One pass of the inner loop: detection j joins the seed's cluster when it is unassigned and overlaps the seed. */
  method AbsorbOne(ds: seq<Detection>, i: nat, j: nat, threshold: real, assignments: array<bool>, ghost flags: seq<bool>,
                   n: nat, r: real, c: real, s: real, q: real)
    returns (n': nat, r': real, c': real, s': real, q': real)
    requires i + 1 <= j < |ds| == assignments.Length && |flags| == |ds|
    requires assignments[j] == flags[j]
    requires Unassigned(ds, assignments[..], i + 1, j) == Kept(ds[i], Unassigned(ds, flags, i + 1, j), threshold)
    requires Totals(ds[i], Absorbed(ds[i], Unassigned(ds, flags, i + 1, j), threshold), n, r, c, s, q)
    modifies assignments
    ensures forall k :: 0 <= k < |ds| && k != j ==> assignments[k] == old(assignments[k])
    ensures Unassigned(ds, assignments[..], i + 1, j + 1) == Kept(ds[i], Unassigned(ds, flags, i + 1, j + 1), threshold)
    ensures Totals(ds[i], Absorbed(ds[i], Unassigned(ds, flags, i + 1, j + 1), threshold), n', r', c', s', q')
  {
    ghost var members := Absorbed(ds[i], Unassigned(ds, flags, i + 1, j), threshold);
    ghost var prev := assignments[..];
    AbsorbedStep(ds, flags, i, j, threshold);
    n', r', c', s', q' := n, r, c, s, q;
    if !assignments[j] && Overlaps(ds[i], ds[j], threshold) {
      TotalsSnoc(ds[i], members, ds[j], n, r, c, s, q);
      assignments[j] := true;
      r', c', s', q' := r + ds[j].r, c + ds[j].c, s + ds[j].s, q + ds[j].q;
      n' := n + 1;
    } else {
      assert members + [] == members;
    }
    InnerStep(ds, flags, prev, assignments[..], i, j, threshold);
  }
}
