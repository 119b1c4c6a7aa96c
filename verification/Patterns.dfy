/** Benjamini-Hochberg step-up selection (tools/patterns.py): the sorted-rank procedure, proved
    against a definition that never sorts. */
module Patterns {
  import opened Prelude
  import opened StableSort

  /** The bar the k-th smallest of n p-values has to clear. */
  function Level(q: real, k: nat, n: nat): real
    requires n > 0
  {
    q * k as real / n as real
  }

  /** Rank r (from 1) passes when the r-th smallest p-value is at most its level. */
  predicate RankPasses(p: seq<real>, q: real, r: nat)
    requires 1 <= r <= |p|
  {
    p[ArgSort(p)[r - 1]] <= Level(q, r, |p|)
  }

  /** The last passing rank among the first m, or 0. */
  function ThresholdRank(p: seq<real>, q: real, m: nat): (k: nat)
    requires m <= |p|
    ensures k <= m
    ensures k > 0 ==> RankPasses(p, q, k)
    ensures forall r | k < r <= m :: !RankPasses(p, q, r)
  {
    if m == 0 then 0 else if RankPasses(p, q, m) then m else ThresholdRank(p, q, m - 1)
  }

  // ------------------------------------------- the definition that never sorts

  function AtMost(p: seq<real>, x: real): set<nat> {
    set i | 0 <= i < |p| && p[i] <= x
  }

  /** At least k of the p-values are at most the k-th level. */
  predicate Supported(p: seq<real>, q: real, k: nat) {
    k == 0 || (k <= |p| && |AtMost(p, Level(q, k, |p|))| >= k)
  }

  /** k is the largest supported count. */
  ghost predicate LargestSupported(p: seq<real>, q: real, k: nat) {
    Supported(p, q, k) && forall m: nat | Supported(p, q, m) :: m <= k
  }

  ghost predicate Survives(p: seq<real>, q: real, k: nat, i: nat)
    requires i < |p|
  {
    p[i] <= Level(q, k, |p|)
  }

  function Survivors(survive: seq<bool>): set<nat> {
    set i | 0 <= i < |survive| && survive[i]
  }

  // ------------------------------------------- the same, in products instead of levels

  /** x, times the number of tests, is at most m times q. */
  predicate Clears(x: real, q: real, m: nat, n: nat) {
    x * n as real <= q * m as real
  }

  function Clearing(p: seq<real>, q: real, m: nat): set<nat> {
    set i | 0 <= i < |p| && Clears(p[i], q, m, |p|)
  }

  lemma LevelIsAProduct(x: real, q: real, k: nat, n: nat)
    requires n > 0
    ensures x <= Level(q, k, n) <==> Clears(x, q, k, n)
  {
    var y, d := q * k as real, n as real;
    QuotientTimes(y, d);
    if x <= y / d {
      TimesKeepsOrder(x, y / d, d);
    } else {
      TimesKeepsStrictOrder(y / d, x, d);
    }
  }

  lemma QuotientTimes(y: real, d: real)
    requires d > 0.0
    ensures y / d * d == y
  {
  }

  lemma TimesKeepsOrder(x: real, y: real, d: real)
    requires d > 0.0 && x <= y
    ensures x * d <= y * d
  {
  }

  lemma TimesKeepsStrictOrder(x: real, y: real, d: real)
    requires d > 0.0 && x < y
    ensures x * d < y * d
  {
  }

  lemma ClearingIsAtMost(p: seq<real>, q: real, m: nat)
    requires |p| > 0
    ensures Clearing(p, q, m) == AtMost(p, Level(q, m, |p|))
  {
    forall i: nat | i < |p| ensures i in Clearing(p, q, m) <==> i in AtMost(p, Level(q, m, |p|)) {
      LevelIsAProduct(p[i], q, m, |p|);
    }
  }

  /** k is the largest count of which at least as many p-values clear the bar. */
  ghost predicate LargestClearing(p: seq<real>, q: real, k: nat) {
    k <= |p| && |Clearing(p, q, k)| >= k && forall m: nat | k < m <= |p| :: |Clearing(p, q, m)| < m
  }

  lemma LargestSupportedClears(p: seq<real>, q: real, k: nat)
    requires LargestSupported(p, q, k)
    ensures LargestClearing(p, q, k)
  {
    if |p| > 0 {
      ClearingIsAtMost(p, q, k);
      forall m: nat | k < m <= |p| ensures |Clearing(p, q, m)| < m {
        ClearingIsAtMost(p, q, m);
        assert !Supported(p, q, m);
      }
    }
  }

  /** The last rank whose p-value clears its own bar. */
  ghost predicate LastClearingRank(p: seq<real>, q: real, k: nat) {
    && k <= |p| && (k > 0 ==> RankClears(p, q, k))
    && forall r | k < r <= |p| :: !RankClears(p, q, r)
  }

  predicate RankClears(p: seq<real>, q: real, r: nat)
    requires 1 <= r <= |p|
  {
    Clears(p[ArgSort(p)[r - 1]], q, r, |p|)
  }

  lemma RankPassesIffClears(p: seq<real>, q: real, r: nat)
    requires 1 <= r <= |p|
    ensures RankPasses(p, q, r) <==> RankClears(p, q, r)
  {
    LevelIsAProduct(p[ArgSort(p)[r - 1]], q, r, |p|);
  }

  lemma ThresholdRankClears(p: seq<real>, q: real)
    ensures LastClearingRank(p, q, ThresholdRank(p, q, |p|))
  {
    var k := ThresholdRank(p, q, |p|);
    if k > 0 {
      RankPassesIffClears(p, q, k);
    }
    forall r: nat | k < r <= |p| ensures !RankClears(p, q, r) {
      RankPassesIffClears(p, q, r);
    }
  }

  lemma SurvivesIffClears(p: seq<real>, q: real, k: nat)
    requires |p| > 0
    ensures forall i | 0 <= i < |p| :: Survives(p, q, k, i) <==> Clears(p[i], q, k, |p|)
  {
    forall i: nat | i < |p| ensures Survives(p, q, k, i) <==> Clears(p[i], q, k, |p|) {
      LevelIsAProduct(p[i], q, k, |p|);
    }
  }

  method BenjaminiHochberg(p: seq<real>, q: real) returns (survive: seq<bool>)
    ensures |survive| == |p|
    // whatever q is, survival runs through the ranks up to the last passing one and stops
    ensures LastClearingRank(p, q, |Survivors(survive)|)
    ensures forall r | 0 <= r < |p| :: survive[ArgSort(p)[r]] <==> r < |Survivors(survive)|
    // and for a level q >= 0 it is the sort-free rule
    ensures q >= 0.0 ==> LargestClearing(p, q, |Survivors(survive)|)
    ensures q >= 0.0 ==>
      forall i | 0 <= i < |p| :: survive[i] <==> Clears(p[i], q, |Survivors(survive)|, |p|)
  {
    var n := |p|;
    if n == 0 {
      survive := [];
      assert Survivors(survive) == {} && Clearing(p, q, 0) == {};
      return;
    }
    var order := ArgSort(p);
    ArgSortRanks(p);
    var flags := new bool[n](_ => false);
    var thresholdRank := -1;
    for rank := 1 to n + 1
      invariant thresholdRank == if ThresholdRank(p, q, rank - 1) == 0 then -1 else ThresholdRank(p, q, rank - 1)
    {
      if p[order[rank - 1]] <= Level(q, rank, n) {
        thresholdRank := rank;
      }
    }
    ghost var k := ThresholdRank(p, q, n);
    for rank := 1 to n + 1
      invariant forall r | 0 <= r < n :: flags[order[r]] <==> r < k && r + 1 < rank
    {
      if rank <= thresholdRank {
        flags[order[rank - 1]] := true;
      }
    }
    survive := flags[..];
    RankFlags(p, q, survive, k);
    RankFlagsInProducts(p, q, survive, k);
  }

  /** Flags that run through the ranks 1..k, read by index instead of by rank. */
  lemma RankFlags(p: seq<real>, q: real, survive: seq<bool>, k: nat)
    requires |survive| == |p| > 0 && k == ThresholdRank(p, q, |p|)
    requires forall r | 0 <= r < |p| :: survive[ArgSort(p)[r]] <==> r < k
    ensures k == |Survivors(survive)|
    ensures q >= 0.0 ==> LargestSupported(p, q, k)
    ensures q >= 0.0 ==> forall i | 0 <= i < |p| :: survive[i] <==> Survives(p, q, k, i)
  {
    ArgSortRanks(p);
    RankFlagsCount(ArgSort(p), survive, k);
    if q >= 0.0 {
      StepUpIsLargestSupported(p, q);
      RankFlagsLevel(p, q, survive, k);
    }
  }

  lemma RankFlagsInProducts(p: seq<real>, q: real, survive: seq<bool>, k: nat)
    requires |survive| == |p| > 0 && k == ThresholdRank(p, q, |p|) == |Survivors(survive)|
    requires q >= 0.0 ==> LargestSupported(p, q, k) && forall i | 0 <= i < |p| :: survive[i] <==> Survives(p, q, k, i)
    ensures LastClearingRank(p, q, k) && (q >= 0.0 ==> LargestClearing(p, q, k))
    ensures q >= 0.0 ==> forall i | 0 <= i < |p| :: survive[i] <==> Clears(p[i], q, k, |p|)
  {
    ThresholdRankClears(p, q);
    SurvivesIffClears(p, q, k);
    if q >= 0.0 {
      LargestSupportedClears(p, q, k);
    }
  }

  lemma RankFlagsCount(order: seq<nat>, survive: seq<bool>, k: nat)
    requires IsPermutation(order, |survive|) && |order| == |survive| && k <= |order|
    requires forall r | 0 <= r < |order| :: order[r] < |survive|
    requires forall r | 0 <= r < |order| :: survive[order[r]] <==> r < k
    ensures k == |Survivors(survive)|
  {
    PermutationFacts(order, |survive|);
    PrefixSize(order, k, |survive|);
    forall i | i in Survivors(survive) ensures i in RankSet(order, k) {
      assert i in order;
    }
    assert Survivors(survive) == RankSet(order, k);
  }

  lemma RankFlagsLevel(p: seq<real>, q: real, survive: seq<bool>, k: nat)
    requires q >= 0.0 && |survive| == |p| > 0 && k == ThresholdRank(p, q, |p|)
    requires forall r | 0 <= r < |p| :: survive[ArgSort(p)[r]] <==> r < k
    ensures forall i | 0 <= i < |p| :: survive[i] <==> Survives(p, q, k, i)
  {
    StepUpIsLevelTest(p, q);
    ArgSortRanks(p);
    PermutationFacts(ArgSort(p), |p|);
    forall i | 0 <= i < |p| ensures survive[i] <==> Survives(p, q, k, i) {
      assert i in ArgSort(p);
    }
  }

  lemma SubsetSize<T>(a: set<T>, b: set<T>)
    requires a <= b
    ensures |a| <= |b|
  {
    assert b == a + (b - a);
  }

  /** The (r+1)-th smallest value is at most x exactly when more than r values are. */
  lemma OrderStatistic(p: seq<real>, x: real, r: nat)
    requires r < |p|
    ensures p[ArgSort(p)[r]] <= x <==> |AtMost(p, x)| >= r + 1
  {
    var order := ArgSort(p);
    ArgSortRanks(p);
    PermutationFacts(order, |p|);
    if p[order[r]] <= x {
      PrefixSize(order, r + 1, |p|);
      SubsetSize(RankSet(order, r + 1), AtMost(p, x));
    } else {
      PrefixSize(order, r, |p|);
      forall i | i in AtMost(p, x) ensures i in RankSet(order, r) {
        assert i in order;
        var s :| 0 <= s < |p| && order[s] == i;
        assert s < r;
      }
      SubsetSize(AtMost(p, x), RankSet(order, r));
    }
  }

  lemma LevelMonotone(q: real, j: nat, k: nat, n: nat)
    requires q >= 0.0 && j <= k && n > 0
    ensures Level(q, j, n) <= Level(q, k, n)
  {
  }

  lemma LevelMonotoneInQ(q: real, q': real, k: nat, n: nat)
    requires q <= q' && n > 0
    ensures Level(q, k, n) <= Level(q', k, n)
  {
  }

  /** The last passing rank is the largest count k with at least k p-values at most q*k/n. */
  lemma StepUpIsLargestSupported(p: seq<real>, q: real)
    requires q >= 0.0
    ensures LargestSupported(p, q, ThresholdRank(p, q, |p|))
  {
    var k := ThresholdRank(p, q, |p|);
    if k > 0 {
      OrderStatistic(p, Level(q, k, |p|), k - 1);
    }
    forall m: nat | k < m <= |p| ensures !Supported(p, q, m) {
      assert !RankPasses(p, q, m);
      OrderStatistic(p, Level(q, m, |p|), m - 1);
    }
  }

  /** Ties never straddle the cut: being ranked within the cut and being at most the cut's
      level are the same thing. */
  lemma StepUpIsLevelTest(p: seq<real>, q: real)
    requires q >= 0.0 && |p| > 0
    ensures var k := ThresholdRank(p, q, |p|);
      forall r | 0 <= r < |p| :: r < k <==> Survives(p, q, k, ArgSort(p)[r])
  {
    var k := ThresholdRank(p, q, |p|);
    var order := ArgSort(p);
    ArgSortRanks(p);
    forall r | 0 <= r < |p| ensures r < k <==> Survives(p, q, k, order[r]) {
      if r < k {
        assert p[order[r]] <= p[order[k - 1]];
      } else {
        assert !RankPasses(p, q, r + 1);
        LevelMonotone(q, k, r + 1, |p|);
      }
    }
  }

  /** With k survivors, k is exactly the number of p-values at most q*k/n. */
  lemma CutIsExact(p: seq<real>, q: real, k: nat)
    requires q >= 0.0 && |p| > 0 && LargestSupported(p, q, k)
    ensures |AtMost(p, Level(q, k, |p|))| == k
  {
    var m := |AtMost(p, Level(q, k, |p|))|;
    if m > k {
      AtMostSize(p, Level(q, k, |p|));
      LevelMonotone(q, k, m, |p|);
      SubsetSize(AtMost(p, Level(q, k, |p|)), AtMost(p, Level(q, m, |p|)));
      assert Supported(p, q, m);
    }
  }

  lemma AtMostSize(p: seq<real>, x: real)
    ensures |AtMost(p, x)| <= |p|
  {
    var order := ArgSort(p);
    ArgSortRanks(p);
    PrefixSize(order, |p|, |p|);
    PermutationFacts(order, |p|);
    forall i | i in AtMost(p, x) ensures i in RankSet(order, |p|) {
      assert i in order;
    }
    SubsetSize(AtMost(p, x), RankSet(order, |p|));
  }

  /** Raising the level, or lowering any p-values, never loses a survivor. */
  lemma SurvivalIsMonotone(p: seq<real>, q: real, k: nat, p': seq<real>, q': real, k': nat, i: nat)
    requires 0.0 <= q <= q' && |p| == |p'| && i < |p|
    requires forall j | 0 <= j < |p| :: p'[j] <= p[j]
    requires LargestSupported(p, q, k) && LargestSupported(p', q', k')
    requires Survives(p, q, k, i)
    ensures k <= k' && Survives(p', q', k', i)
  {
    var n := |p|;
    LevelMonotoneInQ(q, q', k, n);
    SubsetSize(AtMost(p, Level(q, k, n)), AtMost(p', Level(q', k, n)));
    assert k <= n;
    assert Supported(p', q', k);
    LevelMonotone(q', k, k', n);
  }

  /** Reordering the hypotheses reorders the verdicts and changes none of them. */
  lemma SurvivalIsEquivariant(p: seq<real>, q: real, k: nat, perm: seq<nat>, p': seq<real>, k': nat)
    requires IsPermutation(perm, |p|) && |p'| == |p|
    requires |perm| == |p| && forall i | 0 <= i < |p| :: perm[i] < |p| && p'[i] == p[perm[i]]
    requires LargestSupported(p, q, k) && LargestSupported(p', q, k')
    ensures k == k'
    ensures forall i | 0 <= i < |p| :: Survives(p', q, k', i) <==> Survives(p, q, k, perm[i])
  {
    PermutationFacts(perm, |p|);
    forall x ensures |AtMost(p', x)| == |AtMost(p, x)| {
      ImageSize(perm, AtMost(p', x));
      assert AtMost(p, x) == set i | i in AtMost(p', x) :: perm[i] by {
        forall v | v in AtMost(p, x) ensures v in set i | i in AtMost(p', x) :: perm[i] {
          assert v in perm;
          var i :| 0 <= i < |p| && perm[i] == v;
          assert i in AtMost(p', x);
        }
      }
    }
    assert forall m: nat :: Supported(p, q, m) == Supported(p', q, m);
  }

  lemma {:induction false} ImageSize(perm: seq<nat>, s: set<nat>)
    requires forall i | i in s :: i < |perm|
    requires forall i, j | 0 <= i < j < |perm| :: perm[i] != perm[j]
    ensures |set i | i in s :: perm[i]| == |s|
  {
    if s != {} {
      var x :| x in s;
      ImageSize(perm, s - {x});
      assert (set i | i in s :: perm[i]) == (set i | i in s - {x} :: perm[i]) + {perm[x]};
    }
  }
}
