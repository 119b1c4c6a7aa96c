/** The cross-sectional book (tools/cross_search.py): rank the currencies, hold the strongest against
    the weakest, charge turnover. */
module CrossSearch {
  import opened Prelude
  import opened StableSort

  /** One row per symbol, one column per bar. */
  type Grid = seq<seq<real>>

  ghost predicate Rectangular(g: Grid, bars: nat) {
    forall s | 0 <= s < |g| :: |g[s]| == bars
  }

  /** A signal grid; None is NaN. */
  type Signal = seq<seq<Option<real>>>

  ghost predicate SignalOf(signal: Signal, symbols: nat, bars: nat) {
    |signal| == symbols && forall s | 0 <= s < symbols :: |signal[s]| == bars
  }

  /** Legs a side, bars between rebalances, and the weight of one long leg. */
  datatype Params = Params(nLegs: nat, hold: nat, leg: real) {
    ghost predicate Valid() {
      nLegs > 0 && hold > 0
    }
  }

  /** The source's parameters: the side's unit of exposure is shared by its legs. */
  function Signed(nLegs: nat, hold: nat, sign: int): (p: Params)
    requires nLegs > 0 && hold > 0
    ensures p.Valid()
  {
    Params(nLegs, hold, sign as real / nLegs as real)
  }

  function Column(g: Grid, bars: nat, t: nat): (x: seq<real>)
    requires Rectangular(g, bars) && t < bars
    ensures |x| == |g| && forall s | 0 <= s < |g| :: x[s] == g[s][t]
  {
    seq(|g|, s requires 0 <= s < |g| => g[s][t])
  }

  predicate Ready(signal: Signal, symbols: nat, bars: nat, t: nat)
    requires SignalOf(signal, symbols, bars) && t < bars
  {
    forall s | 0 <= s < symbols :: signal[s][t].Some?
  }

  function Keys(signal: Signal, symbols: nat, bars: nat, t: nat): (x: seq<real>)
    requires SignalOf(signal, symbols, bars) && t < bars && Ready(signal, symbols, bars, t)
    ensures |x| == symbols && forall s | 0 <= s < symbols :: x[s] == signal[s][t].value
  {
    seq(symbols, s requires 0 <= s < symbols => signal[s][t].value)
  }

  // ------------------------------------------------------------ weights

  /** Ranks below this are short; the slice is clamped to the number of symbols. */
  function Shorts(symbols: nat, nLegs: nat): nat {
    if nLegs <= symbols then nLegs else symbols
  }

  /** Ranks from this up are long unless they are also short, which is written second. */
  function FirstLong(symbols: nat, nLegs: nat): nat {
    symbols - Shorts(symbols, nLegs)
  }

  function LegWeight(symbols: nat, nLegs: nat, leg: real, rank: nat): real {
    if rank < Shorts(symbols, nLegs) then -leg
    else if rank >= FirstLong(symbols, nLegs) then leg
    else 0.0
  }

  function RankOf(order: seq<nat>, s: nat): (r: nat)
    requires s in order
    ensures r < |order| && order[r] == s
  {
    if order[0] == s then 0 else RankOf(order[1..], s) + 1
  }

  /** Long the strongest legs, short the weakest, each leg's size the reciprocal of their number. */
  function NewWeights(keys: seq<real>, p: Params): (w: seq<real>)
    requires p.nLegs > 0
    ensures |w| == |keys|
  {
    var order := ArgSort(keys);
    ArgSortRanks(keys);
    PermutationFacts(order, |keys|);
    seq(|keys|, s requires 0 <= s < |keys| => LegWeight(|keys|, p.nLegs, p.leg, RankOf(order, s)))
  }

  /** The weight of the symbol ranked r depends on r alone. */
  lemma WeightByRank(keys: seq<real>, p: Params, r: nat)
    requires p.nLegs > 0 && r < |keys|
    ensures NewWeights(keys, p)[ArgSort(keys)[r]] == LegWeight(|keys|, p.nLegs, p.leg, r)
  {
    ArgSortRanks(keys);
  }

  // ------------------------------------------------------------ weights, read off the keys

  /** The weight of symbol s: the side's unit over the number of legs, short when fewer than that many symbols
      rank below it, else long when that few rank from it up. */
  ghost function LegOf(keys: seq<real>, nLegs: nat, sign: int, s: nat): real
    requires nLegs > 0 && s < |keys|
  {
    if |Outranked(keys, s)| < nLegs then -sign as real / nLegs as real
    else if |Outranked(keys, s)| + nLegs >= |keys| then sign as real / nLegs as real
    else 0.0
  }

  lemma WeightsAreLegs(keys: seq<real>, nLegs: nat, hold: nat, sign: int, s: nat)
    requires nLegs > 0 && hold > 0 && s < |keys|
    ensures NewWeights(keys, Signed(nLegs, hold, sign))[s] == LegOf(keys, nLegs, sign, s)
  {
    ArgSortRanks(keys);
    PermutationFacts(ArgSort(keys), |keys|);
    assert s in ArgSort(keys);
    var r :| 0 <= r < |keys| && ArgSort(keys)[r] == s;
    WeightByRank(keys, Signed(nLegs, hold, sign), r);
    RankIsACount(keys, r);
    NegatedQuotient(sign as real, nLegs as real);
  }

  lemma NegatedQuotient(x: real, d: real)
    requires d != 0.0
    ensures -(x / d) == -x / d
  {
  }

  /** Every key in `side` is at least every key outside it. */
  ghost predicate Strongest(keys: seq<real>, side: set<nat>) {
    forall s: nat, u: nat | s < |keys| && u < |keys| && s in side && u !in side :: keys[s] >= keys[u]
  }

  ghost predicate Weakest(keys: seq<real>, side: set<nat>) {
    forall s: nat, u: nat | s < |keys| && u < |keys| && s in side && u !in side :: keys[s] <= keys[u]
  }

  function RanksFrom(order: seq<nat>, k: nat): set<nat>
    requires k <= |order|
  {
    set r | k <= r < |order| :: order[r]
  }

  lemma {:induction false} SuffixSize(order: seq<nat>, k: nat, n: nat)
    requires k <= |order| && IsPermutation(order, n)
    ensures |RanksFrom(order, k)| == |order| - k
    decreases |order| - k
  {
    PermutationFacts(order, n);
    if k < |order| {
      SuffixSize(order, k + 1, n);
      assert RanksFrom(order, k) == RanksFrom(order, k + 1) + {order[k]};
    } else {
      assert RanksFrom(order, k) == {};
    }
  }

  /** Where in the ranking a symbol is, read off the two ends of it. */
  lemma RankByEnds(keys: seq<real>, s: nat) returns (r: nat)
    requires s < |keys|
    ensures r < |keys| && ArgSort(keys)[r] == s
    ensures forall k: nat | k <= |keys| ::
      (s in RanksFrom(ArgSort(keys), k) <==> k <= r) && (s in RankSet(ArgSort(keys), k) <==> r < k)
  {
    ArgSortRanks(keys);
    PermutationFacts(ArgSort(keys), |keys|);
    assert s in ArgSort(keys);
    r :| 0 <= r < |keys| && ArgSort(keys)[r] == s;
  }

  lemma EndsAreExtremes(keys: seq<real>, k: nat)
    requires k <= |keys|
    ensures Strongest(keys, RanksFrom(ArgSort(keys), k)) && Weakest(keys, RankSet(ArgSort(keys), k))
  {
    ArgSortRanks(keys);
    forall s: nat, u: nat | s < |keys| && u < |keys|
      ensures s in RanksFrom(ArgSort(keys), k) && u !in RanksFrom(ArgSort(keys), k) ==> keys[s] >= keys[u]
      ensures s in RankSet(ArgSort(keys), k) && u !in RankSet(ArgSort(keys), k) ==> keys[s] <= keys[u]
    {
      var r := RankByEnds(keys, s);
      var q := RankByEnds(keys, u);
    }
  }

  ghost predicate Legs(keys: seq<real>, longs: set<nat>, shorts: set<nat>, nLegs: nat) {
    && |longs| == nLegs && |shorts| == nLegs && longs !! shorts
    && (forall s | s in longs + shorts :: s < |keys|)
    && Strongest(keys, longs) && Weakest(keys, shorts)
  }

  lemma EndsAreApart(order: seq<nat>, k: nat, k': nat, n: nat)
    requires IsPermutation(order, n) && k <= k' <= |order|
    ensures RanksFrom(order, k') !! RankSet(order, k)
    ensures forall s | s in RanksFrom(order, k') + RankSet(order, k) :: s < n
  {
    PermutationFacts(order, n);
  }

  lemma EndSizes(keys: seq<real>, k: nat, k': nat)
    requires k <= k' <= |keys|
    ensures |RankSet(ArgSort(keys), k)| == k && |RanksFrom(ArgSort(keys), k')| == |keys| - k'
    ensures RanksFrom(ArgSort(keys), k') !! RankSet(ArgSort(keys), k)
    ensures forall s | s in RanksFrom(ArgSort(keys), k') + RankSet(ArgSort(keys), k) :: s < |keys|
  {
    ArgSortRanks(keys);
    PrefixSize(ArgSort(keys), k, |keys|);
    SuffixSize(ArgSort(keys), k', |keys|);
    EndsAreApart(ArgSort(keys), k, k', |keys|);
  }

  lemma EndsAreLegs(keys: seq<real>, nLegs: nat)
    requires 2 * nLegs <= |keys|
    ensures Legs(keys, RanksFrom(ArgSort(keys), |keys| - nLegs), RankSet(ArgSort(keys), nLegs), nLegs)
  {
    EndSizes(keys, nLegs, |keys| - nLegs);
    EndsAreExtremes(keys, |keys| - nLegs);
    EndsAreExtremes(keys, nLegs);
  }

  lemma LegOfEnds(keys: seq<real>, nLegs: nat, sign: int, s: nat)
    requires nLegs > 0 && 2 * nLegs <= |keys| && s < |keys|
    ensures LegOf(keys, nLegs, sign, s)
         == if s in RanksFrom(ArgSort(keys), |keys| - nLegs) then sign as real / nLegs as real
            else if s in RankSet(ArgSort(keys), nLegs) then -sign as real / nLegs as real
            else 0.0
  {
    var r := RankByEnds(keys, s);
    RankIsACount(keys, r);
  }

  /** The book a rebalance takes: for a positive sign long the strongest nLegs symbols and short the weakest
      nLegs, one nLegs-th of a unit each, and nothing else. */
  lemma LegsAreTheExtremes(keys: seq<real>, nLegs: nat, hold: nat, sign: int)
    returns (longs: set<nat>, shorts: set<nat>)
    requires nLegs > 0 && hold > 0 && 2 * nLegs <= |keys|
    ensures Legs(keys, longs, shorts, nLegs)
    ensures forall s | 0 <= s < |keys| ::
      NewWeights(keys, Signed(nLegs, hold, sign))[s] == (if s in longs then sign as real / nLegs as real
                                                         else if s in shorts then -sign as real / nLegs as real
                                                         else 0.0)
  {
    longs, shorts := RanksFrom(ArgSort(keys), |keys| - nLegs), RankSet(ArgSort(keys), nLegs);
    EndsAreLegs(keys, nLegs);
    forall s: nat | s < |keys|
      ensures NewWeights(keys, Signed(nLegs, hold, sign))[s]
           == (if s in longs then sign as real / nLegs as real
               else if s in shorts then -sign as real / nLegs as real
               else 0.0)
    {
      WeightsAreLegs(keys, nLegs, hold, sign, s);
      LegOfEnds(keys, nLegs, sign, s);
    }
  }

  function At(w: seq<real>, s: nat): real {
    if s < |w| then w[s] else 0.0
  }

  function WeightOf(w: seq<real>): nat -> real {
    (s: nat) => At(w, s)
  }

  function ProductOf(w: seq<real>, x: seq<real>): nat -> real {
    (s: nat) => At(w, s) * At(x, s)
  }

  function CostOf(w: seq<real>, w': seq<real>, spreads: seq<real>): nat -> real {
    (s: nat) => Abs(At(w', s) - At(w, s)) * At(spreads, s)
  }

  function TotalWeight(w: seq<real>): real {
    SumBy(WeightOf(w), Indices(|w|))
  }

  function Dot(w: seq<real>, x: seq<real>): real {
    SumBy(ProductOf(w, x), Indices(|w|))
  }

  function Turnover(w: seq<real>, w': seq<real>, spreads: seq<real>): real {
    SumBy(CostOf(w, w', spreads), Indices(|w|))
  }

  // ------------------------------------------------------------ the book

  predicate Rebalances(signal: Signal, symbols: nat, bars: nat, p: Params, t: nat)
    requires SignalOf(signal, symbols, bars) && t < bars && p.hold > 0
  {
    OnTheBeat(t, p.hold) && Ready(signal, symbols, bars, t)
  }

  /** The weights held before bar t. */
  function Before(signal: Signal, symbols: nat, bars: nat, p: Params, t: nat): (w: seq<real>)
    requires SignalOf(signal, symbols, bars) && t <= bars && p.Valid()
    ensures |w| == symbols
    decreases t, 0
  {
    if t == 0 then seq(symbols, _ => 0.0) else Weights(signal, symbols, bars, p, t - 1)
  }

  /** The weights held over bar t. */
  function Weights(signal: Signal, symbols: nat, bars: nat, p: Params, t: nat): (w: seq<real>)
    requires SignalOf(signal, symbols, bars) && t < bars && p.Valid()
    ensures |w| == symbols
    decreases t, 1
  {
    if Rebalances(signal, symbols, bars, p, t) then NewWeights(Keys(signal, symbols, bars, t), p)
    else Before(signal, symbols, bars, p, t)
  }

  function Charge(signal: Signal, symbols: nat, bars: nat, spreads: seq<real>, p: Params, t: nat): real
    requires SignalOf(signal, symbols, bars) && t < bars && p.Valid()
  {
    if Rebalances(signal, symbols, bars, p, t)
    then Turnover(Before(signal, symbols, bars, p, t), Weights(signal, symbols, bars, p, t), spreads)
    else 0.0
  }

  /** The book's return over bar t, net of turnover cost. */
  function NetReturn(rets: Grid, bars: nat, signal: Signal, spreads: seq<real>, p: Params, t: nat): real
    requires Rectangular(rets, bars) && SignalOf(signal, |rets|, bars) && t < bars && p.Valid()
  {
    Dot(Weights(signal, |rets|, bars, p, t), Column(rets, bars, t))
      - Charge(signal, |rets|, bars, spreads, p, t)
  }

  // ------------------------------------------------------------ the book, read off the signal

  /** Every hold bars, if the signal is finite across the board. */
  ghost predicate Due(signal: Signal, symbols: nat, bars: nat, hold: nat, t: nat)
    requires SignalOf(signal, symbols, bars) && t < bars && hold > 0
  {
    t % hold == 0 && forall s | 0 <= s < symbols :: signal[s][t].Some?
  }

  /** Weights w are the legs of the signal at t. */
  ghost predicate Follow(signal: Signal, symbols: nat, bars: nat, nLegs: nat, hold: nat, sign: int, t: nat,
                         w: seq<real>)
    requires SignalOf(signal, symbols, bars) && t < bars && nLegs > 0 && hold > 0 && |w| == symbols
    requires Due(signal, symbols, bars, hold, t)
  {
    var keys := seq(symbols, s requires 0 <= s < symbols => signal[s][t].value);
    forall s | 0 <= s < symbols :: w[s] == LegOf(keys, nLegs, sign, s)
  }

  /** What the first n weights earn over bar t. */
  ghost function Earned(w: seq<real>, rets: Grid, bars: nat, t: nat, n: nat): real
    requires Rectangular(rets, bars) && t < bars && n <= |w| && n <= |rets|
  {
    if n == 0 then 0.0 else Earned(w, rets, bars, t, n - 1) + w[n - 1] * rets[n - 1][t]
  }

  /** What changing the first n weights costs. */
  ghost function Paid(w: seq<real>, w': seq<real>, spreads: seq<real>, n: nat): real
    requires n <= |w| && n <= |w'| && n <= |spreads|
  {
    if n == 0 then 0.0
    else Paid(w, w', spreads, n - 1)
         + (if w'[n - 1] >= w[n - 1] then w'[n - 1] - w[n - 1] else w[n - 1] - w'[n - 1]) * spreads[n - 1]
  }

  /** Bar t takes the book from w to w', for out. */
  ghost predicate IsBar(rets: Grid, bars: nat, signal: Signal, spreads: seq<real>, nLegs: nat, hold: nat, sign: int,
                        t: nat, w: seq<real>, w': seq<real>, out: real)
    requires Rectangular(rets, bars) && SignalOf(signal, |rets|, bars) && |spreads| == |rets|
    requires nLegs > 0 && hold > 0 && t < bars
  {
    && |w| == |w'| == |rets|
    && (if Due(signal, |rets|, bars, hold, t) then Follow(signal, |rets|, bars, nLegs, hold, sign, t, w') else w' == w)
    && out == Earned(w', rets, bars, t, |rets|)
              - if Due(signal, |rets|, bars, hold, t) then Paid(w, w', spreads, |rets|) else 0.0
  }

  /** The books before and after every bar, flat at first. */
  ghost predicate KeepsBooks(rets: Grid, bars: nat, signal: Signal, spreads: seq<real>, nLegs: nat, hold: nat,
                             sign: int, books: seq<seq<real>>, out: seq<real>)
    requires Rectangular(rets, bars) && SignalOf(signal, |rets|, bars) && |spreads| == |rets|
    requires nLegs > 0 && hold > 0
  {
    && |books| == bars + 1 && |out| == bars && books[0] == seq(|rets|, _ => 0.0)
    && forall t | 0 <= t < bars ::
         IsBar(rets, bars, signal, spreads, nLegs, hold, sign, t, books[t], books[t + 1], out[t])
  }

  lemma {:induction false} EarnedIsDot(w: seq<real>, rets: Grid, bars: nat, t: nat, n: nat)
    requires Rectangular(rets, bars) && t < bars && n <= |w| == |rets|
    ensures Earned(w, rets, bars, t, n) == SumBy(ProductOf(w, Column(rets, bars, t)), Indices(n))
  {
    if n > 0 {
      assert Indices(n)[..n - 1] == Indices(n - 1);
      EarnedIsDot(w, rets, bars, t, n - 1);
    }
  }

  lemma LegIsPaid(w: seq<real>, w': seq<real>, spreads: seq<real>, s: nat)
    requires s < |w| == |w'| == |spreads|
    ensures CostOf(w, w', spreads)(s) == (if w'[s] >= w[s] then w'[s] - w[s] else w[s] - w'[s]) * spreads[s]
  {
    assert Abs(w'[s] - w[s]) == if w'[s] >= w[s] then w'[s] - w[s] else w[s] - w'[s];
  }

  lemma {:induction false} PaidIsTurnover(w: seq<real>, w': seq<real>, spreads: seq<real>, n: nat)
    requires n <= |w| == |w'| == |spreads|
    ensures Paid(w, w', spreads, n) == SumBy(CostOf(w, w', spreads), Indices(n))
  {
    if n > 0 {
      assert Indices(n)[..n - 1] == Indices(n - 1);
      PaidIsTurnover(w, w', spreads, n - 1);
      LegIsPaid(w, w', spreads, n - 1);
    }
  }

  lemma DueIsRebalance(signal: Signal, symbols: nat, bars: nat, p: Params, t: nat)
    requires SignalOf(signal, symbols, bars) && t < bars && p.Valid()
    ensures Due(signal, symbols, bars, p.hold, t) <==> Rebalances(signal, symbols, bars, p, t)
  {
    BeatIsRemainder(t, p.hold);
  }

  lemma RebalanceFollows(signal: Signal, symbols: nat, bars: nat, nLegs: nat, hold: nat, sign: int, t: nat)
    requires SignalOf(signal, symbols, bars) && t < bars && nLegs > 0 && hold > 0 && Due(signal, symbols, bars, hold, t)
    ensures Rebalances(signal, symbols, bars, Signed(nLegs, hold, sign), t)
    ensures Follow(signal, symbols, bars, nLegs, hold, sign, t,
                   Weights(signal, symbols, bars, Signed(nLegs, hold, sign), t))
  {
    var keys := seq(symbols, s requires 0 <= s < symbols => signal[s][t].value);
    DueIsRebalance(signal, symbols, bars, Signed(nLegs, hold, sign), t);
    assert keys == Keys(signal, symbols, bars, t);
    forall s: nat | s < symbols
      ensures Weights(signal, symbols, bars, Signed(nLegs, hold, sign), t)[s] == LegOf(keys, nLegs, sign, s)
    {
      WeightsAreLegs(keys, nLegs, hold, sign, s);
    }
  }

  lemma NetReturnIsBar(rets: Grid, bars: nat, signal: Signal, spreads: seq<real>, nLegs: nat, hold: nat, sign: int,
                       t: nat)
    requires Rectangular(rets, bars) && SignalOf(signal, |rets|, bars) && |spreads| == |rets|
    requires nLegs > 0 && hold > 0 && t < bars
    ensures var p := Signed(nLegs, hold, sign);
      IsBar(rets, bars, signal, spreads, nLegs, hold, sign, t, Before(signal, |rets|, bars, p, t),
            Weights(signal, |rets|, bars, p, t), NetReturn(rets, bars, signal, spreads, p, t))
  {
    var n, p := |rets|, Signed(nLegs, hold, sign);
    var w, w' := Before(signal, n, bars, p, t), Weights(signal, n, bars, p, t);
    DueIsRebalance(signal, n, bars, p, t);
    EarnedIsDot(w', rets, bars, t, n);
    PaidIsTurnover(w, w', spreads, n);
    if Due(signal, n, bars, hold, t) {
      RebalanceFollows(signal, n, bars, nLegs, hold, sign, t);
    }
  }

  /** The specified returns are those of the books the signal calls for. */
  lemma ReturnsKeepBooks(rets: Grid, bars: nat, signal: Signal, spreads: seq<real>, nLegs: nat, hold: nat, sign: int,
                         out: seq<real>)
    requires Rectangular(rets, bars) && SignalOf(signal, |rets|, bars) && |spreads| == |rets|
    requires nLegs > 0 && hold > 0 && |out| == bars
    requires forall t | 0 <= t < bars :: out[t] == NetReturn(rets, bars, signal, spreads, Signed(nLegs, hold, sign), t)
    ensures exists books :: KeepsBooks(rets, bars, signal, spreads, nLegs, hold, sign, books, out)
  {
    var p := Signed(nLegs, hold, sign);
    var books := seq(bars + 1, t requires 0 <= t <= bars => Before(signal, |rets|, bars, p, t));
    forall t | 0 <= t < bars
      ensures IsBar(rets, bars, signal, spreads, nLegs, hold, sign, t, books[t], books[t + 1], out[t])
    {
      NetReturnIsBar(rets, bars, signal, spreads, nLegs, hold, sign, t);
    }
    assert KeepsBooks(rets, bars, signal, spreads, nLegs, hold, sign, books, out);
  }

  method Portfolio(rets: Grid, bars: nat, signal: Signal, spreads: seq<real>, nLegs: nat, hold: nat,
                   sign: int) returns (out: seq<real>)
    requires Rectangular(rets, bars) && SignalOf(signal, |rets|, bars) && |spreads| == |rets|
    requires nLegs > 0 && hold > 0
    ensures |out| == bars
    ensures forall t | 0 <= t < bars ::
      out[t] == NetReturn(rets, bars, signal, spreads, Signed(nLegs, hold, sign), t)
    // read off the signal alone: flat books that take its legs every hold bars
    ensures exists books :: KeepsBooks(rets, bars, signal, spreads, nLegs, hold, sign, books, out)
  {
    var p := Signed(nLegs, hold, sign);
    var weights := seq(|rets|, _ => 0.0);
    var net := new real[bars](_ => 0.0);
    for t := 0 to bars
      invariant weights == Before(signal, |rets|, bars, p, t)
      invariant forall u | 0 <= u < bars ::
        net[u] == if u < t then NetReturn(rets, bars, signal, spreads, p, u) else 0.0
    {
      var cost;
      weights, cost := Rebalance(signal, |rets|, bars, spreads, p, t, weights);
      net[t] := net[t] - cost;
      net[t] := net[t] + Dot(weights, Column(rets, bars, t));
    }
    out := net[..];
    ReturnsKeepBooks(rets, bars, signal, spreads, nLegs, hold, sign, out);
  }

  /** What bar t does to the weights, and what that costs. */
  method Rebalance(signal: Signal, symbols: nat, bars: nat, spreads: seq<real>, p: Params, t: nat, held: seq<real>)
    returns (weights: seq<real>, cost: real)
    requires SignalOf(signal, symbols, bars) && t < bars && p.Valid() && held == Before(signal, symbols, bars, p, t)
    ensures weights == Weights(signal, symbols, bars, p, t) && cost == Charge(signal, symbols, bars, spreads, p, t)
  {
    weights, cost := held, 0.0;
    BeatIsRemainder(t, p.hold);
    if t % p.hold == 0 && Ready(signal, symbols, bars, t) {
      weights := NewWeights(Keys(signal, symbols, bars, t), p);
      cost := Turnover(held, weights, spreads);
    }
  }

  // ------------------------------------------------------------ the momentum signal

  /** The sum of a row's first m returns. */
  function Cum(row: seq<real>, m: nat): real
    requires m <= |row|
  {
    Sum(row[..m])
  }

  function Momentum(row: seq<real>, k: nat, t: nat): Option<real>
    requires t < |row|
  {
    if t < k + 1 then None else Some(Cum(row, t) - Cum(row, t - k))
  }

  /** Cumulative return over the k bars ending at t - 1, by difference of prefix sums. */
  function MomentumSignal(rets: Grid, bars: nat, k: nat): (signal: Signal)
    requires Rectangular(rets, bars)
    ensures SignalOf(signal, |rets|, bars)
    ensures forall s, t | 0 <= s < |rets| && 0 <= t < bars :: signal[s][t] == Momentum(rets[s], k, t)
  {
    seq(|rets|, s requires 0 <= s < |rets| => seq(bars, t requires 0 <= t < bars => Momentum(rets[s], k, t)))
  }

  /** The difference of prefix sums is the sum of the k returns before t, and of nothing else. */
  lemma MomentumIsWindowSum(row: seq<real>, k: nat, t: nat)
    requires k + 1 <= t < |row|
    ensures Momentum(row, k, t) == Some(Sum(row[t - k..t]))
  {
    assert row[..t] == row[..t - k] + row[t - k..t];
    SumByConcat((x: real) => x, row[..t - k], row[t - k..t]);
  }

  /** A signal at t is blind to the returns from t on. */
  lemma MomentumIsCausal(row: seq<real>, row': seq<real>, k: nat, t: nat)
    requires t < |row| && t < |row'| && row[..t] == row'[..t]
    ensures Momentum(row, k, t) == Momentum(row', k, t)
  {
    if t >= k + 1 {
      assert row[..t - k] == row[..t][..t - k] == row'[..t][..t - k] == row'[..t - k];
    }
  }

  // ------------------------------------------------------------ the dollar leg

  /** Longs less shorts: zero until the two slices overlap. */
  function NetLegs(symbols: nat, nLegs: nat): int {
    var shorts := Shorts(symbols, nLegs);
    (if FirstLong(symbols, nLegs) < shorts then symbols - shorts else shorts) - shorts
  }

  lemma NetLegsIsZeroWithoutOverlap(symbols: nat, nLegs: nat)
    requires symbols > 0
    ensures NetLegs(symbols, nLegs) == 0 <==> 2 * nLegs <= symbols || nLegs == 0
  {
  }

  /** f reads the weight of a rank: short below lo, flat up to hi, long from there on. */
  ghost predicate ThreeRuns(f: nat -> real, order: seq<nat>, lo: nat, hi: nat, leg: real) {
    && lo <= hi <= |order|
    && forall r | 0 <= r < |order| :: f(order[r]) == if r < lo then -leg else if r < hi then 0.0 else leg
  }

  lemma ShortRunIs(f: nat -> real, order: seq<nat>, lo: nat, hi: nat, leg: real, x: real)
    requires ThreeRuns(f, order, lo, hi, leg) && x == lo as real * -leg
    ensures SumBy(f, order[0..lo]) == x
  {
    SumByConstant(f, -leg, order[0..lo], lo);
  }

  lemma FlatRun(f: nat -> real, order: seq<nat>, lo: nat, hi: nat, leg: real)
    requires ThreeRuns(f, order, lo, hi, leg)
    ensures SumBy(f, order[lo..hi]) == 0.0
  {
    SumByConstant(f, 0.0, order[lo..hi], hi - lo);
  }

  lemma LongRunIs(f: nat -> real, order: seq<nat>, lo: nat, hi: nat, leg: real, y: real)
    requires ThreeRuns(f, order, lo, hi, leg) && y == (|order| - hi) as real * leg
    ensures SumBy(f, order[hi..|order|]) == y
  {
    SumByConstant(f, leg, order[hi..|order|], |order| - hi);
  }

  lemma SumOfThirds(f: nat -> real, order: seq<nat>, lo: nat, hi: nat, x: real, y: real)
    requires lo <= hi <= |order|
    requires x == SumBy(f, order[0..lo]) && SumBy(f, order[lo..hi]) == 0.0 && y == SumBy(f, order[hi..|order|])
    ensures SumBy(f, order) == x + y
  {
    CutInThree(order, lo, hi);
    SumByThree(f, order, order[0..lo], order[lo..hi], order[hi..|order|]);
  }

  lemma RunsSum(f: nat -> real, order: seq<nat>, lo: nat, hi: nat, leg: real, x: real, y: real)
    requires ThreeRuns(f, order, lo, hi, leg) && x == lo as real * -leg && y == (|order| - hi) as real * leg
    ensures SumBy(f, order) == x + y
  {
    ShortRunIs(f, order, lo, hi, leg, x);
    FlatRun(f, order, lo, hi, leg);
    LongRunIs(f, order, lo, hi, leg, y);
    SumOfThirds(f, order, lo, hi, x, y);
  }

  lemma SumOfThreeRuns(f: nat -> real, order: seq<nat>, lo: nat, hi: nat, net: int, leg: real)
    requires ThreeRuns(f, order, lo, hi, leg) && net == |order| - hi - lo
    ensures SumBy(f, order) == net as real * leg
  {
    RunsSum(f, order, lo, hi, leg, lo as real * -leg, (net + lo) as real * leg);
    CollectLegs(lo, net, leg, SumBy(f, order));
  }

  /** The weights of a rebalance sum to the net number of legs, in units of one leg. */
  lemma RebalancedWeightsSum(keys: seq<real>, p: Params)
    requires p.nLegs > 0
    ensures TotalWeight(NewWeights(keys, p)) == NetLegs(|keys|, p.nLegs) as real * p.leg
  {
    var lo := Shorts(|keys|, p.nLegs);
    var hi := if FirstLong(|keys|, p.nLegs) < lo then lo else FirstLong(|keys|, p.nLegs);
    var net := NetLegs(|keys|, p.nLegs);
    assert net == |keys| - hi - lo;
    assert IsPermutation(ArgSort(keys), |keys|) by {
      ArgSortRanks(keys);
    }
    NewWeightsAreThreeRuns(keys, p, lo, hi);
    RankedWeightsSum(NewWeights(keys, p), ArgSort(keys), lo, hi, net, p.leg);
  }

  lemma NewWeightsAreThreeRuns(keys: seq<real>, p: Params, lo: nat, hi: nat)
    requires p.nLegs > 0 && lo == Shorts(|keys|, p.nLegs)
    requires hi == if FirstLong(|keys|, p.nLegs) < lo then lo else FirstLong(|keys|, p.nLegs)
    ensures ThreeRuns(WeightOf(NewWeights(keys, p)), ArgSort(keys), lo, hi, p.leg)
  {
    forall r | 0 <= r < |keys|
      ensures WeightOf(NewWeights(keys, p))(ArgSort(keys)[r]) == LegWeight(|keys|, p.nLegs, p.leg, r)
    {
      WeightByRank(keys, p, r);
    }
  }

  lemma RankedWeightsSum(w: seq<real>, order: seq<nat>, lo: nat, hi: nat, net: int, leg: real)
    requires IsPermutation(order, |w|) && net == |order| - hi - lo && ThreeRuns(WeightOf(w), order, lo, hi, leg)
    ensures TotalWeight(w) == net as real * leg
  {
    SumByPermuted(WeightOf(w), order, Indices(|w|));
    SumOfThreeRuns(WeightOf(w), order, lo, hi, net, leg);
  }

  lemma CollectLegs(lo: nat, net: int, leg: real, total: real)
    requires 0 <= net + lo && total == lo as real * -leg + (net + lo) as real * leg
    ensures total == net as real * leg
  {
  }

  lemma ZeroWeightsSum(n: nat)
    ensures TotalWeight(seq(n, _ => 0.0)) == 0.0
  {
    SumByConstant(WeightOf(seq(n, _ => 0.0)), 0.0, Indices(n), n);
  }

  /** Whether the book has been rebalanced by the close of bar t. */
  predicate Invested(signal: Signal, symbols: nat, bars: nat, p: Params, t: nat)
    requires SignalOf(signal, symbols, bars) && t < bars && p.hold > 0
  {
    exists u | 0 <= u <= t :: Rebalances(signal, symbols, bars, p, u)
  }

  /** The dollars the book is left holding over bar t, in units of one leg. */
  ghost function DollarLeg(signal: Signal, symbols: nat, bars: nat, p: Params, t: nat): real
    requires SignalOf(signal, symbols, bars) && t < bars && p.Valid()
  {
    if Invested(signal, symbols, bars, p, t) then NetLegs(symbols, p.nLegs) as real * p.leg else 0.0
  }

  /** The book is dollar-neutral until its first rebalance, and afterwards carries the net legs. */
  lemma {:induction false} BookWeightsSum(signal: Signal, symbols: nat, bars: nat, p: Params, t: nat)
    requires SignalOf(signal, symbols, bars) && t < bars && p.Valid()
    ensures TotalWeight(Weights(signal, symbols, bars, p, t)) == DollarLeg(signal, symbols, bars, p, t)
  {
    if Rebalances(signal, symbols, bars, p, t) {
      RebalancedWeightsSum(Keys(signal, symbols, bars, t), p);
    } else if t == 0 {
      ZeroWeightsSum(symbols);
    } else {
      BookWeightsSum(signal, symbols, bars, p, t - 1);
    }
  }

  // ------------------------------------------------------------ a move common to every symbol

  /** The same d[t] added to every symbol's return over bar t. */
  function Shifted(rets: Grid, bars: nat, d: seq<real>): (g: Grid)
    requires Rectangular(rets, bars) && |d| == bars
    ensures |g| == |rets| && Rectangular(g, bars)
    ensures forall s, t | 0 <= s < |rets| && 0 <= t < bars :: g[s][t] == rets[s][t] + d[t]
  {
    seq(|rets|, s requires 0 <= s < |rets| => seq(bars, t requires 0 <= t < bars => rets[s][t] + d[t]))
  }

  lemma {:induction false} CumShifts(row: seq<real>, d: seq<real>, row': seq<real>, m: nat)
    requires |row| == |d| == |row'| && m <= |row|
    requires forall t | 0 <= t < |row| :: row'[t] == row[t] + d[t]
    ensures Cum(row', m) == Cum(row, m) + Cum(d, m)
  {
    if m > 0 {
      CumShifts(row, d, row', m - 1);
      assert row[..m][..m - 1] == row[..m - 1] && row'[..m][..m - 1] == row'[..m - 1] && d[..m][..m - 1] == d[..m - 1];
    }
  }

  /** Every symbol's signal moves by the same amount. */
  lemma MomentumShifts(rets: Grid, bars: nat, d: seq<real>, k: nat, s: nat, t: nat)
    requires Rectangular(rets, bars) && |d| == bars && s < |rets| && t < bars
    ensures var x, x' := Momentum(rets[s], k, t), Momentum(Shifted(rets, bars, d)[s], k, t);
      && x.Some? == x'.Some?
      && (x.Some? ==> x'.value == x.value + (Cum(d, t) - Cum(d, t - k)))
  {
    if t >= k + 1 {
      CumShifts(rets[s], d, Shifted(rets, bars, d)[s], t);
      CumShifts(rets[s], d, Shifted(rets, bars, d)[s], t - k);
    }
  }

  /** So every ranking, and with it every weight, is the one there was. */
  lemma {:induction false} WeightsIgnoreCommonMove(rets: Grid, bars: nat, d: seq<real>, k: nat, p: Params, t: nat)
    requires Rectangular(rets, bars) && |d| == bars && t < bars && p.Valid()
    ensures var a, b := MomentumSignal(rets, bars, k), MomentumSignal(Shifted(rets, bars, d), bars, k);
      && Rebalances(a, |rets|, bars, p, t) == Rebalances(b, |rets|, bars, p, t)
      && Before(a, |rets|, bars, p, t) == Before(b, |rets|, bars, p, t)
      && Weights(a, |rets|, bars, p, t) == Weights(b, |rets|, bars, p, t)
    decreases t
  {
    var n := |rets|;
    var a: Signal, b: Signal := MomentumSignal(rets, bars, k), MomentumSignal(Shifted(rets, bars, d), bars, k);
    forall s: nat | s < n
      ensures a[s][t].Some? == b[s][t].Some?
      ensures a[s][t].Some? ==> t >= k && b[s][t].value == a[s][t].value + (Cum(d, t) - Cum(d, t - k))
    {
      MomentumShifts(rets, bars, d, k, s, t);
    }
    assert Ready(a, n, bars, t) == Ready(b, n, bars, t);
    if t > 0 {
      WeightsIgnoreCommonMove(rets, bars, d, k, p, t - 1);
    }
    if Rebalances(a, n, bars, p, t) {
      SameRankingSameWeights(a, b, n, bars, p, t, if t >= k then Cum(d, t) - Cum(d, t - k) else 0.0);
    }
  }

  lemma SameRankingSameWeights(a: Signal, b: Signal, n: nat, bars: nat, p: Params, t: nat, shift: real)
    requires SignalOf(a, n, bars) && SignalOf(b, n, bars) && t < bars && p.nLegs > 0
    requires Ready(a, n, bars, t) && Ready(b, n, bars, t)
    requires forall s | 0 <= s < n :: b[s][t].value == a[s][t].value + shift
    ensures NewWeights(Keys(b, n, bars, t), p) == NewWeights(Keys(a, n, bars, t), p)
  {
    ArgSortShift(Keys(a, n, bars, t), Keys(b, n, bars, t), shift);
  }

  ghost predicate IsShift(x: seq<real>, x': seq<real>, d: real) {
    |x| == |x'| && forall s | 0 <= s < |x| :: x'[s] == x[s] + d
  }

  /** The return every one of n symbols shares. */
  function Common(n: nat, d: real): seq<real> {
    seq(n, _ => d)
  }

  lemma DotShifts(w: seq<real>, x: seq<real>, x': seq<real>, d: real)
    requires |x| == |w| && IsShift(x, x', d)
    ensures Dot(w, x') == Dot(w, x) + Dot(w, Common(|w|, d))
  {
    var c := Common(|w|, d);
    forall s: nat | s < |w| ensures At(w, s) * At(x', s) == At(w, s) * At(x, s) + At(w, s) * At(c, s) {
      Distribute(w[s], x[s], d);
    }
    SumByAdds(ProductOf(w, x), ProductOf(w, c), ProductOf(w, x'), Indices(|w|));
  }

  /** What weights earn on a common return is that return times their sum. */
  lemma DotOfCommon(w: seq<real>, d: real, total: real)
    requires total == TotalWeight(w)
    ensures Dot(w, Common(|w|, d)) == d * total
  {
    SumByScales(ProductOf(w, Common(|w|, d)), WeightOf(w), d, Indices(|w|), total);
  }

  lemma ChargeIgnoresCommonMove(rets: Grid, bars: nat, d: seq<real>, k: nat, spreads: seq<real>, p: Params, t: nat)
    requires Rectangular(rets, bars) && |d| == bars && t < bars && p.Valid()
    ensures Charge(MomentumSignal(Shifted(rets, bars, d), bars, k), |rets|, bars, spreads, p, t)
         == Charge(MomentumSignal(rets, bars, k), |rets|, bars, spreads, p, t)
  {
    WeightsIgnoreCommonMove(rets, bars, d, k, p, t);
  }

  lemma ColumnShifts(rets: Grid, bars: nat, d: seq<real>, w: seq<real>, t: nat)
    requires Rectangular(rets, bars) && |d| == bars && t < bars && |w| == |rets|
    ensures Dot(w, Column(Shifted(rets, bars, d), bars, t))
         == Dot(w, Column(rets, bars, t)) + Dot(w, Common(|w|, d[t]))
  {
    assert IsShift(Column(rets, bars, t), Column(Shifted(rets, bars, d), bars, t), d[t]);
    DotShifts(w, Column(rets, bars, t), Column(Shifted(rets, bars, d), bars, t), d[t]);
  }

  /** Two runs holding the same weights at the same charge differ by what the weights earn. */
  lemma SameBookNet(rets: Grid, rets': Grid, bars: nat, a: Signal, b: Signal, spreads: seq<real>, p: Params, t: nat,
                    delta: real)
    requires Rectangular(rets, bars) && Rectangular(rets', bars) && |rets| == |rets'| && t < bars && p.Valid()
    requires SignalOf(a, |rets|, bars) && SignalOf(b, |rets|, bars)
    requires Charge(a, |rets|, bars, spreads, p, t) == Charge(b, |rets|, bars, spreads, p, t)
    requires Weights(a, |rets|, bars, p, t) == Weights(b, |rets|, bars, p, t)
    requires Dot(Weights(a, |rets|, bars, p, t), Column(rets', bars, t))
          == Dot(Weights(a, |rets|, bars, p, t), Column(rets, bars, t)) + delta
    ensures NetReturn(rets', bars, b, spreads, p, t) == NetReturn(rets, bars, a, spreads, p, t) + delta
  {
  }

  /** What a common dollar move does to a momentum book, costs included: bar t moves by exactly what the
      weights held would earn on the common move alone. */
  lemma CommonMoveIsEarnedAlone(rets: Grid, bars: nat, d: seq<real>, k: nat, spreads: seq<real>, p: Params, t: nat)
    requires Rectangular(rets, bars) && |d| == bars && t < bars && p.Valid()
    ensures NetReturn(Shifted(rets, bars, d), bars, MomentumSignal(Shifted(rets, bars, d), bars, k), spreads, p, t)
         == NetReturn(rets, bars, MomentumSignal(rets, bars, k), spreads, p, t)
            + Dot(Weights(MomentumSignal(rets, bars, k), |rets|, bars, p, t), Common(|rets|, d[t]))
  {
    var a, b := MomentumSignal(rets, bars, k), MomentumSignal(Shifted(rets, bars, d), bars, k);
    var w := Weights(a, |rets|, bars, p, t);
    ChargeIgnoresCommonMove(rets, bars, d, k, spreads, p, t);
    WeightsIgnoreCommonMove(rets, bars, d, k, p, t);
    ColumnShifts(rets, bars, d, w, t);
    SameBookNet(rets, Shifted(rets, bars, d), bars, a, b, spreads, p, t, Dot(w, Common(|rets|, d[t])));
  }

  lemma CommonEarnsNothingIff(w: seq<real>, d: real)
    ensures Dot(w, Common(|w|, d)) == 0.0 <==> d == 0.0 || TotalWeight(w) == 0.0
  {
    DotOfCommon(w, d, TotalWeight(w));
    ProductIsZero(d, TotalWeight(w));
  }

  /** With as many longs as shorts the book's every net return is blind to a common dollar move; with
      overlapping legs every nonzero move after the first rebalance shows. */
  lemma BookIsDollarNeutralIff(rets: Grid, bars: nat, d: seq<real>, k: nat, spreads: seq<real>, p: Params, t: nat)
    requires Rectangular(rets, bars) && |d| == bars && t < bars && p.Valid() && |rets| > 0 && p.leg != 0.0
    ensures NetReturn(Shifted(rets, bars, d), bars, MomentumSignal(Shifted(rets, bars, d), bars, k), spreads, p, t)
         == NetReturn(rets, bars, MomentumSignal(rets, bars, k), spreads, p, t)
         <==> 2 * p.nLegs <= |rets| || d[t] == 0.0 || !Invested(MomentumSignal(rets, bars, k), |rets|, bars, p, t)
  {
    var signal := MomentumSignal(rets, bars, k);
    var w := Weights(signal, |rets|, bars, p, t);
    NeutralIff(signal, |rets|, bars, p, t, w);
    CommonMoveIsEarnedAlone(rets, bars, d, k, spreads, p, t);
    CommonEarnsNothingIff(w, d[t]);
  }

  lemma NeutralIff(signal: Signal, symbols: nat, bars: nat, p: Params, t: nat, w: seq<real>)
    requires SignalOf(signal, symbols, bars) && t < bars && p.Valid() && symbols > 0 && p.leg != 0.0
    requires w == Weights(signal, symbols, bars, p, t)
    ensures TotalWeight(w) == 0.0 <==> 2 * p.nLegs <= symbols || !Invested(signal, symbols, bars, p, t)
  {
    BookWeightsSum(signal, symbols, bars, p, t);
    NetLegsIsZeroWithoutOverlap(symbols, p.nLegs);
    ProductIsZero(NetLegs(symbols, p.nLegs) as real, p.leg);
  }

  lemma ProductIsZero(x: real, y: real)
    ensures x * y == 0.0 <==> x == 0.0 || y == 0.0
  {
  }

  // ------------------------------------------------------------ a rule and its inverse

  function Inverse(p: Params): Params {
    p.(leg := -p.leg)
  }

  lemma {:induction false} InverseHoldsNegatedWeights(signal: Signal, symbols: nat, bars: nat, p: Params, t: nat)
    requires SignalOf(signal, symbols, bars) && t < bars && p.Valid()
    ensures forall s | 0 <= s < symbols ::
      Weights(signal, symbols, bars, Inverse(p), t)[s] == -Weights(signal, symbols, bars, p, t)[s]
    ensures forall s | 0 <= s < symbols ::
      Before(signal, symbols, bars, Inverse(p), t)[s] == -Before(signal, symbols, bars, p, t)[s]
    decreases t
  {
    if t > 0 {
      InverseHoldsNegatedWeights(signal, symbols, bars, p, t - 1);
    } else {
      assert forall s | 0 <= s < symbols :: Before(signal, symbols, bars, p, 0)[s] == 0.0;
    }
    if Rebalances(signal, symbols, bars, p, t) {
      NewWeightsNegate(Keys(signal, symbols, bars, t), p);
      assert Weights(signal, symbols, bars, p, t) == NewWeights(Keys(signal, symbols, bars, t), p);
      assert Weights(signal, symbols, bars, Inverse(p), t) == NewWeights(Keys(signal, symbols, bars, t), Inverse(p));
    } else {
      assert Weights(signal, symbols, bars, p, t) == Before(signal, symbols, bars, p, t);
      assert Weights(signal, symbols, bars, Inverse(p), t) == Before(signal, symbols, bars, Inverse(p), t);
    }
  }

  lemma NewWeightsNegate(keys: seq<real>, p: Params)
    requires p.nLegs > 0
    ensures forall s | 0 <= s < |keys| :: NewWeights(keys, Inverse(p))[s] == -NewWeights(keys, p)[s]
  {
  }

  /** Flipping the sign is what inverts the book. */
  lemma OppositeSignInverts(nLegs: nat, hold: nat, sign: int)
    requires nLegs > 0 && hold > 0
    ensures Signed(nLegs, hold, -sign) == Inverse(Signed(nLegs, hold, sign))
  {
  }

  /** Bar by bar, a book and its inverse together earn nothing and pay both turnovers. */
  lemma RulePlusInverseIsCost(rets: Grid, bars: nat, signal: Signal, spreads: seq<real>, p: Params, t: nat)
    requires Rectangular(rets, bars) && SignalOf(signal, |rets|, bars) && t < bars && p.Valid()
    ensures NetReturn(rets, bars, signal, spreads, p, t) + NetReturn(rets, bars, signal, spreads, Inverse(p), t)
         == -2.0 * Charge(signal, |rets|, bars, spreads, p, t)
  {
    var n, q := |rets|, Inverse(p);
    InverseHoldsNegatedWeights(signal, n, bars, p, t);
    DotNegates(Weights(signal, n, bars, p, t), Weights(signal, n, bars, q, t), Column(rets, bars, t));
    TurnoverNegates(Before(signal, n, bars, p, t), Weights(signal, n, bars, p, t),
                    Before(signal, n, bars, q, t), Weights(signal, n, bars, q, t), spreads);
  }

  lemma DotNegates(w: seq<real>, v: seq<real>, x: seq<real>)
    requires |w| == |v| && forall s | 0 <= s < |w| :: v[s] == -w[s]
    ensures Dot(v, x) == -Dot(w, x)
  {
    var zero := (s: nat) => 0.0;
    SumByAdds(ProductOf(w, x), ProductOf(v, x), zero, Indices(|w|));
    SumByConstant(zero, 0.0, Indices(|w|), |w|);
  }

  lemma TurnoverNegates(w: seq<real>, w': seq<real>, v: seq<real>, v': seq<real>, spreads: seq<real>)
    requires |w| == |v| == |w'| == |v'|
    requires forall s | 0 <= s < |w| :: v[s] == -w[s] && v'[s] == -w'[s]
    ensures Turnover(v, v', spreads) == Turnover(w, w', spreads)
  {
    SumByCongruent(CostOf(v, v', spreads), CostOf(w, w', spreads), Indices(|w|));
  }

  // ------------------------------------------------------------ an unchanged ranking is free

  /** Between rebalances the book is held as it stands. */
  lemma {:induction false} WeightsAreHeld(signal: Signal, symbols: nat, bars: nat, p: Params, u: nat, t: nat)
    requires SignalOf(signal, symbols, bars) && u <= t < bars && p.Valid()
    requires forall v | u < v <= t :: !Rebalances(signal, symbols, bars, p, v)
    ensures Weights(signal, symbols, bars, p, t) == Weights(signal, symbols, bars, p, u)
    decreases t
  {
    if u < t {
      WeightsAreHeld(signal, symbols, bars, p, u, t - 1);
    }
  }

  /** Rebalancing into the ranking of the last rebalance costs nothing. */
  lemma UnchangedRankingIsFree(signal: Signal, symbols: nat, bars: nat, spreads: seq<real>, p: Params, u: nat, t: nat)
    requires SignalOf(signal, symbols, bars) && u < t < bars && p.Valid()
    requires Rebalances(signal, symbols, bars, p, u) && Rebalances(signal, symbols, bars, p, t)
    requires forall v | u < v < t :: !Rebalances(signal, symbols, bars, p, v)
    requires ArgSort(Keys(signal, symbols, bars, u)) == ArgSort(Keys(signal, symbols, bars, t))
    ensures Charge(signal, symbols, bars, spreads, p, t) == 0.0
  {
    WeightsAreHeld(signal, symbols, bars, p, u, t - 1);
    SameOrderSameWeights(Keys(signal, symbols, bars, u), Keys(signal, symbols, bars, t), p);
    HeldBookIsFree(signal, symbols, bars, spreads, p, t);
  }

  lemma HeldBookIsFree(signal: Signal, symbols: nat, bars: nat, spreads: seq<real>, p: Params, t: nat)
    requires SignalOf(signal, symbols, bars) && t < bars && p.Valid()
    requires Before(signal, symbols, bars, p, t) == Weights(signal, symbols, bars, p, t)
    ensures Charge(signal, symbols, bars, spreads, p, t) == 0.0
  {
    HoldingIsFree(Weights(signal, symbols, bars, p, t), spreads);
  }

  lemma SameOrderSameWeights(keys: seq<real>, keys': seq<real>, p: Params)
    requires p.nLegs > 0 && ArgSort(keys) == ArgSort(keys')
    ensures NewWeights(keys, p) == NewWeights(keys', p)
  {
  }

  lemma HoldingIsFree(w: seq<real>, spreads: seq<real>)
    ensures Turnover(w, w, spreads) == 0.0
  {
    SumByConstant(CostOf(w, w, spreads), 0.0, Indices(|w|), |w|);
  }
}
