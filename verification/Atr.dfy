/** The average true range the walks and the bands are scaled by (tools/rule_backtest.py): a simple mean of
    true ranges, taken as a difference of prefix sums. */
module Atr {
  import opened Prelude

  /** A bar's range, stretched to the close before it. */
  function TrueRange(h: seq<real>, l: seq<real>, c: seq<real>, t: nat): real
    requires |h| == |l| == |c| && 1 <= t < |c|
  {
    Max(h[t] - l[t], Max(Abs(h[t] - c[t - 1]), Abs(l[t] - c[t - 1])))
  }

  /** The width of the smallest interval that holds the bar and the close before it. */
  lemma TrueRangeIsTheSpan(h: seq<real>, l: seq<real>, c: seq<real>, t: nat, top: real, bottom: real)
    requires |h| == |l| == |c| && 1 <= t < |c| && l[t] <= h[t]
    requires top == (if h[t] >= c[t - 1] then h[t] else c[t - 1])
    requires bottom == if l[t] <= c[t - 1] then l[t] else c[t - 1]
    ensures TrueRange(h, l, c, t) == top - bottom >= 0.0
  {
  }

  /** The true ranges of bars 1 to t. */
  function RangesTo(h: seq<real>, l: seq<real>, c: seq<real>, t: nat): real
    requires |h| == |l| == |c| && t < |c|
  {
    if t == 0 then 0.0 else RangesTo(h, l, c, t - 1) + TrueRange(h, l, c, t)
  }

  /** None where numpy holds NaN: over the first n bars, the first of which has no true range at all. */
  function AtrSeries(h: seq<real>, l: seq<real>, c: seq<real>, n: nat): (r: seq<Option<real>>)
    requires |h| == |l| == |c| && n > 0
    ensures |r| == |c|
    ensures forall t | 0 <= t < |c| :: r[t].Some? <==> t >= n
  {
    seq(|c|, t requires 0 <= t < |c| =>
      if t < n then None else Some((RangesTo(h, l, c, t) - RangesTo(h, l, c, t - n)) / n as real))
  }

  /** The true ranges of bars (a, b]. */
  function RangesOver(h: seq<real>, l: seq<real>, c: seq<real>, a: nat, b: nat): real
    requires |h| == |l| == |c| && a <= b < |c|
  {
    if a == b then 0.0 else RangesOver(h, l, c, a, b - 1) + TrueRange(h, l, c, b)
  }

  lemma {:induction false} PrefixDifference(h: seq<real>, l: seq<real>, c: seq<real>, a: nat, b: nat)
    requires |h| == |l| == |c| && a <= b < |c|
    ensures RangesTo(h, l, c, b) - RangesTo(h, l, c, a) == RangesOver(h, l, c, a, b)
  {
    if a < b {
      PrefixDifference(h, l, c, a, b - 1);
    }
  }

  lemma {:induction false} RangesArePositive(h: seq<real>, l: seq<real>, c: seq<real>, a: nat, b: nat)
    requires |h| == |l| == |c| && a <= b < |c|
    ensures RangesOver(h, l, c, a, b) >= 0.0
  {
    if a < b {
      RangesArePositive(h, l, c, a, b - 1);
    }
  }

  /** Where it is defined the series is the mean of the last n true ranges, and never negative. */
  lemma AtrIsWindowMean(h: seq<real>, l: seq<real>, c: seq<real>, n: nat, t: nat)
    requires |h| == |l| == |c| && 0 < n <= t < |c|
    ensures AtrSeries(h, l, c, n)[t] == Some(RangesOver(h, l, c, t - n, t) / n as real)
    ensures AtrSeries(h, l, c, n)[t].value >= 0.0
  {
    PrefixDifference(h, l, c, t - n, t);
    RangesArePositive(h, l, c, t - n, t);
  }
}
