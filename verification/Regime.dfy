/** Kaufman's efficiency ratio (tools/regime_search.py): net movement over total movement, the total
    taken from a full convolution with a window of ones. */
module Regime {
  import opened Prelude

  /** |c[t] - c[t-1]|, with c[0] standing in before the start. */
  function Move(c: seq<real>, t: nat): real
    requires t < |c|
  {
    if t == 0 then 0.0 else Abs(c[t] - c[t - 1])
  }

  /** Element i of the full convolution of the moves with n ones, summed up to move k. */
  function Convolved(c: seq<real>, n: nat, i: nat, k: nat): real
    requires i < |c| && k <= i
  {
    (if k == 0 then 0.0 else Convolved(c, n, i, k - 1)) + Move(c, k) * (if i - k < n then 1.0 else 0.0)
  }

  /** None where numpy holds NaN: before the window fills, and where nothing moved. */
  function RatioAt(c: seq<real>, n: nat, t: nat): Option<real>
    requires t < |c|
  {
    var total := Convolved(c, n, t, t);
    if |c| <= n || t < n || total == 0.0 then None else Some(Abs(c[t] - c[t - n]) / total)
  }

  function EfficiencyRatio(c: seq<real>, n: nat): (r: seq<Option<real>>)
    ensures |r| == |c| && forall t | 0 <= t < |c| :: r[t] == RatioAt(c, n, t)
  {
    seq(|c|, t requires 0 <= t < |c| => RatioAt(c, n, t))
  }

  // ------------------------------------------------------------ the per-window definition

  /** Total movement over the bars (a, b]. */
  function Travelled(c: seq<real>, a: nat, b: nat): real
    requires a <= b < |c|
    decreases b
  {
    if a == b then 0.0 else Travelled(c, a, b - 1) + Abs(c[b] - c[b - 1])
  }

  lemma {:induction false} ConvolvedBelowWindow(c: seq<real>, n: nat, i: nat, k: nat)
    requires k <= i < |c| && k + n <= i
    ensures Convolved(c, n, i, k) == 0.0
  {
    if k > 0 {
      ConvolvedBelowWindow(c, n, i, k - 1);
    }
  }

  /** The sliding sum is the window's own: the n moves ending at i and no later one. */
  lemma {:induction false} ConvolvedIsTravelled(c: seq<real>, n: nat, i: nat, k: nat)
    requires n <= i < |c| && i - n <= k <= i
    ensures Convolved(c, n, i, k) == Travelled(c, i - n, k)
    decreases k
  {
    if k == i - n {
      ConvolvedBelowWindow(c, n, i, k);
    } else {
      ConvolvedIsTravelled(c, n, i, k - 1);
    }
  }

  /** The window never moves the other way; a flat bar counts as either. */
  ghost predicate Monotone(c: seq<real>, a: nat, b: nat)
    requires a <= b < |c|
  {
    (forall u | a < u <= b :: c[u - 1] <= c[u]) || (forall u | a < u <= b :: c[u - 1] >= c[u])
  }

  lemma {:induction false} TravelledIffRising(c: seq<real>, a: nat, b: nat)
    requires a <= b < |c|
    ensures Travelled(c, a, b) >= c[b] - c[a]
    ensures Travelled(c, a, b) == c[b] - c[a] <==> forall u | a < u <= b :: c[u - 1] <= c[u]
    decreases b
  {
    if a < b {
      TravelledIffRising(c, a, b - 1);
    }
  }

  lemma {:induction false} TravelledIffFalling(c: seq<real>, a: nat, b: nat)
    requires a <= b < |c|
    ensures Travelled(c, a, b) >= c[a] - c[b]
    ensures Travelled(c, a, b) == c[a] - c[b] <==> forall u | a < u <= b :: c[u - 1] >= c[u]
    decreases b
  {
    if a < b {
      TravelledIffFalling(c, a, b - 1);
    }
  }

  /** Net never exceeds total, and equals it exactly on monotone windows. */
  lemma NetAgainstTravelled(c: seq<real>, a: nat, b: nat)
    requires a <= b < |c|
    ensures Abs(c[b] - c[a]) <= Travelled(c, a, b)
    ensures Abs(c[b] - c[a]) == Travelled(c, a, b) <==> Monotone(c, a, b)
  {
    TravelledIffRising(c, a, b);
    TravelledIffFalling(c, a, b);
  }

  /** Wherever the ratio is defined it is the window's net over its total, lies in [0, 1], and is 1
      exactly when the window is monotone. */
  lemma RatioIsEfficiency(c: seq<real>, n: nat, t: nat)
    requires t < |c| && EfficiencyRatio(c, n)[t].Some?
    ensures n <= t && Travelled(c, t - n, t) > 0.0
    ensures EfficiencyRatio(c, n)[t].value == Abs(c[t] - c[t - n]) / Travelled(c, t - n, t)
    ensures 0.0 <= EfficiencyRatio(c, n)[t].value <= 1.0
    ensures EfficiencyRatio(c, n)[t].value == 1.0 <==> Monotone(c, t - n, t)
  {
    ConvolvedIsTravelled(c, n, t, t);
    NetAgainstTravelled(c, t - n, t);
    NothingTravelledIffFlat(c, t - n, t);
    RatioBounds(Abs(c[t] - c[t - n]), Travelled(c, t - n, t));
  }

  lemma RatioBounds(x: real, y: real)
    requires 0.0 <= x <= y && y > 0.0
    ensures 0.0 <= x / y <= 1.0
    ensures x / y == 1.0 <==> x == y
  {
  }

  /** It is undefined exactly before the window fills and where the window never moved. */
  lemma RatioIsDefined(c: seq<real>, n: nat, t: nat)
    requires t < |c|
    ensures EfficiencyRatio(c, n)[t].None? <==> t < n || forall u | t - n < u <= t :: c[u - 1] == c[u]
  {
    if n <= t {
      ConvolvedIsTravelled(c, n, t, t);
      NothingTravelledIffFlat(c, t - n, t);
    }
  }

  lemma {:induction false} NothingTravelledIffFlat(c: seq<real>, a: nat, b: nat)
    requires a <= b < |c|
    ensures Travelled(c, a, b) >= 0.0
    ensures Travelled(c, a, b) == 0.0 <==> forall u | a < u <= b :: c[u - 1] == c[u]
    decreases b
  {
    if a < b {
      NothingTravelledIffFlat(c, a, b - 1);
    }
  }

  /** Nothing after t is read: the first t + 1 closes give the same ratio at t. */
  lemma RatioIsCausal(c: seq<real>, n: nat, t: nat)
    requires t < |c|
    ensures EfficiencyRatio(c[..t + 1], n)[t] == EfficiencyRatio(c, n)[t]
  {
    ConvolvedIsCausal(c, n, t, t);
  }

  lemma {:induction false} ConvolvedIsCausal(c: seq<real>, n: nat, i: nat, k: nat)
    requires k <= i < |c|
    ensures Convolved(c[..i + 1], n, i, k) == Convolved(c, n, i, k)
  {
    if k > 0 {
      ConvolvedIsCausal(c, n, i, k - 1);
    }
  }
}
