/** Kaufman's always-in simulator (tools/kaufman_replication.py): yesterday's position earns today's
    return, every change of position crosses the spread once per unit changed, and the breakout signal
    stays in the market until the opposite extreme. */
module Kaufman {
  import opened Prelude

  /** The position a signal asks for; NaN asks for none. */
  function Position(sig: seq<Option<real>>, t: nat): real
    requires t < |sig|
  {
    if sig[t].None? then 0.0 else sig[t].value
  }

  function HeldInto(sig: seq<Option<real>>, t: nat): real
    requires t < |sig|
  {
    if t == 0 then 0.0 else Position(sig, t - 1)
  }

  function Turn(sig: seq<Option<real>>, t: nat): real
    requires t < |sig|
  {
    Abs(Position(sig, t) - HeldInto(sig, t))
  }

  /** `r` holds the log returns, with 0 for the first bar. */
  function Pnl(sig: seq<Option<real>>, r: seq<real>, cost: real, t: nat): real
    requires t < |sig| == |r|
  {
    HeldInto(sig, t) * r[t] - Turn(sig, t) * cost
  }

  function Opposite(sig: seq<Option<real>>): (s: seq<Option<real>>)
    ensures |s| == |sig|
    ensures forall t | 0 <= t < |sig| :: s[t] == if sig[t].None? then None else Some(-sig[t].value)
  {
    seq(|sig|, t requires 0 <= t < |sig| => if sig[t].None? then None else Some(-sig[t].value))
  }

  /** A rule and its inverse earn nothing between them and pay both turnovers. */
  lemma InverseIsPureCost(sig: seq<Option<real>>, r: seq<real>, cost: real, t: nat)
    requires t < |sig| == |r|
    ensures Pnl(sig, r, cost, t) + Pnl(Opposite(sig), r, cost, t) == -2.0 * (Turn(sig, t) * cost)
  {
  }

  function TotalPnl(sig: seq<Option<real>>, r: seq<real>, cost: real, a: nat, b: nat): real
    requires a <= b <= |sig| == |r|
  {
    if a == b then 0.0 else TotalPnl(sig, r, cost, a, b - 1) + Pnl(sig, r, cost, b - 1)
  }

  function TotalReturn(r: seq<real>, a: nat, b: nat): real
    requires a <= b <= |r|
  {
    if a == b then 0.0 else TotalReturn(r, a, b - 1) + r[b - 1]
  }

  /** A position x asked for from bar a on and held through bar b - 1: bar a still earns what was held before it
      and pays for the change, and every later bar earns x, and no bar looks at its own signal. */
  lemma {:induction false} HeldPositionEarns(sig: seq<Option<real>>, r: seq<real>, cost: real, a: nat, b: nat, x: real,
                                             before: real)
    requires a < b <= |sig| == |r| && forall t | a <= t < b :: sig[t] == Some(x)
    requires before == if a == 0 || sig[a - 1].None? then 0.0 else sig[a - 1].value
    ensures TotalPnl(sig, r, cost, a, b)
         == before * r[a] - (if x >= before then x - before else before - x) * cost + x * TotalReturn(r, a + 1, b)
  {
    if b > a + 1 {
      HeldPositionEarns(sig, r, cost, a, b - 1, x, before);
      Distribute(x, TotalReturn(r, a + 1, b - 1), r[b - 1]);
    } else {
      assert TotalPnl(sig, r, cost, a, a) == 0.0;
    }
  }

  // ------------------------------------------------------------ the breakout signal

  /** Bar t closes at the top (1) or the bottom (-1) of the n closes ending at it. A window with no range
      is a top. */
  function Breakout(c: seq<real>, n: nat, t: nat): Option<real>
    requires n > 0 && t < |c|
  {
    if t + 1 < n then None
    else if c[t] >= MaxOver(c, t + 1 - n, t) then Some(1.0)
    else if c[t] <= MinOver(c, t + 1 - n, t) then Some(-1.0)
    else None
  }

  /** A reversal system stays with its last breakout. */
  function Carried(c: seq<real>, n: nat, t: nat): Option<real>
    requires n > 0 && t < |c|
  {
    if Breakout(c, n, t).Some? then Breakout(c, n, t) else if t == 0 then None else Carried(c, n, t - 1)
  }

  function CarriedSeries(c: seq<real>, n: nat): (s: seq<Option<real>>)
    requires n > 0
    ensures |s| == |c| && forall t | 0 <= t < |c| :: s[t] == Carried(c, n, t)
  {
    seq(|c|, t requires 0 <= t < |c| => Carried(c, n, t))
  }

  /** The bar of the last breakout up to t, or 0. */
  function LastBreakout(c: seq<real>, n: nat, t: nat): (b: nat)
    requires n > 0 && t < |c|
    ensures b <= t
  {
    if Breakout(c, n, t).Some? then t else if t == 0 then 0 else LastBreakout(c, n, t - 1)
  }

  lemma {:induction false} LastBreakoutIsCarried(c: seq<real>, n: nat, t: nat)
    requires n > 0 && t < |c|
    ensures Breakout(c, n, LastBreakout(c, n, t)) == Carried(c, n, t)
  {
    if Breakout(c, n, t).None? && t > 0 {
      LastBreakoutIsCarried(c, n, t - 1);
    }
  }

  /** Bar b closes at or above every close of the n ending with it. */
  ghost predicate IsPeak(c: seq<real>, n: nat, b: nat)
    requires n > 0 && b < |c|
  {
    n <= b + 1 && forall u | b + 1 - n <= u <= b :: c[u] <= c[b]
  }

  ghost predicate IsTrough(c: seq<real>, n: nat, b: nat)
    requires n > 0 && b < |c|
  {
    n <= b + 1 && !IsPeak(c, n, b) && forall u | b + 1 - n <= u <= b :: c[u] >= c[b]
  }

  /** Nothing in (a, t] is either. */
  ghost predicate Calm(c: seq<real>, n: nat, a: int, t: nat)
    requires n > 0 && t < |c|
  {
    forall u: nat | a < u <= t :: !IsPeak(c, n, u) && !IsTrough(c, n, u)
  }

  /** Long since a peak, short since a trough, and out when there has been neither. */
  ghost predicate IsStance(c: seq<real>, n: nat, t: nat, x: Option<real>)
    requires n > 0 && t < |c|
  {
    match x
    case None => Calm(c, n, -1, t)
    case Some(side) => exists b: nat :: b <= t && Turned(c, n, b, side) && Calm(c, n, b, t)
  }

  ghost predicate Turned(c: seq<real>, n: nat, b: nat, side: real)
    requires n > 0 && b < |c|
  {
    (side == 1.0 && IsPeak(c, n, b)) || (side == -1.0 && IsTrough(c, n, b))
  }

  lemma BreakoutIs(c: seq<real>, n: nat, t: nat)
    requires n > 0 && t < |c|
    ensures Breakout(c, n, t) == if IsPeak(c, n, t) then Some(1.0) else if IsTrough(c, n, t) then Some(-1.0) else None
  {
    if n <= t + 1 {
      MaxOverIsTheMaximum(c, t + 1 - n, t);
      MinOverIsTheMinimum(c, t + 1 - n, t);
    }
  }

  lemma {:induction false} CarriedIsStance(c: seq<real>, n: nat, t: nat)
    requires n > 0 && t < |c|
    ensures IsStance(c, n, t, Carried(c, n, t))
  {
    BreakoutIs(c, n, t);
    if Breakout(c, n, t).Some? {
      assert Turned(c, n, t, Carried(c, n, t).value) && Calm(c, n, t, t);
    } else if t > 0 {
      CarriedIsStance(c, n, t - 1);
      StanceStands(c, n, t, Carried(c, n, t - 1));
    }
  }

  lemma StanceStands(c: seq<real>, n: nat, t: nat, x: Option<real>)
    requires n > 0 && 1 <= t < |c| && IsStance(c, n, t - 1, x) && !IsPeak(c, n, t) && !IsTrough(c, n, t)
    ensures IsStance(c, n, t, x)
  {
    if x.Some? {
      var b: nat :| b <= t - 1 && Turned(c, n, b, x.value) && Calm(c, n, b, t - 1);
      assert Calm(c, n, b, t);
    }
  }

  /** Indices of breakouts, a running maximum over them in place, and a gather. */
  method BreakoutSignal(c: seq<real>, n: nat) returns (out: seq<Option<real>>)
    requires n > 0
    ensures out == CarriedSeries(c, n)
    // on the closes themselves
    ensures |out| == |c| && forall t | 0 <= t < |c| :: IsStance(c, n, t, out[t])
  {
    forall t | 0 <= t < |c| ensures IsStance(c, n, t, Carried(c, n, t)) {
      CarriedIsStance(c, n, t);
    }
    if |c| < n {
      forall t | 0 <= t < |c| ensures Carried(c, n, t) == None {
        NothingBeforeTheWindow(c, n, t);
      }
      return seq(|c|, _ => None);
    }
    var sig := seq(|c|, t requires 0 <= t < |c| => Breakout(c, n, t));
    var idx := new nat[|c|](t requires 0 <= t < |c| => if sig[t].Some? then t else 0);
    MaximumAccumulate(c, n, idx);
    out := seq(|c|, t requires 0 <= t < |c| && idx[t] < |c| reads idx => sig[idx[t]]);
    forall t | 0 <= t < |c| ensures out[t] == Carried(c, n, t) {
      LastBreakoutIsCarried(c, n, t);
    }
  }

  method MaximumAccumulate(c: seq<real>, n: nat, idx: array<nat>)
    requires n > 0 && idx.Length == |c| > 0
    requires forall t | 0 <= t < |c| :: idx[t] == if Breakout(c, n, t).Some? then t else 0
    modifies idx
    ensures forall t | 0 <= t < |c| :: idx[t] == LastBreakout(c, n, t)
  {
    for t := 1 to idx.Length
      invariant forall u | 0 <= u < idx.Length ::
        idx[u] == if u < t then LastBreakout(c, n, u) else if Breakout(c, n, u).Some? then u else 0
    {
      if idx[t - 1] > idx[t] {
        idx[t] := idx[t - 1];
      }
    }
  }

  lemma {:induction false} NothingBeforeTheWindow(c: seq<real>, n: nat, t: nat)
    requires n > 0 && t < |c| && t + 1 < n
    ensures Carried(c, n, t) == None
  {
    if t > 0 {
      NothingBeforeTheWindow(c, n, t - 1);
    }
  }

  lemma {:induction false} CarriedIsASide(c: seq<real>, n: nat, t: nat)
    requires n > 0 && t < |c|
    ensures Carried(c, n, t) == None || Carried(c, n, t) == Some(1.0) || Carried(c, n, t) == Some(-1.0)
  {
    if t > 0 {
      CarriedIsASide(c, n, t - 1);
    }
  }

  /** Once in, always in: the book enters for one crossing, reverses for two exactly on a breakout of the
      opposite side, and is otherwise left alone. */
  lemma ReversalCrossesTwice(c: seq<real>, n: nat, t: nat)
    requires n > 0 && 0 < t < |c|
    ensures Carried(c, n, t - 1).Some? ==> Carried(c, n, t).Some?
    ensures var was, turn := Carried(c, n, t - 1), Turn(CarriedSeries(c, n), t);
      && (turn == 0.0 || turn == 1.0 || turn == 2.0)
      && (turn == 1.0 <==> was.None? && Breakout(c, n, t).Some?)
      && (turn == 2.0 <==> was.Some? && Breakout(c, n, t) == Some(-was.value))
  {
    CarriedIsASide(c, n, t);
    CarriedIsASide(c, n, t - 1);
  }
}
