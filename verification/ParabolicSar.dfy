/** Wilder's parabolic SAR (tools/book_rules_search.py): a stop-and-reverse band that accelerates
    on each new extreme. */
module ParabolicSar {
  import opened Prelude

  datatype Params = Params(acc: real, step: real, cap: real)

  /** The machine after a bar: trend, extreme point, acceleration and the band itself. */
  datatype State = State(bull: bool, ep: real, af: real, sar: real)

  ghost predicate Bars(h: seq<real>, l: seq<real>) {
    |h| == |l| && forall t | 0 <= t < |h| :: l[t] <= h[t]
  }

  ghost predicate Sane(p: Params) {
    0.0 <= p.acc <= p.cap <= 1.0 && 0.0 <= p.step
  }

  function Back(t: nat, n: nat): nat {
    if t < n then 0 else t - n
  }

  /** A fraction of the way from the band to the extreme point. */
  function Approach(s: State): real {
    s.sar + s.af * (s.ep - s.sar)
  }

  /** The band may not enter the range of the two bars before t. */
  function Clamp(h: seq<real>, l: seq<real>, bull: bool, cur: real, t: nat): real
    requires |h| == |l| && 1 <= t < |h|
  {
    if bull then Min(Min(cur, l[t - 1]), l[Back(t, 2)]) else Max(Max(cur, h[t - 1]), h[Back(t, 2)])
  }

  predicate Pierced(h: seq<real>, l: seq<real>, bull: bool, cur: real, t: nat)
    requires |h| == |l| && t < |h|
  {
    if bull then l[t] < cur else h[t] > cur
  }

  /** Bar t against the clamped band: turn over, extend the trend, or carry on. */
  function Turn(h: seq<real>, l: seq<real>, p: Params, s: State, cur: real, t: nat): State
    requires |h| == |l| && t < |h|
  {
    if Pierced(h, l, s.bull, cur, t) then State(!s.bull, if s.bull then l[t] else h[t], p.acc, s.ep)
    else if s.bull && h[t] > s.ep then State(true, h[t], Min(s.af + p.step, p.cap), cur)
    else if !s.bull && l[t] < s.ep then State(false, l[t], Min(s.af + p.step, p.cap), cur)
    else s.(sar := cur)
  }

  function Step(h: seq<real>, l: seq<real>, p: Params, s: State, t: nat): State
    requires |h| == |l| && 1 <= t < |h|
  {
    Turn(h, l, p, s, Clamp(h, l, s.bull, Approach(s), t), t)
  }

  function At(h: seq<real>, l: seq<real>, p: Params, t: nat): State
    requires |h| == |l| && t < |h|
  {
    if t == 0 then State(true, h[0], p.acc, l[0]) else Step(h, l, p, At(h, l, p, t - 1), t)
  }

  /** The band over the first n bars. */
  function Bands(h: seq<real>, l: seq<real>, p: Params, n: nat): (r: seq<Option<real>>)
    requires |h| == |l| && n <= |h|
    ensures |r| == n && forall t | 0 <= t < n :: r[t] == Some(At(h, l, p, t).sar)
  {
    seq(n, t requires 0 <= t < n => Some(At(h, l, p, t).sar))
  }

  method Sar(h: seq<real>, l: seq<real>, p: Params) returns (sar: array<Option<real>>)
    requires |h| == |l|
    ensures fresh(sar)
    ensures sar[..] == if |h| < 2 then seq(|h|, _ => None) else Bands(h, l, p, |h|)
    // without the machine's variables: each band follows from the last and the bars of its trend
    ensures |h| >= 2 ==> exists bulls :: IsSar(h, l, p, bulls, sar[..])
  {
    var n := |h|;
    sar := new Option<real>[n](_ => None);
    if n < 2 {
      return;
    }
    var bull, ep, af := true, h[0], p.acc;
    var prev := l[0];
    sar[0] := Some(l[0]);
    for t := 1 to n
      invariant sar[..t] == Bands(h, l, p, t)
      invariant At(h, l, p, t - 1) == State(bull, ep, af, prev)
    {
      bull, ep, af, prev := SarBar(h, l, p, t, bull, ep, af, prev);
      sar[t] := Some(prev);
      assert sar[..t + 1] == sar[..t] + [Some(prev)];
    }
    assert sar[..n] == sar[..];
    ghost var bulls := BandsAreSar(h, l, p);
  }

  /** The loop body, given the band of the bar before. */
  method SarBar(h: seq<real>, l: seq<real>, p: Params, t: nat, bull0: bool, ep0: real, af0: real, prev: real)
    returns (bull: bool, ep: real, af: real, cur: real)
    requires |h| == |l| && 1 <= t < |h|
    ensures State(bull, ep, af, cur) == Step(h, l, p, State(bull0, ep0, af0, prev), t)
  {
    var s := State(bull0, ep0, af0, prev);
    bull, ep, af, cur := Settle(h, l, p, t, s, Clamp(h, l, bull0, Approach(s), t));
  }

  /** Bar t judged against its clamped band. */
  method Settle(h: seq<real>, l: seq<real>, p: Params, t: nat, s: State, band: real)
    returns (bull: bool, ep: real, af: real, cur: real)
    requires |h| == |l| && 1 <= t < |h|
    ensures State(bull, ep, af, cur) == Turn(h, l, p, s, band, t)
  {
    bull, ep, af, cur := s.bull, s.ep, s.af, band;
    if bull {
      if l[t] < cur {
        bull, cur, ep, af := false, ep, l[t], p.acc;
      } else if h[t] > ep {
        ep, af := h[t], Min(af + p.step, p.cap);
      }
    } else {
      if h[t] > cur {
        bull, cur, ep, af := true, ep, h[t], p.acc;
      } else if l[t] < ep {
        ep, af := l[t], Min(af + p.step, p.cap);
      }
    }
  }

  // ------------------------------------------------------------ the defining invariants

  /** Bar t turned the trend over. */
  predicate IsFlip(h: seq<real>, l: seq<real>, p: Params, t: nat)
    requires |h| == |l| && t < |h|
  {
    t > 0 && At(h, l, p, t).bull != At(h, l, p, t - 1).bull
  }

  /** The bar the current trend began on. */
  function TrendStart(h: seq<real>, l: seq<real>, p: Params, t: nat): (f: nat)
    requires |h| == |l| && t < |h|
    ensures f <= t
  {
    if t == 0 || IsFlip(h, l, p, t) then t else TrendStart(h, l, p, t - 1)
  }

  lemma {:induction false} TrendStartIsTheLastFlip(h: seq<real>, l: seq<real>, p: Params, t: nat)
    requires |h| == |l| && t < |h|
    ensures TrendStart(h, l, p, t) == 0 || IsFlip(h, l, p, TrendStart(h, l, p, t))
    ensures forall u | TrendStart(h, l, p, t) < u <= t :: !IsFlip(h, l, p, u)
  {
    if t > 0 && !IsFlip(h, l, p, t) {
      TrendStartIsTheLastFlip(h, l, p, t - 1);
    }
  }

  /** Bar u exceeds everything since bar f: in an up trend its high, in a down trend its low. */
  predicate NewExtreme(h: seq<real>, l: seq<real>, bull: bool, f: nat, u: nat)
    requires |h| == |l| && f < u < |h|
  {
    if bull then h[u] > MaxOver(h, f, u - 1) else l[u] < MinOver(l, f, u - 1)
  }

  /** How many bars in (f, t] set a new extreme. */
  function NewExtremes(h: seq<real>, l: seq<real>, bull: bool, f: nat, t: nat): nat
    requires |h| == |l| && f <= t < |h|
    decreases t
  {
    if t == f then 0
    else NewExtremes(h, l, bull, f, t - 1) + if NewExtreme(h, l, bull, f, t) then 1 else 0
  }

  /** The acceleration after k new extremes: one step more for each, never past the cap. */
  function Accelerated(p: Params, k: nat): real {
    if k == 0 then p.acc else if Accelerated(p, k - 1) + p.step <= p.cap then Accelerated(p, k - 1) + p.step else p.cap
  }

  /** The same in one step. */
  function Capped(p: Params, k: nat): real {
    Min(p.acc + p.step * k as real, p.cap)
  }

  lemma {:induction false} AcceleratedIs(p: Params, k: nat)
    requires 0.0 <= p.step && p.acc <= p.cap
    ensures Accelerated(p, k) == Capped(p, k)
  {
    if k > 0 {
      AcceleratedIs(p, k - 1);
      assert p.step * k as real == p.step * (k - 1) as real + p.step;
    }
  }

  lemma TurnKeepsExtreme(h: seq<real>, l: seq<real>, p: Params, s: State, cur: real, f: nat, t: nat)
    requires |h| == |l| && f < t < |h| && !Pierced(h, l, s.bull, cur, t)
    requires s.ep == if s.bull then MaxOver(h, f, t - 1) else MinOver(l, f, t - 1)
    ensures var s' := Turn(h, l, p, s, cur, t);
      && s'.bull == s.bull
      && s'.ep == (if s.bull then MaxOver(h, f, t) else MinOver(l, f, t))
      && s'.af == if NewExtreme(h, l, s.bull, f, t) then Min(s.af + p.step, p.cap) else s.af
  {
  }

  lemma {:induction false} ExtremeAndRate(h: seq<real>, l: seq<real>, p: Params, t: nat)
    requires |h| == |l| && t < |h|
    ensures var s, f := At(h, l, p, t), TrendStart(h, l, p, t);
      && s.ep == (if s.bull then MaxOver(h, f, t) else MinOver(l, f, t))
      && s.af == Accelerated(p, NewExtremes(h, l, s.bull, f, t))
  {
    if t > 0 && !IsFlip(h, l, p, t) {
      ExtremeAndRate(h, l, p, t - 1);
      StepKeepsExtreme(h, l, p, At(h, l, p, t - 1), TrendStart(h, l, p, t - 1), t);
    }
  }

  /** The extreme point is the exact extreme since the trend began, and the acceleration counts
      exactly the new extremes since then, up to the cap. */
  lemma ExtremeAndAcceleration(h: seq<real>, l: seq<real>, p: Params, t: nat)
    requires |h| == |l| && t < |h| && p.acc <= p.cap && 0.0 <= p.step
    ensures var s, f := At(h, l, p, t), TrendStart(h, l, p, t);
      && s.ep == (if s.bull then MaxOver(h, f, t) else MinOver(l, f, t))
      && s.af == Capped(p, NewExtremes(h, l, s.bull, f, t))
  {
    ExtremeAndRate(h, l, p, t);
    AcceleratedIs(p, NewExtremes(h, l, At(h, l, p, t).bull, TrendStart(h, l, p, t), t));
  }

  lemma StepKeepsExtreme(h: seq<real>, l: seq<real>, p: Params, s: State, f: nat, t: nat)
    requires |h| == |l| && f < t < |h|
    requires s.ep == if s.bull then MaxOver(h, f, t - 1) else MinOver(l, f, t - 1)
    requires s.af == Accelerated(p, NewExtremes(h, l, s.bull, f, t - 1))
    requires Step(h, l, p, s, t).bull == s.bull
    ensures Step(h, l, p, s, t).ep == if s.bull then MaxOver(h, f, t) else MinOver(l, f, t)
    ensures Step(h, l, p, s, t).af == Accelerated(p, NewExtremes(h, l, s.bull, f, t))
  {
    TurnKeepsExtreme(h, l, p, s, Clamp(h, l, s.bull, Approach(s), t), f, t);
  }

  /** In the direction of the trend: upwards when rising, downwards when falling. */
  predicate Along(bull: bool, x: real, y: real) {
    if bull then x <= y else x >= y
  }

  lemma {:induction false} AccelerationIsBounded(h: seq<real>, l: seq<real>, p: Params, t: nat)
    requires |h| == |l| && t < |h| && Sane(p)
    ensures 0.0 <= At(h, l, p, t).af <= 1.0
  {
    if t > 0 {
      AccelerationIsBounded(h, l, p, t - 1);
      var s := At(h, l, p, t - 1);
      TurnBoundsAcceleration(h, l, p, s, Clamp(h, l, s.bull, Approach(s), t), t);
    }
  }

  lemma TurnBoundsAcceleration(h: seq<real>, l: seq<real>, p: Params, s: State, cur: real, t: nat)
    requires |h| == |l| && t < |h| && Sane(p) && 0.0 <= s.af <= 1.0
    ensures 0.0 <= Turn(h, l, p, s, cur, t).af <= 1.0
  {
  }

  /** A fraction of the way from band to extreme point stays between them. */
  lemma ApproachIsBetween(s: State)
    requires 0.0 <= s.af <= 1.0 && Along(s.bull, s.sar, s.ep)
    ensures Along(s.bull, s.sar, Approach(s)) && Along(s.bull, Approach(s), s.ep)
  {
    FractionOfGap(s.af, if s.bull then s.ep - s.sar else s.sar - s.ep);
  }

  lemma FractionOfGap(af: real, gap: real)
    requires 0.0 <= af <= 1.0 && 0.0 <= gap
    ensures 0.0 <= af * gap <= gap
    ensures af * (-gap) == -(af * gap)
  {
  }

  lemma TurnKeepsOrder(h: seq<real>, l: seq<real>, p: Params, s: State, mid: real, t: nat)
    requires |h| == |l| && 1 <= t < |h| && Along(s.bull, mid, s.ep)
    ensures var s' := Turn(h, l, p, s, Clamp(h, l, s.bull, mid, t), t); Along(s'.bull, s'.sar, s'.ep)
  {
  }

  /** The band never passes the extreme point. Only the first bar's low has to be below its high. */
  lemma {:induction false} BandNeverPassesExtreme(h: seq<real>, l: seq<real>, p: Params, t: nat)
    requires |h| == |l| && t < |h| && l[0] <= h[0] && Sane(p)
    ensures var s := At(h, l, p, t); Along(s.bull, s.sar, s.ep)
  {
    if t > 0 {
      BandNeverPassesExtreme(h, l, p, t - 1);
      AccelerationIsBounded(h, l, p, t - 1);
      var s := At(h, l, p, t - 1);
      ApproachIsBetween(s);
      TurnKeepsOrder(h, l, p, s, Approach(s), t);
    }
  }

  /** Off a flip the band lies beyond the bar's whole range, and beyond the two bars before it. */
  lemma BandClearsTheBar(h: seq<real>, l: seq<real>, p: Params, t: nat)
    requires |h| == |l| && 1 <= t < |h| && !IsFlip(h, l, p, t)
    ensures var s := At(h, l, p, t);
      if s.bull then s.sar <= l[t] && s.sar <= l[t - 1] && s.sar <= l[Back(t, 2)]
      else s.sar >= h[t] && s.sar >= h[t - 1] && s.sar >= h[Back(t, 2)]
  {
  }

  lemma TurnClears(h: seq<real>, l: seq<real>, p: Params, s: State, mid: real, t: nat)
    requires |h| == |l| && 1 <= t < |h|
    ensures var cur := Clamp(h, l, s.bull, mid, t);
      var s' := Turn(h, l, p, s, cur, t);
      if s'.bull != s.bull then s'.sar == s.ep
      else
        && s'.sar == cur
        && (if s.bull then cur <= l[t] && cur <= l[t - 1] && cur <= l[Back(t, 2)]
            else cur >= h[t] && cur >= h[t - 1] && cur >= h[Back(t, 2)])
  {
  }

  /** Within a trend, once past the bar that turned it, the band only moves with it. */
  lemma BandIsMonotone(h: seq<real>, l: seq<real>, p: Params, t: nat)
    requires |h| == |l| && 1 <= t < |h| && l[0] <= h[0] && Sane(p)
    requires !IsFlip(h, l, p, t) && !IsFlip(h, l, p, t - 1)
    ensures Along(At(h, l, p, t).bull, At(h, l, p, t - 1).sar, At(h, l, p, t).sar)
  {
    var s := At(h, l, p, t - 1);
    BandNeverPassesExtreme(h, l, p, t - 1);
    AccelerationIsBounded(h, l, p, t - 1);
    ApproachIsBetween(s);
    TurnClears(h, l, p, s, Approach(s), t);
    if t > 1 {
      BandClearsTheBar(h, l, p, t - 1);
    }
    ClampKeepsProgress(h, l, s.bull, s.sar, Approach(s), t);
  }

  lemma ClampKeepsProgress(h: seq<real>, l: seq<real>, bull: bool, prev: real, mid: real, t: nat)
    requires |h| == |l| && 1 <= t < |h| && Along(bull, prev, mid)
    requires if bull then prev <= l[t - 1] && prev <= l[Back(t, 2)] else prev >= h[t - 1] && prev >= h[Back(t, 2)]
    ensures Along(bull, prev, Clamp(h, l, bull, mid, t))
  {
  }

  /** On the bar that turns the trend the band is the exact extreme of the trend it ends. */
  lemma FlipBandIsOldExtreme(h: seq<real>, l: seq<real>, p: Params, t: nat)
    requires Bars(h, l) && 1 <= t < |h| && Sane(p) && IsFlip(h, l, p, t)
    ensures var bull, f := At(h, l, p, t - 1).bull, TrendStart(h, l, p, t - 1);
      At(h, l, p, t).sar == if bull then MaxOver(h, f, t - 1) else MinOver(l, f, t - 1)
  {
    ExtremeAndAcceleration(h, l, p, t - 1);
    FlipTakesTheExtreme(h, l, p, At(h, l, p, t - 1), t);
  }

  /** It lies inside the bar that turned the trend exactly when that bar also reached the extreme of the
      trend it ends: an up trend broken by a bar whose high is at least the trend's highest, a down trend
      broken by a bar whose low is at most its lowest. */
  lemma FlipBandIsInsideTheBarIff(h: seq<real>, l: seq<real>, p: Params, t: nat)
    requires Bars(h, l) && 1 <= t < |h| && Sane(p) && IsFlip(h, l, p, t)
    ensures var bull, f := At(h, l, p, t - 1).bull, TrendStart(h, l, p, t - 1);
      l[t] <= At(h, l, p, t).sar <= h[t]
      <==> if bull then h[t] >= MaxOver(h, f, t - 1) else l[t] <= MinOver(l, f, t - 1)
  {
    FlipBandIsOldExtreme(h, l, p, t);
    FlipTakesTheExtreme(h, l, p, At(h, l, p, t - 1), t);
  }

  /** It happens: a second bar that takes out both ends of the first, under the default parameters. */
  lemma FlipBandCanBeInsideTheBar()
    ensures var h, l, p := [10.0, 11.0], [9.0, 8.0], Params(0.02, 0.02, 0.2);
      Bars(h, l) && Sane(p) && IsFlip(h, l, p, 1) && l[1] < At(h, l, p, 1).sar < h[1]
  {
    var h, l, p := [10.0, 11.0], [9.0, 8.0], Params(0.02, 0.02, 0.2);
    assert At(h, l, p, 0) == State(true, 10.0, 0.02, 9.0);
    assert Clamp(h, l, true, 9.02, 1) == 9.0;
    assert At(h, l, p, 1) == State(false, 8.0, 0.02, 10.0);
  }

  lemma FlipTakesTheExtreme(h: seq<real>, l: seq<real>, p: Params, s: State, t: nat)
    requires Bars(h, l) && 1 <= t < |h| && Sane(p) && s == At(h, l, p, t - 1) && IsFlip(h, l, p, t)
    ensures At(h, l, p, t) == State(!s.bull, if s.bull then l[t] else h[t], p.acc, s.ep)
    ensures if s.bull then l[t] < s.ep else h[t] > s.ep
  {
  }

  // ------------------------------------------------------------ the band without its state

  /** The bar the trend at t began on, given which bars rise. */
  ghost function BeganOn(bulls: seq<bool>, t: nat): (f: nat)
    requires t < |bulls|
    ensures f <= t
  {
    if t == 0 || bulls[t] != bulls[t - 1] then t else BeganOn(bulls, t - 1)
  }

  /** The accelerated band before bar t: from `prev` towards the extreme of the trend so far. */
  ghost function Aim(h: seq<real>, l: seq<real>, p: Params, bull: bool, f: nat, t: nat, prev: real): real
    requires |h| == |l| && f < t < |h|
  {
    var extreme := if bull then MaxOver(h, f, t - 1) else MinOver(l, f, t - 1);
    prev + Accelerated(p, NewExtremes(h, l, bull, f, t - 1)) * (extreme - prev)
  }

  /** Short of a turn, where bar t's band goes: to its aim, but no nearer than the two bars before allow. */
  ghost predicate GoesTo(h: seq<real>, l: seq<real>, bull: bool, t: nat, aim: real, band: real)
    requires |h| == |l| && 1 <= t < |h|
  {
    var back := if t < 2 then 0 else t - 2;
    if bull then
      && band <= aim && band <= l[t - 1] && band <= l[back]
      && (band == aim || band == l[t - 1] || band == l[back])
    else
      && band >= aim && band >= h[t - 1] && band >= h[back]
      && (band == aim || band == h[t - 1] || band == h[back])
  }

  /** Bar t turns the trend exactly when it trades through that band, and then takes the extreme of the trend
      it ends; otherwise that band is the band. */
  ghost predicate BandFollows(h: seq<real>, l: seq<real>, p: Params, bulls: seq<bool>, t: nat, prev: real, sar: real)
    requires |h| == |l| == |bulls| && 1 <= t < |h|
  {
    var bull, f := bulls[t - 1], BeganOn(bulls, t - 1);
    exists band ::
      && GoesTo(h, l, bull, t, Aim(h, l, p, bull, f, t, prev), band)
      && (bulls[t] != bull <==> if bull then l[t] < band else h[t] > band)
      && sar == if bulls[t] == bull then band else if bull then MaxOver(h, f, t - 1) else MinOver(l, f, t - 1)
  }

  ghost predicate FollowsAt(h: seq<real>, l: seq<real>, p: Params, bulls: seq<bool>, sar: seq<Option<real>>, t: nat)
    requires |h| == |l| == |bulls| == |sar| && 1 <= t < |h|
  {
    sar[t - 1].Some? && sar[t].Some? && BandFollows(h, l, p, bulls, t, sar[t - 1].value, sar[t].value)
  }

  /** The whole series: rising at first with its band at the first low, and every bar following from the last. */
  ghost predicate IsSar(h: seq<real>, l: seq<real>, p: Params, bulls: seq<bool>, sar: seq<Option<real>>)
    requires |h| == |l| >= 2
  {
    && |bulls| == |sar| == |h| && bulls[0] && sar[0] == Some(l[0])
    && forall t | 1 <= t < |h| :: FollowsAt(h, l, p, bulls, sar, t)
  }

  ghost predicate AreTrends(h: seq<real>, l: seq<real>, p: Params, bulls: seq<bool>)
    requires |h| == |l|
  {
    |bulls| == |h| && forall t | 0 <= t < |h| :: bulls[t] == At(h, l, p, t).bull
  }

  lemma {:induction false} TrendBeganOn(h: seq<real>, l: seq<real>, p: Params, bulls: seq<bool>, t: nat)
    requires |h| == |l| && t < |h| && AreTrends(h, l, p, bulls)
    ensures BeganOn(bulls, t) == TrendStart(h, l, p, t)
  {
    if t > 0 {
      FlipIsAChange(h, l, p, bulls, t);
      if !IsFlip(h, l, p, t) {
        TrendBeganOn(h, l, p, bulls, t - 1);
      }
    }
  }

  lemma FlipIsAChange(h: seq<real>, l: seq<real>, p: Params, bulls: seq<bool>, t: nat)
    requires |h| == |l| && 1 <= t < |h| && AreTrends(h, l, p, bulls)
    ensures IsFlip(h, l, p, t) <==> bulls[t] != bulls[t - 1]
  {
  }

  lemma AimIsApproach(h: seq<real>, l: seq<real>, p: Params, s: State, f: nat, t: nat)
    requires |h| == |l| && f < t < |h|
    requires s.ep == if s.bull then MaxOver(h, f, t - 1) else MinOver(l, f, t - 1)
    requires s.af == Accelerated(p, NewExtremes(h, l, s.bull, f, t - 1))
    ensures Aim(h, l, p, s.bull, f, t, s.sar) == Approach(s)
  {
  }

  lemma ClampedBand(h: seq<real>, l: seq<real>, bull: bool, t: nat, aim: real)
    requires |h| == |l| && 1 <= t < |h|
    ensures GoesTo(h, l, bull, t, aim, Clamp(h, l, bull, aim, t))
  {
  }

  lemma BandStepFollows(h: seq<real>, l: seq<real>, p: Params, bulls: seq<bool>, t: nat)
    requires |h| == |l| && 1 <= t < |h| && AreTrends(h, l, p, bulls)
    ensures BandFollows(h, l, p, bulls, t, At(h, l, p, t - 1).sar, At(h, l, p, t).sar)
  {
    var s, f := At(h, l, p, t - 1), TrendStart(h, l, p, t - 1);
    var band := Clamp(h, l, s.bull, Approach(s), t);
    TrendBeganOn(h, l, p, bulls, t - 1);
    ExtremeAndRate(h, l, p, t - 1);
    AimIsApproach(h, l, p, s, f, t);
    ClampedBand(h, l, s.bull, t, Approach(s));
    assert At(h, l, p, t) == Turn(h, l, p, s, band, t);
    StepFollows(h, l, p, bulls, s, f, t, band);
  }

  lemma StepFollows(h: seq<real>, l: seq<real>, p: Params, bulls: seq<bool>, s: State, f: nat, t: nat, band: real)
    requires |h| == |l| == |bulls| && 1 <= t < |h| && f == BeganOn(bulls, t - 1) && s.bull == bulls[t - 1]
    requires s.ep == (if s.bull then MaxOver(h, f, t - 1) else MinOver(l, f, t - 1))
    requires GoesTo(h, l, s.bull, t, Aim(h, l, p, s.bull, f, t, s.sar), band)
    requires bulls[t] == Turn(h, l, p, s, band, t).bull
    ensures BandFollows(h, l, p, bulls, t, s.sar, Turn(h, l, p, s, band, t).sar)
  {
  }

  lemma BandsAreSar(h: seq<real>, l: seq<real>, p: Params) returns (bulls: seq<bool>)
    requires |h| == |l| >= 2
    ensures IsSar(h, l, p, bulls, Bands(h, l, p, |h|))
  {
    bulls := seq(|h|, t requires 0 <= t < |h| => At(h, l, p, t).bull);
    forall t | 1 <= t < |h| ensures FollowsAt(h, l, p, bulls, Bands(h, l, p, |h|), t) {
      BandStepFollows(h, l, p, bulls, t);
    }
  }
}
