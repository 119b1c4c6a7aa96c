/** The three hand-written bar walks are one walk: given a bracket and no financing they enter the
    same bars, close them the same way and book the same money. */
module SimulatorRefinement {
  import opened Prelude
  import opened BarWalk
  import RB = RuleBacktest
  import ES = ExitSearch
  import GB = GrossBound

  /** The reference parameters, as the exit simulator is handed them. */
  function AsExit(p: RB.Params): ES.Params {
    ES.Params(p.spread, Some(p.slAtr), Some(p.tpAtr), None, None, None, false, p.maxHold)
  }

  function AsGross(p: RB.Params): GB.Params {
    GB.Params(p.slAtr, p.tpAtr, p.maxHold)
  }

  function ExitReason(reason: RB.Reason): ES.Reason {
    match reason
    case StopLoss => ES.StopLoss
    case TakeProfit => ES.TakeProfit
    case Timeout => ES.Timeout
  }

  predicate SameButBars(x: RB.Trade, y: ES.Trade) {
    x.gross == y.gross && x.net == y.net && ExitReason(x.reason) == y.reason && x.entryIdx == y.entryIdx
  }

  predicate Same(x: RB.Trade, y: ES.Trade) {
    SameButBars(x, y) && x.bars == y.bars
  }

  /** Without trail, breakeven, profit or time exits the exit walk is a search for the first touch. */
  lemma {:induction false} BracketWalkIsFirstTouch(m: Market, p: RB.Params, pos: ES.Position, stop: real, j: nat,
                                                   end: nat)
    requires m.Valid() && 0 < end <= |m.c| && j <= end && pos.target.Some?
    ensures var t := FirstTouch(m, pos.long, stop, pos.target.value, j, end);
      ES.Walk(m, AsExit(p), pos, j, end, ES.State(Some(stop), false))
      == if t == end then ES.Close(end - 1, m.c[end - 1], ES.Timeout)
         else if HitStop(m, pos.long, stop, t) then ES.Close(t, stop, ES.StopLoss)
         else ES.Close(t, pos.target.value, ES.TakeProfit)
    decreases end - j
  {
    if j < end {
      BracketWalkIsFirstTouch(m, p, pos, stop, j + 1, end);
    }
  }

  lemma {:induction false} LossRuleIsFirstTouch(m: Market, long: bool, sl: real, tp: real, i: nat, j: nat, end: nat)
    requires m.Valid() && 0 < end <= |m.c| && j <= end
    ensures var t := FirstTouch(m, long, sl, tp, j, end);
      var close := GB.Hold(m, long, sl, tp, i, j, end, GB.Always(true));
      && close.bar == (if t == end then end - 1 else t)
      && close.px == if t == end then m.c[end - 1] else if HitStop(m, long, sl, t) then sl else tp
    decreases end - j
  {
    if j < end {
      LossRuleIsFirstTouch(m, long, sl, tp, i, j + 1, end);
    }
  }

  /** Without a target the walk leaves at the stop or the end of its window where a walk with one would, so
      long as the target was not what that walk met first; and it never takes profit. */
  lemma {:induction false} NoTargetWalk(m: Market, p: RB.Params, pos: ES.Position, stop: real, target: real, j: nat,
                                        end: nat)
    requires m.Valid() && 0 < end <= |m.c| && j <= end && pos.target.None?
    ensures var t := FirstTouch(m, pos.long, stop, target, j, end);
      var close := ES.Walk(m, AsExit(p), pos, j, end, ES.State(Some(stop), false));
      && close.Close? && close.reason != ES.TakeProfit
      && (t == end ==> close == ES.Close(end - 1, m.c[end - 1], ES.Timeout))
      && (t < end && HitStop(m, pos.long, stop, t) ==> close == ES.Close(t, stop, ES.StopLoss))
    decreases end - j
  {
    if j < end {
      NoTargetWalk(m, p, pos, stop, target, j + 1, end);
    }
  }

  ghost predicate ClosesAgree(m: Market, p: RB.Params, i: nat)
    requires m.Valid() && 1 <= i < |m.c| && m.Takeable(i)
  {
    var x := RB.CloseOf(m, p, i);
    ES.CloseOf(m, AsExit(p), i) == ES.Close(x.bar, x.px, ExitReason(x.reason))
  }

  /** With bracket parameters the exit simulator closes a position where, at what price and for the reason the
      reference does, unless a target multiple of zero made the reference take a profit at entry: there the
      exit simulator sets no target. */
  lemma ClosesAgreeIff(m: Market, p: RB.Params, i: nat)
    requires m.Valid() && 1 <= i < |m.c| && m.Takeable(i)
    ensures ClosesAgree(m, p, i) <==> p.tpAtr != 0.0 || RB.CloseOf(m, p, i).reason != RB.TakeProfit
    ensures ES.CloseOf(m, AsExit(p), i).Close?
    ensures p.tpAtr == 0.0 ==> ES.CloseOf(m, AsExit(p), i).reason != ES.TakeProfit
  {
    if p.maxHold >= 1 {
      var pos, end := ES.Opened(m, AsExit(p), i), HoldEnd(|m.c|, i, p.maxHold);
      var stop := StopLevel(m.Long(i), m.o[i], m.Unit(i), p.slAtr);
      if p.tpAtr != 0.0 {
        BracketWalkIsFirstTouch(m, p, pos, stop, i, end);
      } else {
        NoTargetWalk(m, p, pos, stop, TargetLevel(m.Long(i), m.o[i], m.Unit(i), p.tpAtr), i, end);
      }
    }
  }

  lemma GrossClosesAgree(m: Market, p: RB.Params, i: nat)
    requires m.Valid() && 1 <= i < |m.c| && m.Takeable(i) && p.maxHold >= 1
    ensures var x, z := RB.CloseOf(m, p, i), GB.CloseOf(m, AsGross(p), GB.Always(true), i);
      z.bar == x.bar && z.px == x.px
  {
    var long, entry, a, end := m.Long(i), m.o[i], m.Unit(i), HoldEnd(|m.c|, i, p.maxHold);
    LossRuleIsFirstTouch(m, long, StopLevel(long, entry, a, p.slAtr), TargetLevel(long, entry, a, p.tpAtr), i, i, end);
  }

  /** The same trade, but for the bar count when the holding window is empty: the reference counts 0
      bars, the exit simulator 1. */
  ghost predicate ExitMatch(p: RB.Params, x: RB.Trade, y: ES.Trade) {
    && SameButBars(x, y)
    && (if p.maxHold >= 1 then x.bars == y.bars else x.bars == 0 && y.bars == 1)
  }

  lemma TradesMatchIff(m: Market, p: RB.Params, i: nat)
    requires m.Valid() && 1 <= i < |m.c| && m.Takeable(i)
    ensures ES.CloseOf(m, AsExit(p), i).Close?
    ensures ExitMatch(p, RB.TradeAt(m, p, None, i), ES.TradeOf(m, AsExit(p), i)) <==> ClosesAgree(m, p, i)
  {
    ClosesAgreeIff(m, p, i);
  }

  ghost predicate RunsMatch(p: RB.Params, xs: seq<RB.Trade>, ys: Option<seq<ES.Trade>>) {
    && ys.Some? && |ys.value| == |xs|
    && forall k | 0 <= k < |xs| :: ExitMatch(p, xs[k], ys.value[k])
  }

  predicate TakesNoProfit(xs: seq<RB.Trade>) {
    forall k | 0 <= k < |xs| :: xs[k].reason != RB.TakeProfit
  }

  lemma OneMoreTrade(p: RB.Params, x: RB.Trade, y: ES.Trade, xs: seq<RB.Trade>, ys: Option<seq<ES.Trade>>)
    ensures RunsMatch(p, [x] + xs, ES.Prepend([y], ys)) <==> ExitMatch(p, x, y) && RunsMatch(p, xs, ys)
    ensures TakesNoProfit([x] + xs) <==> x.reason != RB.TakeProfit && TakesNoProfit(xs)
  {
    if RunsMatch(p, [x] + xs, ES.Prepend([y], ys)) {
      var zs := ES.Prepend([y], ys).value;
      assert ExitMatch(p, ([x] + xs)[0], zs[0]);
      forall k | 0 <= k < |xs| ensures ExitMatch(p, xs[k], ys.value[k]) {
        assert ExitMatch(p, ([x] + xs)[k + 1], zs[k + 1]);
      }
    }
    if TakesNoProfit([x] + xs) {
      assert ([x] + xs)[0].reason != RB.TakeProfit;
      forall k | 0 <= k < |xs| ensures xs[k].reason != RB.TakeProfit {
        assert ([x] + xs)[k + 1] == xs[k];
      }
    }
  }

  /** From any bar, the exit simulator books what the reference books exactly when no target multiple of
      zero, which one reads as a target at entry and the other as none, took a profit in the reference. */
  lemma {:induction false} ExitTradesMatchIff(m: Market, p: RB.Params, i: nat)
    requires m.Valid() && 1 <= i
    ensures RunsMatch(p, RB.RunFrom(m, p, None, i), ES.RunFrom(m, AsExit(p), i))
       <==> p.tpAtr != 0.0 || TakesNoProfit(RB.RunFrom(m, p, None, i))
    decreases |m.c| - i
  {
    if i + 1 < |m.c| && m.Takeable(i) {
      var next := RB.CloseOf(m, p, i).bar + 1;
      TradesMatchIff(m, p, i);
      ClosesAgreeIff(m, p, i);
      ExitTradesMatchIff(m, p, next);
      OneMoreTrade(p, RB.TradeAt(m, p, None, i), ES.TradeOf(m, AsExit(p), i), RB.RunFrom(m, p, None, next),
                   ES.RunFrom(m, AsExit(p), ES.CloseOf(m, AsExit(p), i).bar + 1));
    } else if i + 1 < |m.c| {
      ExitTradesMatchIff(m, p, i + 1);
    }
  }

  ghost predicate SameRuns(xs: seq<RB.Trade>, ys: Option<seq<ES.Trade>>) {
    && ys.Some? && |ys.value| == |xs|
    && forall k | 0 <= k < |xs| :: Same(xs[k], ys.value[k])
  }

  lemma SameIsMatch(p: RB.Params, xs: seq<RB.Trade>, ys: Option<seq<ES.Trade>>)
    requires p.maxHold >= 1 || xs == []
    ensures SameRuns(xs, ys) <==> RunsMatch(p, xs, ys)
  {
    if p.maxHold >= 1 {
      assert forall x, y :: Same(x, y) == ExitMatch(p, x, y);
    }
  }

  /** The two runs are identical, bar counts included, exactly when moreover the window has a bar in it, or
      there is no trade. */
  lemma ExitRefinesReference(m: Market, p: RB.Params)
    requires m.Valid()
    ensures var xs := RB.Trades(m, p, None);
      SameRuns(xs, ES.RunFrom(m, AsExit(p), FIRST_BAR))
      <==> (p.maxHold >= 1 || xs == []) && (p.tpAtr != 0.0 || TakesNoProfit(xs))
  {
    var xs, ys := RB.Trades(m, p, None), ES.RunFrom(m, AsExit(p), FIRST_BAR);
    if p.maxHold >= 1 || xs == [] {
      ExitTradesMatchIff(m, p, FIRST_BAR);
      SameIsMatch(p, xs, ys);
    } else {
      FirstTradeCountsDiffer(m, p, FIRST_BAR);
    }
  }

  lemma {:induction false} FirstTradeCountsDiffer(m: Market, p: RB.Params, i: nat)
    requires m.Valid() && 1 <= i && p.maxHold < 1 && RB.RunFrom(m, p, None, i) != []
    ensures !SameRuns(RB.RunFrom(m, p, None, i), ES.RunFrom(m, AsExit(p), i))
    decreases |m.c| - i
  {
    if m.Takeable(i) {
      var x := RB.TradeAt(m, p, None, i);
      ClosesAgreeIff(m, p, i);
      var y := ES.TradeOf(m, AsExit(p), i);
      assert x.bars == 0 && y.bars == 1;
      assert RB.RunFrom(m, p, None, i)[0] == x;
      if ES.RunFrom(m, AsExit(p), i).Some? {
        assert ES.RunFrom(m, AsExit(p), i).value[0] == y;
      }
    } else {
      FirstTradeCountsDiffer(m, p, i + 1);
    }
  }

  /** Bar i, if it can be entered, reaches the stop of a position entered there. */
  predicate StopsOut(m: Market, p: RB.Params, i: nat)
    requires m.Valid() && 1 <= i < |m.c|
  {
    m.Takeable(i) ==> HitStop(m, m.Long(i), StopLevel(m.Long(i), m.o[i], m.Unit(i), p.slAtr), i)
  }

  lemma ZeroTargetClosesAtOnce(m: Market, p: RB.Params, i: nat)
    requires m.Valid() && 1 <= i < |m.c| && m.Takeable(i) && p.tpAtr == 0.0 && p.maxHold >= 1
    requires m.l[i] <= m.o[i] <= m.h[i]
    ensures RB.CloseOf(m, p, i).bar == i
    ensures RB.CloseOf(m, p, i).reason != RB.TakeProfit <==> StopsOut(m, p, i)
  {
    assert TargetLevel(m.Long(i), m.o[i], m.Unit(i), p.tpAtr) == m.o[i];
  }

  lemma {:induction false} ZeroTargetsTakeNoProfitIff(m: Market, p: RB.Params, i: nat)
    requires m.Valid() && 1 <= i && p.tpAtr == 0.0 && p.maxHold >= 1
    requires forall u | 0 <= u < |m.c| :: m.l[u] <= m.o[u] <= m.h[u]
    ensures TakesNoProfit(RB.RunFrom(m, p, None, i)) <==> forall u | i <= u < |m.c| - 1 :: StopsOut(m, p, u)
    decreases |m.c| - i
  {
    if i + 1 < |m.c| {
      ZeroTargetsTakeNoProfitIff(m, p, i + 1);
      if m.Takeable(i) {
        ZeroTargetClosesAtOnce(m, p, i);
        var x, xs := RB.TradeAt(m, p, None, i), RB.RunFrom(m, p, None, i + 1);
        assert RB.RunFrom(m, p, None, i) == [x] + xs;
        assert TakesNoProfit([x] + xs) ==> ([x] + xs)[0].reason != RB.TakeProfit;
        assert forall k | 0 <= k < |xs| :: ([x] + xs)[k + 1] == xs[k];
      }
    }
  }

  /** Read off the prices: at a zero target, and with bars that hold their opens, two whole runs agree
      exactly when every bar that can be entered stops its own position out. */
  lemma ZeroTargetRunsAgreeIff(m: Market, p: RB.Params)
    requires m.Valid() && p.tpAtr == 0.0 && p.maxHold >= 1
    requires forall u | 0 <= u < |m.c| :: m.l[u] <= m.o[u] <= m.h[u]
    ensures SameRuns(RB.Trades(m, p, None), ES.RunFrom(m, AsExit(p), FIRST_BAR))
       <==> forall u | FIRST_BAR <= u < |m.c| - 1 :: StopsOut(m, p, u)
  {
    ExitRefinesReference(m, p);
    ZeroTargetsTakeNoProfitIff(m, p, FIRST_BAR);
  }

  /** z is x's gross as a multiple of the risk taken at its entry, over the same bars. */
  ghost predicate GrossMatch(m: Market, p: RB.Params, i: nat, x: RB.Trade, z: GB.Outcome)
    requires m.Valid() && 1 <= i && p.slAtr != 0.0
  {
    && i <= x.entryIdx < |m.c| && m.Takeable(x.entryIdx)
    && z.entry == x.entryIdx && z.bar == x.entryIdx + x.bars - 1
    && z.r == GB.Multiple(p.slAtr, m.Unit(x.entryIdx), x.gross)
  }

  ghost predicate GrossRunsMatch(m: Market, p: RB.Params, i: nat, xs: seq<RB.Trade>, zs: seq<GB.Outcome>)
    requires m.Valid() && 1 <= i && p.slAtr != 0.0
  {
    |zs| == |xs| && forall k | 0 <= k < |xs| :: GrossMatch(m, p, i, xs[k], zs[k])
  }

  lemma GrossRunsMatchOneMore(m: Market, p: RB.Params, i: nat, next: nat, x: RB.Trade, z: GB.Outcome,
                              xs: seq<RB.Trade>, zs: seq<GB.Outcome>)
    requires m.Valid() && 1 <= i <= next && p.slAtr != 0.0
    requires GrossMatch(m, p, i, x, z) && GrossRunsMatch(m, p, next, xs, zs)
    ensures GrossRunsMatch(m, p, i, [x] + xs, [z] + zs)
  {
  }

  lemma GrossTradeMatches(m: Market, p: RB.Params, i: nat)
    requires m.Valid() && 1 <= i < |m.c| && m.Takeable(i) && p.slAtr != 0.0 && p.maxHold >= 1
    ensures GB.CloseOf(m, AsGross(p), GB.Always(true), i).bar == RB.CloseOf(m, p, i).bar
    ensures GrossMatch(m, p, i, RB.TradeAt(m, p, None, i), GB.OutcomeOf(m, AsGross(p), GB.Always(true), i))
  {
    GrossClosesAgree(m, p, i);
  }

  /** Booking ties as losses, the risk-multiple walk is the reference walk with each gross divided
      by the risk taken. */
  lemma {:induction false} GrossRefinesReference(m: Market, p: RB.Params, i: nat)
    requires m.Valid() && 1 <= i && p.slAtr != 0.0 && p.maxHold >= 1
    ensures GrossRunsMatch(m, p, i, RB.RunFrom(m, p, None, i), GB.RunFrom(m, AsGross(p), GB.Always(true), i))
    decreases |m.c| - i
  {
    if i + 1 < |m.c| {
      if m.Takeable(i) {
        var next := RB.CloseOf(m, p, i).bar + 1;
        GrossTradeMatches(m, p, i);
        GrossRefinesReference(m, p, next);
        GrossRunsMatchOneMore(m, p, i, next, RB.TradeAt(m, p, None, i),
          GB.OutcomeOf(m, AsGross(p), GB.Always(true), i), RB.RunFrom(m, p, None, next),
          GB.RunFrom(m, AsGross(p), GB.Always(true), next));
      } else {
        GrossRefinesReference(m, p, i + 1);
        GrossRunsWiden(m, p, i, RB.RunFrom(m, p, None, i + 1), GB.RunFrom(m, AsGross(p), GB.Always(true), i + 1));
      }
    }
  }

  lemma GrossRunsWiden(m: Market, p: RB.Params, i: nat, xs: seq<RB.Trade>, zs: seq<GB.Outcome>)
    requires m.Valid() && 1 <= i && p.slAtr != 0.0 && GrossRunsMatch(m, p, i + 1, xs, zs)
    ensures GrossRunsMatch(m, p, i, xs, zs)
  {
  }
}
