/** The reference simulator (tools/rule_backtest.py): fixed stop and target, the loss booked when
    one bar reaches both, financing charged per server midnight. */
module RuleBacktest {
  import opened Prelude
  import opened BarWalk
  import Swap

  datatype Reason = StopLoss | TakeProfit | Timeout

  datatype Params = Params(spread: real, slAtr: real, tpAtr: real, maxHold: int)

  /** Signed price units per night, and the bar open times they are counted between. */
  datatype Financing = Financing(times: seq<int>, longRate: real, shortRate: real, tripleDow: Option<int>)

  datatype Trade = Trade(dir: int, gross: real, net: real, bars: int, nights: nat, financing: real,
                         reason: Reason, entryIdx: nat)

  datatype Close = Close(bar: nat, px: real, reason: Reason)

  ghost predicate Priced(m: Market, fin: Option<Financing>) {
    m.Valid() && (fin.Some? ==> |fin.value.times| == |m.c|)
  }

  /** How a position entered at i with these levels is closed. */
  function Hold(m: Market, long: bool, stop: real, target: real, maxHold: int, i: nat): (r: Close)
    requires m.Valid() && i < |m.c|
    ensures i <= r.bar < |m.c|
  {
    var last := LastHeld(|m.c|, i, maxHold);
    var end := if i < HoldEnd(|m.c|, i, maxHold) then last + 1 else i;
    var t := FirstTouch(m, long, stop, target, i, end);
    if t == end then Close(last, m.c[last], Timeout)
    else if HitStop(m, long, stop, t) then Close(t, stop, StopLoss)
    else Close(t, target, TakeProfit)
  }

  function CloseOf(m: Market, p: Params, i: nat): (r: Close)
    requires m.Valid() && 1 <= i < |m.c| && m.Takeable(i)
    ensures i <= r.bar < |m.c|
  {
    Hold(m, m.Long(i), StopLevel(m.Long(i), m.o[i], m.Unit(i), p.slAtr),
         TargetLevel(m.Long(i), m.o[i], m.Unit(i), p.tpAtr), p.maxHold, i)
  }

  function PlanOf(m: Market, p: Params): (plan: Plan)
    requires m.Valid()
    ensures |plan| == |m.c| && ValidPlan(plan)
    ensures forall i | 1 <= i < |plan| ::
      plan[i] == if m.Takeable(i) then Some(CloseOf(m, p, i).bar) else None
  {
    seq(|m.c|, i requires 0 <= i < |m.c| =>
      if 1 <= i && m.Takeable(i) then Some(CloseOf(m, p, i).bar) else None)
  }

  /** What nights cost or pay a position. */
  function Carry(f: Financing, long: bool, nights: nat): real {
    nights as real * if long then f.longRate else f.shortRate
  }

  function TradeAt(m: Market, p: Params, fin: Option<Financing>, i: nat): Trade
    requires Priced(m, fin) && 1 <= i < |m.c| && m.Takeable(i)
  {
    var close := CloseOf(m, p, i);
    var gross := Gain(m.Long(i), m.o[i], close.px);
    var nights := if fin.None? then 0
                  else Swap.Nights(fin.value.times[i], fin.value.times[close.bar], fin.value.tripleDow);
    var financing := if fin.None? then 0.0 else Carry(fin.value, m.Long(i), nights);
    Trade(m.sig[i - 1], gross, gross - p.spread + financing,
          if i < HoldEnd(|m.c|, i, p.maxHold) then close.bar - i + 1 else 0,
          nights, financing, close.reason, i)
  }

  ghost predicate Enterable(m: Market, es: seq<nat>) {
    m.Valid() && forall k | 0 <= k < |es| :: 1 <= es[k] < |m.c| && m.Takeable(es[k])
  }

  function TradesOf(m: Market, p: Params, fin: Option<Financing>, es: seq<nat>): (ts: seq<Trade>)
    requires Priced(m, fin) && Enterable(m, es)
    ensures |ts| == |es| && forall k | 0 <= k < |es| :: ts[k] == TradeAt(m, p, fin, es[k])
  {
    seq(|es|, k requires 0 <= k < |es| => TradeAt(m, p, fin, es[k]))
  }

  function EntriesFrom(m: Market, p: Params, i: nat): (es: seq<nat>)
    requires m.Valid() && 1 <= i
    ensures Enterable(m, es)
  {
    EntriesArePlanned(PlanOf(m, p), i);
    Entries(PlanOf(m, p), i)
  }

  /** The trades of a walk standing at bar i: one that cannot be entered is stepped over, one that can
      is held to its exit. */
  function RunFrom(m: Market, p: Params, fin: Option<Financing>, i: nat): seq<Trade>
    requires Priced(m, fin) && 1 <= i
    decreases |m.c| - i
  {
    if i + 1 >= |m.c| then []
    else if m.Takeable(i) then [TradeAt(m, p, fin, i)] + RunFrom(m, p, fin, CloseOf(m, p, i).bar + 1)
    else RunFrom(m, p, fin, i + 1)
  }

  /** The whole run. */
  function Trades(m: Market, p: Params, fin: Option<Financing>): seq<Trade>
    requires Priced(m, fin)
  {
    RunFrom(m, p, fin, FIRST_BAR)
  }

  ghost predicate RunsItsEntries(m: Market, p: Params, fin: Option<Financing>, i: nat)
    requires Priced(m, fin) && 1 <= i
  {
    RunFrom(m, p, fin, i) == TradesOf(m, p, fin, EntriesFrom(m, p, i))
  }

  lemma TradesPrepend(m: Market, p: Params, fin: Option<Financing>, i: nat, es: seq<nat>)
    requires Priced(m, fin) && 1 <= i && i + 1 < |m.c| && m.Takeable(i) && Enterable(m, es)
    requires RunFrom(m, p, fin, CloseOf(m, p, i).bar + 1) == TradesOf(m, p, fin, es)
    ensures Enterable(m, [i] + es) && RunFrom(m, p, fin, i) == TradesOf(m, p, fin, [i] + es)
  {
  }

  lemma TradeRunsItsEntry(m: Market, p: Params, fin: Option<Financing>, i: nat)
    requires Priced(m, fin) && 1 <= i && i + 1 < |m.c| && m.Takeable(i)
    requires RunsItsEntries(m, p, fin, CloseOf(m, p, i).bar + 1)
    ensures RunsItsEntries(m, p, fin, i)
  {
    EntriesStep(m, p, i);
    TradesPrepend(m, p, fin, i, EntriesFrom(m, p, CloseOf(m, p, i).bar + 1));
  }

  lemma SkippedBarRunsItsEntries(m: Market, p: Params, fin: Option<Financing>, i: nat)
    requires Priced(m, fin) && 1 <= i && (i + 1 < |m.c| ==> !m.Takeable(i) && RunsItsEntries(m, p, fin, i + 1))
    ensures RunsItsEntries(m, p, fin, i)
  {
    EntriesStep(m, p, i);
  }

  /** A run's trades are those of the bars its plan enters. */
  lemma {:induction false} RunIsOfEntries(m: Market, p: Params, fin: Option<Financing>, i: nat)
    requires Priced(m, fin) && 1 <= i
    ensures RunsItsEntries(m, p, fin, i)
    decreases |m.c| - i
  {
    if i + 1 < |m.c| && m.Takeable(i) {
      RunIsOfEntries(m, p, fin, CloseOf(m, p, i).bar + 1);
      TradeRunsItsEntry(m, p, fin, i);
    } else {
      if i + 1 < |m.c| {
        RunIsOfEntries(m, p, fin, i + 1);
      }
      SkippedBarRunsItsEntries(m, p, fin, i);
    }
  }

  lemma EntriesStep(m: Market, p: Params, i: nat)
    requires m.Valid() && 1 <= i
    ensures EntriesFrom(m, p, i)
         == if i + 1 >= |m.c| then []
            else if m.Takeable(i) then [i] + EntriesFrom(m, p, CloseOf(m, p, i).bar + 1)
            else EntriesFrom(m, p, i + 1)
  {
  }

  // ------------------------------------------------------------ a run, read off the arrays

  /** The bar a trade was left on; an empty window leaves it on its entry bar and counts no bars. */
  function LeftOn(t: Trade): int {
    if t.bars < 1 then t.entryIdx else t.entryIdx + t.bars - 1
  }

  /** Everything a trade left at px says is so in the prices: the side of its signal, the levels its ATR sets, the
      first bar to reach one, the loss first, and the nights between the two bars. */
  ghost predicate LeftAt(m: Market, p: Params, fin: Option<Financing>, t: Trade, px: real)
    requires Priced(m, fin)
  {
    var i, j := t.entryIdx, LeftOn(t);
    && Signalled(m, i) && i <= j < |m.c|
    && t.dir == m.sig[i - 1] && t.gross == Made(m, i, px) && t.net == t.gross - p.spread + t.financing
    && Undecided(m, i, p.slAtr, p.tpAtr, j)
    && (if p.maxHold < 1 then t.bars == 0 && t.reason == Timeout else 1 <= t.bars <= p.maxHold)
    && (match t.reason
        case StopLoss => px == StopPrice(m, i, p.slAtr) && FallsTo(m, i, px, j)
        case TakeProfit => px == TargetPrice(m, i, p.tpAtr) && RisesTo(m, i, px, j)
                           && !FallsTo(m, i, StopPrice(m, i, p.slAtr), j)
        case Timeout => px == m.c[j] && (p.maxHold >= 1 ==>
                          (j + 1 == |m.c| || t.bars == p.maxHold) && Undecided(m, i, p.slAtr, p.tpAtr, j + 1)))
    && (fin.None? ==> t.nights == 0 && t.financing == 0.0)
    && (fin.Some? ==>
          && t.nights == Swap.Nights(fin.value.times[i], fin.value.times[j], fin.value.tripleDow)
          && t.financing == t.nights as real * if m.sig[i - 1] > 0 then fin.value.longRate else fin.value.shortRate)
  }

  ghost predicate IsBooked(m: Market, p: Params, fin: Option<Financing>, t: Trade)
    requires Priced(m, fin)
  {
    exists px :: LeftAt(m, p, fin, t, px)
  }

  function SpansOf(ts: seq<Trade>): (spans: seq<Span>)
    ensures |spans| == |ts| && forall k | 0 <= k < |ts| :: spans[k] == Span(ts[k].entryIdx, LeftOn(ts[k]))
  {
    seq(|ts|, k requires 0 <= k < |ts| => Span(ts[k].entryIdx, LeftOn(ts[k])))
  }

  ghost predicate AreBooked(m: Market, p: Params, fin: Option<Financing>, ts: seq<Trade>)
    requires Priced(m, fin)
  {
    forall t | t in ts :: IsBooked(m, p, fin, t)
  }

  lemma TradeIsBooked(m: Market, p: Params, fin: Option<Financing>, i: nat)
    requires Priced(m, fin) && 60 <= i && i + 1 < |m.c| && m.Takeable(i)
    ensures var t := TradeAt(m, p, fin, i);
      IsBooked(m, p, fin, t) && t.entryIdx == i && i <= LeftOn(t) == CloseOf(m, p, i).bar
  {
    var t, close := TradeAt(m, p, fin, i), CloseOf(m, p, i);
    if p.maxHold >= 1 {
      LevelsArePrices(m, i, p.slAtr, p.tpAtr, close.bar, HoldEnd(|m.c|, i, p.maxHold));
      LevelsArePrices(m, i, p.slAtr, p.tpAtr, close.bar + 1, HoldEnd(|m.c|, i, p.maxHold));
      FirstTouchIsFirst(m, m.Long(i), StopPrice(m, i, p.slAtr), TargetPrice(m, i, p.tpAtr), i,
                        HoldEnd(|m.c|, i, p.maxHold));
    }
    assert LeftAt(m, p, fin, t, close.px);
  }

  /** Booked as the prices say, from bar i on, with the calendar filled. */
  ghost predicate IsRun(m: Market, p: Params, fin: Option<Financing>, i: nat, ts: seq<Trade>)
    requires Priced(m, fin)
  {
    AreBooked(m, p, fin, ts) && Fill(m, i, SpansOf(ts))
  }

  lemma SpansOneMore(t: Trade, rest: seq<Trade>)
    ensures SpansOf([t] + rest) == [Span(t.entryIdx, LeftOn(t))] + SpansOf(rest)
  {
  }

  lemma OneMoreTrade(m: Market, p: Params, fin: Option<Financing>, t: Trade, rest: seq<Trade>)
    requires Priced(m, fin) && IsBooked(m, p, fin, t) && t.entryIdx <= LeftOn(t) && Signalled(m, t.entryIdx)
    requires IsRun(m, p, fin, LeftOn(t) + 1, rest)
    ensures IsRun(m, p, fin, t.entryIdx, [t] + rest)
  {
    assert AreBooked(m, p, fin, [t] + rest);
    SpansOneMore(t, rest);
    FillOneMore(m, Span(t.entryIdx, LeftOn(t)), SpansOf(rest));
  }

  /** The trades from bar i on are booked as the prices say, fill the calendar and never overlap. */
  lemma {:induction false} RunIsOnPrices(m: Market, p: Params, fin: Option<Financing>, i: nat)
    requires Priced(m, fin) && 60 <= i
    ensures IsRun(m, p, fin, i, RunFrom(m, p, fin, i))
    decreases |m.c| - i
  {
    if i + 1 >= |m.c| {
      assert Fill(m, i, []);
    } else if m.Takeable(i) {
      TradeIsBooked(m, p, fin, i);
      RunIsOnPrices(m, p, fin, CloseOf(m, p, i).bar + 1);
      OneMoreTrade(m, p, fin, TradeAt(m, p, fin, i), RunFrom(m, p, fin, CloseOf(m, p, i).bar + 1));
    } else {
      RunIsOnPrices(m, p, fin, i + 1);
      FillSkips(m, i, SpansOf(RunFrom(m, p, fin, i + 1)));
    }
  }

  lemma NotLaterThan(m: Market, p: Params, fin: Option<Financing>, t: Trade, px: real, t': Trade, px': real)
    requires Priced(m, fin) && LeftAt(m, p, fin, t, px) && LeftAt(m, p, fin, t', px') && t.entryIdx == t'.entryIdx
    ensures LeftOn(t') <= LeftOn(t)
  {
  }

  lemma SameExit(m: Market, p: Params, fin: Option<Financing>, t: Trade, px: real, t': Trade, px': real)
    requires Priced(m, fin) && LeftAt(m, p, fin, t, px) && LeftAt(m, p, fin, t', px')
    requires t.entryIdx == t'.entryIdx && LeftOn(t) == LeftOn(t')
    ensures t.bars == t'.bars && t.reason == t'.reason && px == px'
  {
  }

  /** Two booked trades entered on one bar are one trade. */
  lemma BookedOnce(m: Market, p: Params, fin: Option<Financing>, t: Trade, t': Trade)
    requires Priced(m, fin) && IsBooked(m, p, fin, t) && IsBooked(m, p, fin, t') && t.entryIdx == t'.entryIdx
    ensures t == t'
  {
    var px :| LeftAt(m, p, fin, t, px);
    var px' :| LeftAt(m, p, fin, t', px');
    NotLaterThan(m, p, fin, t, px, t', px');
    NotLaterThan(m, p, fin, t', px', t, px);
    SameExit(m, p, fin, t, px, t', px');
  }

  lemma FirstTradeIs(m: Market, p: Params, fin: Option<Financing>, i: nat, ts: seq<Trade>)
    requires Priced(m, fin) && Signalled(m, i) && IsRun(m, p, fin, i, ts)
    ensures ts != [] && ts[0] == TradeAt(m, p, fin, i)
    ensures IsRun(m, p, fin, CloseOf(m, p, i).bar + 1, ts[1..])
  {
    var spans := SpansOf(ts);
    FirstSpanIsFirst(m, i, spans, i);
    assert spans[0] in spans && ts[0] in ts;
    TradeIsBooked(m, p, fin, i);
    BookedOnce(m, p, fin, ts[0], TradeAt(m, p, fin, i));
    assert ts == [ts[0]] + ts[1..];
    SpansOneMore(ts[0], ts[1..]);
    FillTail(m, i, Span(i, LeftOn(ts[0])), SpansOf(ts[1..]));
    assert forall t | t in ts[1..] :: t in ts;
  }

  lemma RunPrepends(m: Market, p: Params, fin: Option<Financing>, i: nat, ts: seq<Trade>)
    requires Priced(m, fin) && Signalled(m, i) && ts != [] && ts[0] == TradeAt(m, p, fin, i)
    requires RunFrom(m, p, fin, CloseOf(m, p, i).bar + 1) == ts[1..]
    ensures RunFrom(m, p, fin, i) == ts
  {
    assert ts == [ts[0]] + ts[1..];
  }

  lemma NothingToEnter(m: Market, p: Params, fin: Option<Financing>, i: nat, ts: seq<Trade>)
    requires Priced(m, fin) && 60 <= i && !Signalled(m, i) && IsRun(m, p, fin, i, ts)
    ensures i + 1 < |m.c| ==> IsRun(m, p, fin, i + 1, ts) && RunFrom(m, p, fin, i) == RunFrom(m, p, fin, i + 1)
    ensures i + 1 >= |m.c| ==> ts == [] && RunFrom(m, p, fin, i) == []
  {
    if i + 1 < |m.c| {
      FillStepsOver(m, i, SpansOf(ts));
    } else {
      FillEnds(m, i, SpansOf(ts));
    }
  }

  /** The prices leave no choice: the run is the only list of trades booked as they say that fills the calendar. */
  lemma {:induction false} OnlyRun(m: Market, p: Params, fin: Option<Financing>, i: nat, ts: seq<Trade>)
    requires Priced(m, fin) && 60 <= i && IsRun(m, p, fin, i, ts)
    ensures RunFrom(m, p, fin, i) == ts
    decreases |m.c| - i
  {
    if Signalled(m, i) {
      FirstTradeIs(m, p, fin, i, ts);
      OnlyRun(m, p, fin, CloseOf(m, p, i).bar + 1, ts[1..]);
      RunPrepends(m, p, fin, i, ts);
    } else {
      NothingToEnter(m, p, fin, i, ts);
      if i + 1 < |m.c| {
        OnlyRun(m, p, fin, i + 1, ts);
      }
    }
  }

  lemma RunIffOnPrices(m: Market, p: Params, fin: Option<Financing>, ts: seq<Trade>)
    requires Priced(m, fin)
    ensures ts == Trades(m, p, fin) <==> IsRun(m, p, fin, 60, ts)
  {
    RunIsOnPrices(m, p, fin, FIRST_BAR);
    if IsRun(m, p, fin, 60, ts) {
      OnlyRun(m, p, fin, FIRST_BAR, ts);
    }
  }

  method Simulate(m: Market, p: Params, fin: Option<Financing>) returns (trades: seq<Trade>)
    requires Priced(m, fin)
    ensures trades == Trades(m, p, fin)
    // in the prices alone: the one list of trades they call for
    ensures forall ts :: IsRun(m, p, fin, 60, ts) <==> ts == trades
  {
    trades := [];
    var i, n := FIRST_BAR, |m.c|;
    while i < n - 1
      invariant FIRST_BAR <= i
      invariant trades + RunFrom(m, p, fin, i) == Trades(m, p, fin)
    {
      if m.sig[i - 1] == 0 || m.atr[i - 1].None? || m.atr[i - 1].value <= 0.0 {
        i := i + 1;
        continue;
      }
      var trade, j := TakeTrade(m, p, fin, i);
      MoveHead(trades, trade, RunFrom(m, p, fin, j + 1));
      trades := trades + [trade];
      i := j + 1;                            // flat before the next entry
    }
    forall ts ensures IsRun(m, p, fin, 60, ts) <==> ts == trades {
      RunIffOnPrices(m, p, fin, ts);
    }
  }

  /** One entry, from the open of bar i to its exit on bar j. */
  method TakeTrade(m: Market, p: Params, fin: Option<Financing>, i: nat) returns (trade: Trade, j: nat)
    requires Priced(m, fin) && 1 <= i < |m.c| && m.Takeable(i)
    ensures trade == TradeAt(m, p, fin, i)
    ensures j == CloseOf(m, p, i).bar
  {
    var long, entry, a := m.sig[i - 1] > 0, m.o[i], m.atr[i - 1].value;
    var sl := StopLevel(long, entry, a, p.slAtr);
    var tp := TargetLevel(long, entry, a, p.tpAtr);
    var exitPx, reason, held;
    exitPx, reason, held, j := HoldPosition(m, long, sl, tp, p.maxHold, i);
    var gross := if long then exitPx - entry else entry - exitPx;
    var nights, financing := 0, 0.0;
    if fin.Some? {
      nights := Swap.NightsBetween(fin.value.times[i], fin.value.times[j], fin.value.tripleDow);
      financing := nights as real * if long then fin.value.longRate else fin.value.shortRate;
    }
    trade := Trade(m.sig[i - 1], gross, gross - p.spread + financing, held, nights, financing, reason, i);
  }

  /** The inner loop over held bars. */
  method HoldPosition(m: Market, long: bool, sl: real, tp: real, maxHold: int, i: nat)
    returns (exitPx: real, reason: Reason, held: int, j: nat)
    requires m.Valid() && i < |m.c|
    ensures Hold(m, long, sl, tp, maxHold, i) == Close(j, exitPx, reason)
    ensures held == if i < HoldEnd(|m.c|, i, maxHold) then j - i + 1 else 0
  {
    var n := |m.c|;
    reason, held, j := Timeout, 0, i;
    var k := i;
    var end := if i + maxHold <= n then i + maxHold else n;
    while k < end
      invariant i <= k && (k <= end || k == i)
      invariant reason == Timeout
      invariant j == (if k == i then i else k - 1) && held == (if k == i then 0 else j - i + 1)
      invariant i < end ==> FirstTouch(m, long, sl, tp, i, end) == FirstTouch(m, long, sl, tp, k, end)
    {
      j := k;
      held := j - i + 1;
      var hitSl, hitTp := HitStop(m, long, sl, j), HitTarget(m, long, tp, j);
      if hitSl {
        return sl, StopLoss, held, j;
      }
      if hitTp {
        return tp, TakeProfit, held, j;
      }
      k := k + 1;
    }
    exitPx := m.c[j];
  }

  // ------------------------------------------------------------ no lookahead

  /** A position the short run closes before its last bar is closed the same way whatever
      bars follow. */
  lemma HoldIsCausal(m: Market, n: nat, long: bool, stop: real, target: real, maxHold: int, i: nat)
    requires m.Valid() && i < n <= |m.c|
    requires Hold(m.Prefix(n), long, stop, target, maxHold, i).bar < n - 1
    ensures Hold(m, long, stop, target, maxHold, i) == Hold(m.Prefix(n), long, stop, target, maxHold, i)
  {
    if maxHold >= 1 {
      var end, end' := HoldEnd(n, i, maxHold), HoldEnd(|m.c|, i, maxHold);
      FirstTouchIsCausal(m, n, long, stop, target, i, end, end');
    }
  }

  function PrefixFinancing(fin: Option<Financing>, n: nat): Option<Financing>
    requires fin.Some? ==> n <= |fin.value.times|
  {
    if fin.None? then None else Some(fin.value.(times := fin.value.times[..n]))
  }

  lemma PlanIsCausal(m: Market, p: Params, n: nat)
    requires m.Valid() && n <= |m.c|
    ensures Foreshadows(PlanOf(m.Prefix(n), p), PlanOf(m, p))
  {
    var short, long := PlanOf(m.Prefix(n), p), PlanOf(m, p);
    forall i | 0 <= i < n - 1
      ensures short[i].Some? == long[i].Some?
      ensures short[i].Some? && short[i].value < n - 1 ==> long[i] == short[i]
    {
      if 1 <= i && m.Takeable(i) && CloseOf(m.Prefix(n), p, i).bar < n - 1 {
        CloseIsCausal(m, p, n, i);
      }
    }
  }

  lemma CloseIsCausal(m: Market, p: Params, n: nat, i: nat)
    requires m.Valid() && 1 <= i < n <= |m.c| && m.Takeable(i)
    requires CloseOf(m.Prefix(n), p, i).bar < n - 1
    ensures CloseOf(m, p, i) == CloseOf(m.Prefix(n), p, i)
  {
    HoldIsCausal(m, n, m.Long(i), StopLevel(m.Long(i), m.o[i], m.Unit(i), p.slAtr),
                 TargetLevel(m.Long(i), m.o[i], m.Unit(i), p.tpAtr), p.maxHold, i);
  }

  lemma TradeIsCausal(m: Market, p: Params, fin: Option<Financing>, n: nat, i: nat)
    requires Priced(m, fin) && 1 <= i < n <= |m.c| && m.Takeable(i)
    requires CloseOf(m.Prefix(n), p, i).bar < n - 1
    ensures TradeAt(m, p, fin, i) == TradeAt(m.Prefix(n), p, PrefixFinancing(fin, n), i)
  {
    CloseIsCausal(m, p, n, i);
  }

  /** A run given only the first n bars enters the same bars in the same order as a longer run,
      and every trade it closes before its last bar is the longer run's trade exactly. */
  lemma NoLookahead(m: Market, p: Params, fin: Option<Financing>, n: nat, k: nat)
    requires Priced(m, fin) && n <= |m.c|
    requires k < |Trades(m.Prefix(n), p, PrefixFinancing(fin, n))|
    ensures var i := Trades(m.Prefix(n), p, PrefixFinancing(fin, n))[k].entryIdx;
      1 <= i < n && m.Prefix(n).Takeable(i)
    ensures var short, long := Trades(m.Prefix(n), p, PrefixFinancing(fin, n)), Trades(m, p, fin);
      && k < |long|
      && long[k].entryIdx == short[k].entryIdx
      && (CloseOf(m.Prefix(n), p, short[k].entryIdx).bar < n - 1 ==> long[k] == short[k])
  {
    var fin' := PrefixFinancing(fin, n);
    PlanIsCausal(m, p, n);
    RunIsOfEntries(m.Prefix(n), p, fin', FIRST_BAR);
    RunIsOfEntries(m, p, fin, FIRST_BAR);
    EntriesAreCausal(PlanOf(m.Prefix(n), p), PlanOf(m, p), FIRST_BAR);
    var i := EntriesFrom(m.Prefix(n), p, FIRST_BAR)[k];
    assert Trades(m.Prefix(n), p, fin')[k] == TradeAt(m.Prefix(n), p, fin', i);
    if CloseOf(m.Prefix(n), p, i).bar < n - 1 {
      TradeIsCausal(m, p, fin, n, i);
    }
  }

  /** Trades never overlap. */
  lemma TradesAreDisjoint(m: Market, p: Params, fin: Option<Financing>, k: nat, k': nat)
    requires Priced(m, fin) && k < k' < |Trades(m, p, fin)|
    ensures 1 <= Trades(m, p, fin)[k].entryIdx < |m.c| && m.Takeable(Trades(m, p, fin)[k].entryIdx)
    ensures CloseOf(m, p, Trades(m, p, fin)[k].entryIdx).bar < Trades(m, p, fin)[k'].entryIdx
  {
    RunIsOfEntries(m, p, fin, FIRST_BAR);
    EntriesAreDisjoint(PlanOf(m, p), FIRST_BAR, k, k');
  }

  /** The trade was entered on an earlier bar and is still open on bar i. */
  predicate OpenAt(m: Market, p: Params, t: Trade, i: nat)
    requires m.Valid()
  {
    && 1 <= t.entryIdx < |m.c| && m.Takeable(t.entryIdx)
    && t.entryIdx < i <= CloseOf(m, p, t.entryIdx).bar
  }

  /** A takeable bar goes unentered exactly when an earlier trade is still open on it. */
  lemma TradesFillTheCalendar(m: Market, p: Params, fin: Option<Financing>, i: nat)
    requires Priced(m, fin) && FIRST_BAR <= i && i + 1 < |m.c| && m.Takeable(i)
    ensures (exists t | t in Trades(m, p, fin) :: t.entryIdx == i)
       <==> !exists t | t in Trades(m, p, fin) :: OpenAt(m, p, t, i)
  {
    var es := EntriesFrom(m, p, FIRST_BAR);
    RunIsOfEntries(m, p, fin, FIRST_BAR);
    EntriesAreComplete(PlanOf(m, p), FIRST_BAR, i);
    EntryIsATrade(m, p, fin, es, i);
    CoverIsATrade(m, p, fin, es, i);
  }

  lemma EntryIsATrade(m: Market, p: Params, fin: Option<Financing>, es: seq<nat>, i: nat)
    requires Priced(m, fin) && Enterable(m, es)
    ensures i in es <==> exists t | t in TradesOf(m, p, fin, es) :: t.entryIdx == i
  {
    var ts := TradesOf(m, p, fin, es);
    if i in es {
      var k :| 0 <= k < |es| && es[k] == i;
      assert ts[k] in ts;
    }
  }

  lemma CoverIsATrade(m: Market, p: Params, fin: Option<Financing>, es: seq<nat>, i: nat)
    requires Priced(m, fin) && Enterable(m, es)
    ensures Covered(PlanOf(m, p), es, i) <==> exists t | t in TradesOf(m, p, fin, es) :: OpenAt(m, p, t, i)
  {
    var ts := TradesOf(m, p, fin, es);
    if Covered(PlanOf(m, p), es, i) {
      var k :| 0 <= k < |es| && es[k] < i <= PlanOf(m, p)[es[k]].value;
      assert OpenAt(m, p, ts[k], i);
    }
    if exists t | t in ts :: OpenAt(m, p, t, i) {
      var k :| 0 <= k < |ts| && OpenAt(m, p, ts[k], i);
      assert es[k] < i <= PlanOf(m, p)[es[k]].value;
    }
  }

  // ------------------------------------------------------------ financing over a run

  function TotalNights(ts: seq<Trade>): nat {
    if ts == [] then 0 else ts[0].nights + TotalNights(ts[1..])
  }

  lemma TotalNightsHead(t: Trade, ts: seq<Trade>)
    ensures TotalNights([t] + ts) == t.nights + TotalNights(ts)
  {
  }

  ghost predicate WithinSpan(m: Market, p: Params, fin: Financing, i: nat)
    requires Priced(m, Some(fin)) && 1 <= i < |m.c|
  {
    TotalNights(RunFrom(m, p, Some(fin), i)) <= Swap.Nights(fin.times[i], fin.times[|m.c| - 1], fin.tripleDow)
  }

  lemma SkippedBarStaysWithin(m: Market, p: Params, fin: Financing, i: nat)
    requires Priced(m, Some(fin)) && 1 <= i && i + 1 < |m.c| && !m.Takeable(i)
    requires forall u, v | 0 <= u < v < |m.c| :: fin.times[u] <= fin.times[v]
    requires WithinSpan(m, p, fin, i + 1)
    ensures WithinSpan(m, p, fin, i)
  {
    Swap.NightsOfTwo(fin.times[i], fin.times[i], fin.times[i + 1], fin.times[|m.c| - 1], fin.tripleDow);
  }

  lemma TradeStaysWithin(m: Market, p: Params, fin: Financing, i: nat, j: nat)
    requires Priced(m, Some(fin)) && 1 <= i && i + 1 < |m.c| && m.Takeable(i) && j == CloseOf(m, p, i).bar
    requires forall u, v | 0 <= u < v < |m.c| :: fin.times[u] <= fin.times[v]
    requires j + 1 < |m.c| ==> WithinSpan(m, p, fin, j + 1)
    ensures WithinSpan(m, p, fin, i)
  {
    var last := |m.c| - 1;
    TotalNightsHead(TradeAt(m, p, Some(fin), i), RunFrom(m, p, Some(fin), j + 1));
    if j < last {
      Swap.NightsOfTwo(fin.times[i], fin.times[j], fin.times[j + 1], fin.times[last], fin.tripleDow);
    }
  }

  /** Positions that do not overlap are never billed for more nights than the calendar holds. */
  lemma {:induction false} NightsNeverExceedTheSpan(m: Market, p: Params, fin: Financing, i: nat)
    requires Priced(m, Some(fin)) && 1 <= i < |m.c|
    requires forall u, v | 0 <= u < v < |m.c| :: fin.times[u] <= fin.times[v]
    ensures WithinSpan(m, p, fin, i)
    decreases |m.c| - i
  {
    if i + 1 == |m.c| {
    } else if m.Takeable(i) {
      var j := CloseOf(m, p, i).bar;
      if j + 1 < |m.c| {
        NightsNeverExceedTheSpan(m, p, fin, j + 1);
      }
      TradeStaysWithin(m, p, fin, i, j);
    } else {
      NightsNeverExceedTheSpan(m, p, fin, i + 1);
      SkippedBarStaysWithin(m, p, fin, i);
    }
  }
}
