/** The exit simulator (tools/exit_search.py): one bar walk carrying a stop that a breakeven move
    and a trail may rewrite, with target, profit, time and timeout exits. */
module ExitSearch {
  import opened Prelude
  import opened BarWalk

  datatype Reason = StopLoss | BreakEven | TakeProfit | Profit | Time | Timeout

  /** The parameters once defaults are filled in; None is Python's None. slAtr None is no stop. */
  datatype Params = Params(spread: real, slAtr: Option<real>, tpAtr: Option<real>, trailAtr: Option<real>,
                           holdBars: Option<int>, beTrigger: Option<real>, profitExit: bool, maxHold: int)

  datatype Trade = Trade(gross: real, net: real, bars: int, reason: Reason, entryIdx: nat)

  /** What is fixed at entry. */
  datatype Position = Position(i: nat, long: bool, entry: real, a: real, target: Option<real>)

  /** What a bar may rewrite. */
  datatype State = State(stop: Option<real>, movedToBe: bool)

  /** What one bar does: close the position, carry it on, or raise, as `max(None, cand)` does. */
  datatype Outcome = Exit(px: real, reason: Reason) | Carry(st: State) | TypeError

  datatype Close = Close(bar: nat, px: real, reason: Reason) | Raised

  /** Python's truth of an optional multiple: absent and zero are both off. */
  predicate On(x: Option<real>) {
    x.Some? && x.value != 0.0
  }

  function Opened(m: Market, p: Params, i: nat): Position
    requires m.Valid() && 1 <= i < |m.c| && m.Takeable(i)
  {
    var long, entry, a := m.Long(i), m.o[i], m.Unit(i);
    Position(i, long, entry, a, if On(p.tpAtr) then Some(TargetLevel(long, entry, a, p.tpAtr.value)) else None)
  }

  function Initial(p: Params, pos: Position): State {
    State(if p.slAtr.Some? then Some(StopLevel(pos.long, pos.entry, pos.a, p.slAtr.value)) else None, false)
  }

  /** The bar's extreme in the position's favour, as a gain. */
  function Reached(m: Market, pos: Position, j: nat): real
    requires m.Valid() && j < |m.c|
  {
    Gain(pos.long, pos.entry, if pos.long then m.h[j] else m.l[j])
  }

  function ProfitLevel(p: Params, pos: Position): real {
    if pos.long then pos.entry + p.spread else pos.entry - p.spread
  }

  function TrailLevel(m: Market, p: Params, pos: Position, j: nat): real
    requires m.Valid() && j < |m.c| && p.trailAtr.Some?
  {
    if pos.long then m.h[j] - p.trailAtr.value * pos.a else m.l[j] + p.trailAtr.value * pos.a
  }

  function Tighter(long: bool, x: real, y: real): real {
    if long then Max(x, y) else Min(x, y)
  }

  predicate BreakEvenDue(m: Market, p: Params, pos: Position, j: nat, st: State)
    requires m.Valid() && j < |m.c|
  {
    On(p.beTrigger) && !st.movedToBe && Reached(m, pos, j) >= p.beTrigger.value * pos.a
  }

  predicate TimeUp(p: Params, pos: Position, j: nat) {
    p.holdBars.Some? && p.holdBars.value != 0 && j - pos.i + 1 >= p.holdBars.value
  }

  /** Bar j with the position open: exits first, adverse before favourable, then the stop moves. */
  function Bar(m: Market, p: Params, pos: Position, j: nat, st: State): Outcome
    requires m.Valid() && j < |m.c|
  {
    if st.stop.Some? && HitStop(m, pos.long, st.stop.value, j) then
      Exit(st.stop.value, if st.movedToBe then BreakEven else StopLoss)
    else if pos.target.Some? && HitTarget(m, pos.long, pos.target.value, j) then
      Exit(pos.target.value, TakeProfit)
    else if p.profitExit && j > pos.i && HitTarget(m, pos.long, ProfitLevel(p, pos), j) then
      Exit(ProfitLevel(p, pos), Profit)
    else
      var moved := if BreakEvenDue(m, p, pos, j, st) then State(Some(pos.entry), true) else st;
      if On(p.trailAtr) && moved.stop.None? then TypeError
      else
        var trailed := if On(p.trailAtr)
                       then State(Some(Tighter(pos.long, moved.stop.value, TrailLevel(m, p, pos, j))), moved.movedToBe)
                       else moved;
        if TimeUp(p, pos, j) then Exit(m.c[j], Time) else Carry(trailed)
  }

  function Walk(m: Market, p: Params, pos: Position, j: nat, end: nat, st: State): (r: Close)
    requires m.Valid() && 0 < end <= |m.c| && j <= end
    ensures r.Close? ==> r.bar < end && (j < end ==> j <= r.bar)
    decreases end - j
  {
    if j == end then Close(end - 1, m.c[end - 1], Timeout)
    else match Bar(m, p, pos, j, st)
      case Exit(px, reason) => Close(j, px, reason)
      case Carry(st') => Walk(m, p, pos, j + 1, end, st')
      case TypeError => Raised
  }

  function CloseOf(m: Market, p: Params, i: nat): (r: Close)
    requires m.Valid() && 1 <= i < |m.c| && m.Takeable(i)
    ensures r.Close? ==> i <= r.bar < |m.c|
    ensures r.Close? && i < HoldEnd(|m.c|, i, p.maxHold) ==> r.bar < HoldEnd(|m.c|, i, p.maxHold)
  {
    if i < HoldEnd(|m.c|, i, p.maxHold)
    then Walk(m, p, Opened(m, p, i), i, HoldEnd(|m.c|, i, p.maxHold), Initial(p, Opened(m, p, i)))
    else Close(i, m.c[i], Timeout)
  }

  function TradeOf(m: Market, p: Params, i: nat): Trade
    requires m.Valid() && 1 <= i < |m.c| && m.Takeable(i) && CloseOf(m, p, i).Close?
  {
    var close := CloseOf(m, p, i);
    var gross := Gain(m.Long(i), m.o[i], close.px);
    Trade(gross, gross - p.spread, close.bar - i + 1, close.reason, i)
  }

  function Prepend(ts: seq<Trade>, rest: Option<seq<Trade>>): Option<seq<Trade>> {
    if rest.None? then None else Some(ts + rest.value)
  }

  lemma PrependUnits(rest: Option<seq<Trade>>, ts: seq<Trade>)
    ensures Prepend([], rest) == rest && Prepend(ts, Some([])) == Some(ts)
  {
    assert ts + [] == ts;
    assert rest.Some? ==> [] + rest.value == rest.value;
  }

  lemma PrependMoves(ts: seq<Trade>, t: Trade, rest: Option<seq<Trade>>)
    ensures Prepend(ts, Prepend([t], rest)) == Prepend(ts + [t], rest)
  {
    if rest.Some? {
      MoveHead(ts, t, rest.value);
    }
  }

  /** The trades of a walk standing at bar i; None when it raises. */
  function RunFrom(m: Market, p: Params, i: nat): Option<seq<Trade>>
    requires m.Valid() && 1 <= i
    decreases |m.c| - i
  {
    if i + 1 >= |m.c| then Some([])
    else if !m.Takeable(i) then RunFrom(m, p, i + 1)
    else if CloseOf(m, p, i).Raised? then None
    else Prepend([TradeOf(m, p, i)], RunFrom(m, p, CloseOf(m, p, i).bar + 1))
  }

  method SimulateExit(m: Market, p: Params) returns (r: Option<seq<Trade>>)
    requires m.Valid()
    ensures r == RunFrom(m, p, FIRST_BAR)
    // in the prices alone: the one list of trades they call for, or the raise when they call for none
    ensures forall ts :: IsRun(m, p, 60, ts) <==> r == Some(ts)
  {
    forall ts ensures IsRun(m, p, 60, ts) <==> RunFrom(m, p, FIRST_BAR) == Some(ts) {
      RunIffOnPrices(m, p, ts);
    }
    var trades := [];
    var i, n := FIRST_BAR, |m.c|;
    PrependUnits(RunFrom(m, p, i), trades);
    while i < n - 1
      invariant FIRST_BAR <= i
      invariant Prepend(trades, RunFrom(m, p, i)) == RunFrom(m, p, FIRST_BAR)
    {
      if m.sig[i - 1] == 0 || m.atr[i - 1].None? || m.atr[i - 1].value <= 0.0 {
        i := i + 1;
        continue;
      }
      var close := HoldPosition(m, p, i);
      if close.Raised? {
        return None;
      }
      var gross := if m.sig[i - 1] > 0 then close.px - m.o[i] else m.o[i] - close.px;
      var trade := Trade(gross, gross - p.spread, close.bar - i + 1, close.reason, i);
      assert trade == TradeOf(m, p, i);
      PrependMoves(trades, trade, RunFrom(m, p, close.bar + 1));
      trades := trades + [trade];
      i := close.bar + 1;
    }
    PrependUnits(Some([]), trades);
    return Some(trades);
  }

  /** The inner loop over held bars. */
  method HoldPosition(m: Market, p: Params, i: nat) returns (close: Close)
    requires m.Valid() && 1 <= i < |m.c| && m.Takeable(i)
    ensures close == CloseOf(m, p, i)
  {
    var n := |m.c|;
    var pos := Opened(m, p, i);
    var stop := Initial(p, pos).stop;
    var movedToBe := false;
    var j, k := i, i;
    var end := HoldEnd(n, i, p.maxHold);
    while k < end
      invariant i <= k && (k <= end || k == i)
      invariant j == if k == i then i else k - 1
      invariant i < end ==> CloseOf(m, p, i) == Walk(m, p, pos, k, end, State(stop, movedToBe))
    {
      j := k;
      var exit;
      stop, movedToBe, exit := HoldBar(m, p, pos, j, stop, movedToBe);
      if exit.Exit? {
        return Close(j, exit.px, exit.reason);
      }
      if exit.TypeError? {
        return Raised;
      }
      k := k + 1;
    }
    return Close(j, m.c[j], Timeout);
  }

  /** The body of that loop, rewriting `stop` and `movedToBe` in place. */
  method HoldBar(m: Market, p: Params, pos: Position, j: nat, stop0: Option<real>, movedToBe0: bool)
    returns (stop: Option<real>, movedToBe: bool, exit: Outcome)
    requires m.Valid() && j < |m.c|
    ensures exit == Bar(m, p, pos, j, State(stop0, movedToBe0))
    ensures exit.Carry? ==> exit.st == State(stop, movedToBe)
  {
    stop, movedToBe := stop0, movedToBe0;
    var long, entry, hi, lo := pos.long, pos.entry, m.h[j], m.l[j];
    if stop.Some? && ((long && lo <= stop.value) || (!long && hi >= stop.value)) {
      return stop, movedToBe, Exit(stop.value, if movedToBe then BreakEven else StopLoss);
    }
    if pos.target.Some? && ((long && hi >= pos.target.value) || (!long && lo <= pos.target.value)) {
      return stop, movedToBe, Exit(pos.target.value, TakeProfit);
    }
    if p.profitExit && j > pos.i {
      var want := if long then entry + p.spread else entry - p.spread;
      if (long && hi >= want) || (!long && lo <= want) {
        return stop, movedToBe, Exit(want, Profit);
      }
    }
    if On(p.beTrigger) && !movedToBe {
      var reached := if long then hi - entry else entry - lo;
      if reached >= p.beTrigger.value * pos.a {
        stop, movedToBe := Some(entry), true;
      }
    }
    if On(p.trailAtr) {
      var cand := TrailLevel(m, p, pos, j);
      if stop.None? {
        return stop, movedToBe, TypeError;
      }
      stop := Some(if long then Max(stop.value, cand) else Min(stop.value, cand));
    }
    if p.holdBars.Some? && p.holdBars.value != 0 && j - pos.i + 1 >= p.holdBars.value {
      return stop, movedToBe, Exit(m.c[j], Time);
    }
    exit := Carry(State(stop, movedToBe));
  }

  // ------------------------------------------------------------ the stop ratchet

  /** The state a position carries into bar j, or None when it was closed (or raised) before j. */
  function StateAt(m: Market, p: Params, pos: Position, j: nat): Option<State>
    requires m.Valid() && pos.i <= j <= |m.c|
    decreases j
  {
    if j == pos.i then Some(Initial(p, pos))
    else
      var before := StateAt(m, p, pos, j - 1);
      if before.Some? && Bar(m, p, pos, j - 1, before.value).Carry?
      then Some(Bar(m, p, pos, j - 1, before.value).st)
      else None
  }

  function StopGain(pos: Position, st: State): real
    requires st.stop.Some?
  {
    Gain(pos.long, pos.entry, st.stop.value)
  }

  /** Until breakeven the stop sits at its opening distance, if there is one, or a trail's distance behind
      some extreme that was itself short of the breakeven trigger; afterwards it never gives entry back. */
  ghost predicate StopExplained(m: Market, p: Params, pos: Position, j: nat, st: State)
    requires m.Valid() && pos.i <= j <= |m.c|
  {
    && (p.slAtr.Some? || st.movedToBe ==> st.stop.Some?)
    && (st.movedToBe ==> StopGain(pos, st) >= 0.0)
    && (!st.movedToBe && st.stop.Some? ==>
          || (p.slAtr.Some? && StopGain(pos, st) == -(p.slAtr.value * pos.a))
          || exists u | pos.i <= u < j :: TrailedFrom(m, p, pos, u, st))
  }

  ghost predicate TrailedFrom(m: Market, p: Params, pos: Position, u: nat, st: State)
    requires m.Valid() && u < |m.c| && st.stop.Some?
  {
    && On(p.trailAtr)
    && StopGain(pos, st) == Reached(m, pos, u) - p.trailAtr.value * pos.a
    && (On(p.beTrigger) ==> Reached(m, pos, u) < p.beTrigger.value * pos.a)
  }

  /** In gain space a trail is a maximum, long and short alike. */
  lemma TighterIsMax(m: Market, p: Params, pos: Position, j: nat, stop: real)
    requires m.Valid() && j < |m.c| && p.trailAtr.Some?
    ensures Gain(pos.long, pos.entry, Tighter(pos.long, stop, TrailLevel(m, p, pos, j)))
         == Max(Gain(pos.long, pos.entry, stop), Reached(m, pos, j) - p.trailAtr.value * pos.a)
  {
  }

  lemma {:induction false} StopIsExplained(m: Market, p: Params, pos: Position, j: nat)
    requires m.Valid() && pos.i <= j <= |m.c|
    requires StateAt(m, p, pos, j).Some?
    ensures StopExplained(m, p, pos, j, StateAt(m, p, pos, j).value)
    decreases j
  {
    if j > pos.i {
      StopIsExplained(m, p, pos, j - 1);
      BarKeepsExplanation(m, p, pos, j - 1, StateAt(m, p, pos, j - 1).value);
    }
  }

  lemma BarKeepsExplanation(m: Market, p: Params, pos: Position, j: nat, st: State)
    requires m.Valid() && pos.i <= j < |m.c| && StopExplained(m, p, pos, j, st) && Bar(m, p, pos, j, st).Carry?
    ensures StopExplained(m, p, pos, j + 1, Bar(m, p, pos, j, st).st)
  {
    var st' := Bar(m, p, pos, j, st).st;
    if On(p.trailAtr) {
      TighterIsMax(m, p, pos, j, pos.entry);
      if st.stop.Some? {
        TighterIsMax(m, p, pos, j, st.stop.value);
      }
    }
    if !st'.movedToBe && st'.stop != st.stop {
      assert TrailedFrom(m, p, pos, j, st');
    } else if !st'.movedToBe && st.stop.Some? && !(p.slAtr.Some? && StopGain(pos, st) == -(p.slAtr.value * pos.a)) {
      var u :| pos.i <= u < j && TrailedFrom(m, p, pos, u, st);
      assert TrailedFrom(m, p, pos, u, st');
    }
  }

  /** The stop one bar hands to the next, in gain space. */
  lemma CarriedGain(m: Market, p: Params, pos: Position, j: nat, st: State)
    requires m.Valid() && j < |m.c| && st.stop.Some? && Bar(m, p, pos, j, st).Carry?
    ensures Bar(m, p, pos, j, st).st.stop.Some?
    ensures var kept := if BreakEvenDue(m, p, pos, j, st) then 0.0 else StopGain(pos, st);
      StopGain(pos, Bar(m, p, pos, j, st).st)
      == if On(p.trailAtr) then Max(kept, Reached(m, pos, j) - p.trailAtr.value * pos.a) else kept
  {
  }

  /** Exactly when one bar moves the stop against the position: a breakeven move takes a stop that was
      past entry, and no trail of the same bar puts it back. */
  lemma StopRetreatsIff(m: Market, p: Params, pos: Position, j: nat, st: State)
    requires m.Valid() && j < |m.c| && st.stop.Some? && Bar(m, p, pos, j, st).Carry?
    ensures Bar(m, p, pos, j, st).st.stop.Some?
    ensures StopGain(pos, Bar(m, p, pos, j, st).st) < StopGain(pos, st) <==>
      (BreakEvenDue(m, p, pos, j, st) && StopGain(pos, st) > 0.0
       && (On(p.trailAtr) ==> Reached(m, pos, j) - p.trailAtr.value * pos.a < StopGain(pos, st)))
  {
  }

  /** The opening stop is on the losing side, or the entry bar's range holds its own open, as a bar's does. */
  predicate OpensBehind(m: Market, p: Params, pos: Position)
    requires m.Valid() && pos.i < |m.c|
  {
    p.slAtr.Some? && p.slAtr.value < 0.0 ==> m.l[pos.i] <= pos.entry <= m.h[pos.i]
  }

  /** A stop opened past entry is reached by the entry bar itself, so the position never outlives it. */
  lemma StopPastEntryIsHit(m: Market, p: Params, pos: Position, j: nat)
    requires m.Valid() && pos.i < j <= |m.c| && pos.a > 0.0
    requires p.slAtr.Some? && p.slAtr.value < 0.0 && m.l[pos.i] <= pos.entry <= m.h[pos.i]
    ensures StateAt(m, p, pos, j).None?
    decreases j
  {
    if j > pos.i + 1 {
      StopPastEntryIsHit(m, p, pos, j - 1);
    } else {
      NegativeDistance(p.slAtr.value, pos.a);
    }
  }

  lemma NegativeDistance(x: real, a: real)
    requires x < 0.0 && a > 0.0
    ensures x * a < 0.0
  {
  }

  /** Once there is a stop it never moves against the position, whatever mix of trail and breakeven rewrites
      it, and whether it was set at entry or by the breakeven move: a breakeven move that lowers a trailed
      stop is undone by the trail of the same bar. */
  lemma StopOnlyRatchets(m: Market, p: Params, pos: Position, j: nat)
    requires m.Valid() && pos.i <= j < |m.c| && pos.a > 0.0 && OpensBehind(m, p, pos)
    requires StateAt(m, p, pos, j + 1).Some?
    ensures StateAt(m, p, pos, j).Some?
    ensures p.slAtr.Some? ==> StateAt(m, p, pos, j).value.stop.Some?
    ensures var st, st' := StateAt(m, p, pos, j).value, StateAt(m, p, pos, j + 1).value;
      st.stop.Some? ==> st'.stop.Some? && StopGain(pos, st) <= StopGain(pos, st')
  {
    var st := StateAt(m, p, pos, j).value;
    StopIsExplained(m, p, pos, j);
    if p.slAtr.Some? && p.slAtr.value < 0.0 {
      StopPastEntryIsHit(m, p, pos, j + 1);
    } else if st.stop.Some? {
      CarriedGain(m, p, pos, j, st);
      if BreakEvenDue(m, p, pos, j, st) {
        BreakEvenNeverCosts(m, p, pos, j, st);
      }
    }
  }

  /** The stop a breakeven move replaces is no better than the entry, or than where the same
      bar's trail will put it. */
  lemma BreakEvenNeverCosts(m: Market, p: Params, pos: Position, j: nat, st: State)
    requires m.Valid() && pos.i <= j < |m.c| && pos.a > 0.0 && OpensBehind(m, p, pos)
    requires StateAt(m, p, pos, j) == Some(st) && st.stop.Some? && Bar(m, p, pos, j, st).Carry?
    requires BreakEvenDue(m, p, pos, j, st)
    ensures StopGain(pos, st) <= 0.0
      || (On(p.trailAtr) && StopGain(pos, st) <= Reached(m, pos, j) - p.trailAtr.value * pos.a)
  {
    if p.slAtr.Some? && p.slAtr.value < 0.0 {
      StopPastEntryIsHit(m, p, pos, j + 1);
    } else {
      StopIsExplained(m, p, pos, j);
      ExplainedStopIsBehind(m, p, pos, j, st);
    }
  }

  lemma ExplainedStopIsBehind(m: Market, p: Params, pos: Position, j: nat, st: State)
    requires m.Valid() && pos.i <= j < |m.c| && pos.a > 0.0 && (p.slAtr.Some? ==> p.slAtr.value >= 0.0)
    requires StopExplained(m, p, pos, j, st) && st.stop.Some? && BreakEvenDue(m, p, pos, j, st)
    ensures StopGain(pos, st) <= 0.0
      || (On(p.trailAtr) && StopGain(pos, st) <= Reached(m, pos, j) - p.trailAtr.value * pos.a)
  {
    if p.slAtr.Some? && StopGain(pos, st) == -(p.slAtr.value * pos.a) {
      assert p.slAtr.value * pos.a >= 0.0;
    } else {
      var u :| pos.i <= u < j && TrailedFrom(m, p, pos, u, st);
    }
  }

  /** The states of the ratchet are the ones a run carries: a position reaches every bar up to its
      exit in the state StateAt names. */
  lemma {:induction false} RunCarriesStates(m: Market, p: Params, i: nat, j: nat)
    requires m.Valid() && 1 <= i < |m.c| && m.Takeable(i) && i < HoldEnd(|m.c|, i, p.maxHold)
    requires CloseOf(m, p, i).Close? && i <= j <= CloseOf(m, p, i).bar
    ensures StateAt(m, p, Opened(m, p, i), j).Some?
    ensures CloseOf(m, p, i) == Walk(m, p, Opened(m, p, i), j, HoldEnd(|m.c|, i, p.maxHold),
                                     StateAt(m, p, Opened(m, p, i), j).value)
    decreases j
  {
    if j > i {
      RunCarriesStates(m, p, i, j - 1);
      assert Bar(m, p, Opened(m, p, i), j - 1, StateAt(m, p, Opened(m, p, i), j - 1).value).Carry?;
    }
  }

  /** Over every held bar of every position of a run, for any parameters: a stop, once set, is no worse at
      the bar's end than at its start. The entry bar need hold its open only for a negative stop distance. */
  lemma RunStopsOnlyRatchet(m: Market, p: Params, i: nat, j: nat)
    requires m.Valid() && 1 <= i < |m.c| && m.Takeable(i) && i < HoldEnd(|m.c|, i, p.maxHold)
    requires CloseOf(m, p, i).Close? && i <= j < CloseOf(m, p, i).bar
    requires p.slAtr.Some? && p.slAtr.value < 0.0 ==> m.l[i] <= m.o[i] <= m.h[i]
    ensures var pos := Opened(m, p, i);
      var before, after := StateAt(m, p, pos, j), StateAt(m, p, pos, j + 1);
      && before.Some? && after.Some? && (p.slAtr.Some? ==> before.value.stop.Some?)
      && (before.value.stop.Some? ==>
            after.value.stop.Some? && StopGain(pos, before.value) <= StopGain(pos, after.value))
  {
    RunCarriesStates(m, p, i, j + 1);
    StopOnlyRatchets(m, p, Opened(m, p, i), j);
  }

  // ------------------------------------------------------------ what each exit books

  /** The gain promised by an exit reason. */
  predicate Promised(p: Params, a: real, reason: Reason, gain: real) {
    match reason
    case StopLoss => p.slAtr.Some? && gain >= -(p.slAtr.value * a)
    case BreakEven => gain >= 0.0
    case TakeProfit => On(p.tpAtr) && gain == p.tpAtr.value * a
    case Profit => gain == p.spread
    case _ => true
  }

  predicate StopIsPromised(p: Params, pos: Position, st: State) {
    && (st.movedToBe ==> st.stop.Some?)
    && (st.stop.Some? ==>
          Promised(p, pos.a, if st.movedToBe then BreakEven else StopLoss, StopGain(pos, st)))
  }

  ghost predicate TargetIsSet(p: Params, pos: Position) {
    pos.target == if On(p.tpAtr) then Some(TargetLevel(pos.long, pos.entry, pos.a, p.tpAtr.value)) else None
  }

  lemma ExitKeepsPromise(m: Market, p: Params, pos: Position, j: nat, st: State)
    requires m.Valid() && j < |m.c| && StopIsPromised(p, pos, st) && TargetIsSet(p, pos)
    ensures var out := Bar(m, p, pos, j, st);
      out.Exit? ==> Promised(p, pos.a, out.reason, Gain(pos.long, pos.entry, out.px))
  {
  }

  lemma CarryKeepsPromise(m: Market, p: Params, pos: Position, j: nat, st: State)
    requires m.Valid() && j < |m.c| && StopIsPromised(p, pos, st)
    ensures var out := Bar(m, p, pos, j, st); out.Carry? ==> StopIsPromised(p, pos, out.st)
  {
  }

  lemma {:induction false} WalkKeepsPromises(m: Market, p: Params, pos: Position, j: nat, end: nat, st: State)
    requires m.Valid() && 0 < end <= |m.c| && j <= end && StopIsPromised(p, pos, st) && TargetIsSet(p, pos)
    ensures var close := Walk(m, p, pos, j, end, st);
      close.Close? ==> Promised(p, pos.a, close.reason, Gain(pos.long, pos.entry, close.px))
    decreases end - j
  {
    if j < end {
      ExitKeepsPromise(m, p, pos, j, st);
      CarryKeepsPromise(m, p, pos, j, st);
      if Bar(m, p, pos, j, st).Carry? {
        WalkKeepsPromises(m, p, pos, j + 1, end, Bar(m, p, pos, j, st).st);
      }
    }
  }

  /** Every trade of every run books what its exit reason promises: a stop no more than its own
      distance, a breakeven no loss, a target its distance, and a profit exit exactly the spread. */
  lemma {:induction false} TradesKeepPromises(m: Market, p: Params, i: nat, k: nat)
    requires m.Valid() && 1 <= i && RunFrom(m, p, i).Some? && k < |RunFrom(m, p, i).value|
    ensures var t := RunFrom(m, p, i).value[k];
      && i <= t.entryIdx < |m.c| && m.Takeable(t.entryIdx)
      && t.net == t.gross - p.spread
      && Promised(p, m.Unit(t.entryIdx), t.reason, t.gross)
      && (t.reason == Profit ==> t.net == 0.0)
    decreases |m.c| - i
  {
    if !m.Takeable(i) {
      TradesKeepPromises(m, p, i + 1, k);
    } else if k > 0 {
      TradesKeepPromises(m, p, CloseOf(m, p, i).bar + 1, k - 1);
    } else if i < HoldEnd(|m.c|, i, p.maxHold) {
      var pos := Opened(m, p, i);
      WalkKeepsPromises(m, p, pos, i, HoldEnd(|m.c|, i, p.maxHold), Initial(p, pos));
    }
  }

  /** A run raises only when a trail is asked for with no stop to trail. */
  lemma {:induction false} OnlyAnUnsetStopRaises(m: Market, p: Params, i: nat)
    requires m.Valid() && 1 <= i && (p.slAtr.Some? || !On(p.trailAtr))
    ensures RunFrom(m, p, i).Some?
    decreases |m.c| - i
  {
    if i + 1 < |m.c| {
      if m.Takeable(i) {
        var pos := Opened(m, p, i);
        if i < HoldEnd(|m.c|, i, p.maxHold) {
          WalkCloses(m, p, pos, i, HoldEnd(|m.c|, i, p.maxHold), Initial(p, pos));
        }
        OnlyAnUnsetStopRaises(m, p, CloseOf(m, p, i).bar + 1);
      } else {
        OnlyAnUnsetStopRaises(m, p, i + 1);
      }
    }
  }

  lemma {:induction false} WalkCloses(m: Market, p: Params, pos: Position, j: nat, end: nat, st: State)
    requires m.Valid() && 0 < end <= |m.c| && j <= end && (st.stop.Some? || !On(p.trailAtr))
    ensures Walk(m, p, pos, j, end, st).Close?
    decreases end - j
  {
    if j < end && Bar(m, p, pos, j, st).Carry? {
      WalkCloses(m, p, pos, j + 1, end, Bar(m, p, pos, j, st).st);
    }
  }

  // ------------------------------------------------------------ the walk without its state

  /** Some bar held before j ran far enough in favour to move the stop to entry. */
  ghost predicate BrokeEven(m: Market, p: Params, i: nat, j: nat)
    requires m.Valid() && Signalled(m, i) && i <= j <= |m.c|
  {
    p.beTrigger.Some? && p.beTrigger.value != 0.0 && exists u | i <= u < j :: RunsUp(m, p, i, u)
  }

  ghost predicate RunsUp(m: Market, p: Params, i: nat, u: nat)
    requires m.Valid() && Signalled(m, i) && u < |m.c| && p.beTrigger.Some?
  {
    Made(m, i, if m.sig[i - 1] > 0 then m.h[u] else m.l[u]) >= p.beTrigger.value * m.atr[i - 1].value
  }

  /** A trail is set and has bars behind it to trail from. */
  ghost predicate Trails(p: Params, i: nat, j: nat) {
    p.trailAtr.Some? && p.trailAtr.value != 0.0 && i < j
  }

  /** A trail's distance behind the extreme of the bars held before j. */
  ghost function TrailPrice(m: Market, p: Params, i: nat, j: nat): real
    requires m.Valid() && Signalled(m, i) && j <= |m.c| && Trails(p, i, j)
  {
    if m.sig[i - 1] > 0 then MaxOver(m.h, i, j - 1) - p.trailAtr.value * m.atr[i - 1].value
    else MinOver(m.l, i, j - 1) + p.trailAtr.value * m.atr[i - 1].value
  }

  /** The stop met by bar j, without a state: the opening stop, or entry once broken even, or the trail
      when that is tighter. */
  ghost function StandingStop(m: Market, p: Params, i: nat, j: nat): Option<real>
    requires m.Valid() && Signalled(m, i) && i <= j <= |m.c|
  {
    if p.slAtr.None? && !BrokeEven(m, p, i, j) then None
    else
      var base := if BrokeEven(m, p, i, j) then m.o[i] else StopPrice(m, i, p.slAtr.value);
      if !Trails(p, i, j) then Some(base)
      else if m.sig[i - 1] > 0 then Some(if base >= TrailPrice(m, p, i, j) then base else TrailPrice(m, p, i, j))
      else Some(if base <= TrailPrice(m, p, i, j) then base else TrailPrice(m, p, i, j))
  }

  ghost predicate StopMet(m: Market, p: Params, i: nat, j: nat)
    requires m.Valid() && Signalled(m, i) && i <= j < |m.c|
  {
    StandingStop(m, p, i, j).Some? && FallsTo(m, i, StandingStop(m, p, i, j).value, j)
  }

  ghost predicate TargetMet(m: Market, p: Params, i: nat, j: nat)
    requires m.Valid() && Signalled(m, i) && i <= j < |m.c|
  {
    p.tpAtr.Some? && p.tpAtr.value != 0.0 && RisesTo(m, i, TargetPrice(m, i, p.tpAtr.value), j)
  }

  /** Past the entry bar, the spread is cleared. */
  ghost function CoverPrice(m: Market, p: Params, i: nat): real
    requires m.Valid() && Signalled(m, i)
  {
    if m.sig[i - 1] > 0 then m.o[i] + p.spread else m.o[i] - p.spread
  }

  ghost predicate SpreadMet(m: Market, p: Params, i: nat, j: nat)
    requires m.Valid() && Signalled(m, i) && i <= j < |m.c|
  {
    p.profitExit && i < j && RisesTo(m, i, CoverPrice(m, p, i), j)
  }

  ghost predicate TimeMet(p: Params, i: nat, j: nat) {
    p.holdBars.Some? && p.holdBars.value != 0 && j - i + 1 >= p.holdBars.value
  }

  lemma BreaksEvenNext(m: Market, p: Params, i: nat, j: nat)
    requires m.Valid() && Signalled(m, i) && i <= j < |m.c|
    ensures BrokeEven(m, p, i, j + 1)
       <==> BrokeEven(m, p, i, j) || (p.beTrigger.Some? && p.beTrigger.value != 0.0 && RunsUp(m, p, i, j))
  {
  }

  /** The bar that breaks even is the most extreme so far: none before it had run as far. */
  lemma TriggerIsTheExtreme(m: Market, p: Params, i: nat, j: nat)
    requires m.Valid() && Signalled(m, i) && i <= j < |m.c|
    requires !BrokeEven(m, p, i, j) && p.beTrigger.Some? && p.beTrigger.value != 0.0 && RunsUp(m, p, i, j)
    ensures if m.sig[i - 1] > 0 then MaxOver(m.h, i, j) == m.h[j] else MinOver(m.l, i, j) == m.l[j]
  {
    if i < j && m.sig[i - 1] > 0 {
      MaxOverIsTheMaximum(m.h, i, j - 1);
      var u :| i <= u <= j - 1 && m.h[u] == MaxOver(m.h, i, j - 1);
      assert !RunsUp(m, p, i, u);
    } else if i < j {
      MinOverIsTheMinimum(m.l, i, j - 1);
      var u :| i <= u <= j - 1 && m.l[u] == MinOver(m.l, i, j - 1);
      assert !RunsUp(m, p, i, u);
    }
  }

  lemma BarKeepsMoved(m: Market, p: Params, i: nat, j: nat, st: State)
    requires m.Valid() && Signalled(m, i) && i <= j < |m.c| && st.movedToBe == BrokeEven(m, p, i, j)
    requires Bar(m, p, Opened(m, p, i), j, st).Carry?
    ensures Bar(m, p, Opened(m, p, i), j, st).st.movedToBe == BrokeEven(m, p, i, j + 1)
    ensures BreakEvenDue(m, p, Opened(m, p, i), j, st) <==> !BrokeEven(m, p, i, j) && BrokeEven(m, p, i, j + 1)
  {
    BreaksEvenNext(m, p, i, j);
  }

  lemma UntrailedBarKeepsStop(m: Market, p: Params, i: nat, j: nat, st: State)
    requires m.Valid() && Signalled(m, i) && i <= j < |m.c| && !On(p.trailAtr)
    requires st == State(StandingStop(m, p, i, j), BrokeEven(m, p, i, j))
    requires Bar(m, p, Opened(m, p, i), j, st).Carry?
    ensures Bar(m, p, Opened(m, p, i), j, st).st.stop == StandingStop(m, p, i, j + 1)
  {
    BarKeepsMoved(m, p, i, j, st);
    assert !Trails(p, i, j) && !Trails(p, i, j + 1);
  }

  /** The bar's own trail candidate goes on top of what the bar kept. */
  lemma TrailedStop(m: Market, p: Params, i: nat, j: nat, st: State)
    requires m.Valid() && Signalled(m, i) && i <= j < |m.c| && On(p.trailAtr)
    requires Bar(m, p, Opened(m, p, i), j, st).Carry?
    ensures var kept := if BreakEvenDue(m, p, Opened(m, p, i), j, st) then Some(m.o[i]) else st.stop;
      kept.Some? && Bar(m, p, Opened(m, p, i), j, st).st.stop
                    == Some(Tighter(m.sig[i - 1] > 0, kept.value, TrailLevel(m, p, Opened(m, p, i), j)))
  {
  }

  lemma TrailPriceNext(m: Market, p: Params, i: nat, j: nat)
    requires m.Valid() && Signalled(m, i) && i <= j < |m.c| && On(p.trailAtr)
    ensures Trails(p, i, j) <==> i < j
    ensures Trails(p, i, j + 1)
    ensures TrailPrice(m, p, i, j + 1)
         == if i == j then TrailLevel(m, p, Opened(m, p, i), j)
            else Tighter(m.sig[i - 1] > 0, TrailPrice(m, p, i, j), TrailLevel(m, p, Opened(m, p, i), j))
  {
  }

  lemma TrailedBarKeepsStop(m: Market, p: Params, i: nat, j: nat, st: State)
    requires m.Valid() && Signalled(m, i) && i <= j < |m.c| && On(p.trailAtr)
    requires st == State(StandingStop(m, p, i, j), BrokeEven(m, p, i, j))
    requires Bar(m, p, Opened(m, p, i), j, st).Carry?
    ensures Bar(m, p, Opened(m, p, i), j, st).st.stop == StandingStop(m, p, i, j + 1)
  {
    BarKeepsMoved(m, p, i, j, st);
    TrailedStop(m, p, i, j, st);
    TrailPriceNext(m, p, i, j);
    if BreakEvenDue(m, p, Opened(m, p, i), j, st) {
      TriggerIsTheExtreme(m, p, i, j);
      assert TrailPrice(m, p, i, j + 1) == TrailLevel(m, p, Opened(m, p, i), j);
    }
  }

  lemma BarKeepsStanding(m: Market, p: Params, i: nat, j: nat, st: State)
    requires m.Valid() && Signalled(m, i) && i <= j < |m.c|
    requires st == State(StandingStop(m, p, i, j), BrokeEven(m, p, i, j))
    requires Bar(m, p, Opened(m, p, i), j, st).Carry?
    ensures Bar(m, p, Opened(m, p, i), j, st).st == State(StandingStop(m, p, i, j + 1), BrokeEven(m, p, i, j + 1))
  {
    BarKeepsMoved(m, p, i, j, st);
    if On(p.trailAtr) {
      TrailedBarKeepsStop(m, p, i, j, st);
    } else {
      UntrailedBarKeepsStop(m, p, i, j, st);
    }
  }

  lemma OpensStanding(m: Market, p: Params, i: nat)
    requires m.Valid() && Signalled(m, i)
    ensures Initial(p, Opened(m, p, i)) == State(StandingStop(m, p, i, i), BrokeEven(m, p, i, i))
  {
    assert !BrokeEven(m, p, i, i) && !Trails(p, i, i);
    if p.slAtr.Some? {
      assert StopPrice(m, i, p.slAtr.value) == StopLevel(m.Long(i), m.o[i], m.Unit(i), p.slAtr.value);
    }
  }

  /** The state the walk carries is the state-free one. */
  lemma {:induction false} StateIsStanding(m: Market, p: Params, i: nat, j: nat)
    requires m.Valid() && Signalled(m, i) && i <= j <= |m.c|
    requires StateAt(m, p, Opened(m, p, i), j).Some?
    ensures StateAt(m, p, Opened(m, p, i), j) == Some(State(StandingStop(m, p, i, j), BrokeEven(m, p, i, j)))
    decreases j
  {
    if j == i {
      OpensStanding(m, p, i);
    } else {
      StateIsStanding(m, p, i, j - 1);
      BarKeepsStanding(m, p, i, j - 1, StateAt(m, p, Opened(m, p, i), j - 1).value);
    }
  }

  /** None of the four exits is met by bar u. */
  ghost predicate Uneventful(m: Market, p: Params, i: nat, u: nat)
    requires m.Valid() && Signalled(m, i) && i <= u < |m.c|
  {
    !StopMet(m, p, i, u) && !TargetMet(m, p, i, u) && !SpreadMet(m, p, i, u) && !TimeMet(p, i, u)
  }

  /** A trade that asks for a trail with nothing to trail: no opening stop, and no breakeven on the entry bar. */
  ghost predicate RaisesOn(m: Market, p: Params, i: nat)
    requires m.Valid() && Signalled(m, i)
  {
    && p.maxHold >= 1 && p.slAtr.None? && p.trailAtr.Some? && p.trailAtr.value != 0.0
    && !TargetMet(m, p, i, i) && !BrokeEven(m, p, i, i + 1)
  }

  function LeftOn(t: Trade): int {
    t.entryIdx + t.bars - 1
  }

  /** Everything a trade left at px says is so in the prices: the first bar to meet an exit, the exits in
      the order stop, target, spread, time, and failing them the last bar of the window. */
  ghost predicate LeftAt(m: Market, p: Params, t: Trade, px: real)
    requires m.Valid()
  {
    var i, j := t.entryIdx, LeftOn(t);
    && Signalled(m, i) && i <= j < |m.c| && !RaisesOn(m, p, i)
    && t.gross == Made(m, i, px) && t.net == t.gross - p.spread
    && (forall u | i <= u < j :: Uneventful(m, p, i, u))
    && (if p.maxHold < 1 then t.bars == 1 && t.reason == Timeout else t.bars <= p.maxHold)
    && match t.reason
       case StopLoss => StopMet(m, p, i, j) && StandingStop(m, p, i, j) == Some(px) && !BrokeEven(m, p, i, j)
       case BreakEven => StopMet(m, p, i, j) && StandingStop(m, p, i, j) == Some(px) && BrokeEven(m, p, i, j)
       case TakeProfit => !StopMet(m, p, i, j) && TargetMet(m, p, i, j) && px == TargetPrice(m, i, p.tpAtr.value)
       case Profit => !StopMet(m, p, i, j) && !TargetMet(m, p, i, j) && SpreadMet(m, p, i, j)
                      && px == CoverPrice(m, p, i)
       case Time => !StopMet(m, p, i, j) && !TargetMet(m, p, i, j) && !SpreadMet(m, p, i, j) && TimeMet(p, i, j)
                    && px == m.c[j]
       case Timeout => px == m.c[j] && (p.maxHold >= 1 ==>
                         Uneventful(m, p, i, j) && (j + 1 == |m.c| || t.bars == p.maxHold))
  }

  ghost predicate IsBooked(m: Market, p: Params, t: Trade)
    requires m.Valid()
  {
    exists px :: LeftAt(m, p, t, px)
  }

  /** A bar in its state-free terms. */
  lemma BarIsStateFree(m: Market, p: Params, i: nat, j: nat)
    requires m.Valid() && Signalled(m, i) && i <= j < |m.c|
    ensures var st := State(StandingStop(m, p, i, j), BrokeEven(m, p, i, j));
      var out := Bar(m, p, Opened(m, p, i), j, st);
      && (StopMet(m, p, i, j) ==> out == Exit(st.stop.value, if st.movedToBe then BreakEven else StopLoss))
      && (!StopMet(m, p, i, j) && TargetMet(m, p, i, j) ==> out == Exit(TargetPrice(m, i, p.tpAtr.value), TakeProfit))
      && (!StopMet(m, p, i, j) && !TargetMet(m, p, i, j) && SpreadMet(m, p, i, j) ==>
            out == Exit(CoverPrice(m, p, i), Profit))
      && (!StopMet(m, p, i, j) && !TargetMet(m, p, i, j) && !SpreadMet(m, p, i, j) ==>
            if TimeMet(p, i, j) then out == Exit(m.c[j], Time) || out == TypeError
            else out.Carry? || out == TypeError)
  {
  }

  lemma ClosedBarsAre(m: Market, p: Params, i: nat)
    requires m.Valid() && Signalled(m, i) && p.maxHold >= 1 && CloseOf(m, p, i).Close?
    ensures var close := CloseOf(m, p, i);
      && (forall u | i <= u < close.bar :: Uneventful(m, p, i, u))
  {
    var close := CloseOf(m, p, i);
    forall u | i <= u < close.bar ensures Uneventful(m, p, i, u) {
      RunCarriesStates(m, p, i, u + 1);
      StateIsStanding(m, p, i, u);
      BarIsStateFree(m, p, i, u);
    }
  }

  lemma EntryBarRaisesIff(m: Market, p: Params, i: nat)
    requires m.Valid() && Signalled(m, i) && p.maxHold >= 1
    ensures Bar(m, p, Opened(m, p, i), i, Initial(p, Opened(m, p, i))) == TypeError <==> RaisesOn(m, p, i)
  {
    BreaksEvenNext(m, p, i, i);
    assert BreakEvenDue(m, p, Opened(m, p, i), i, Initial(p, Opened(m, p, i))) <==> BrokeEven(m, p, i, i + 1);
  }

  /** Exactly when one position raises. */
  lemma RaisesIff(m: Market, p: Params, i: nat)
    requires m.Valid() && Signalled(m, i)
    ensures CloseOf(m, p, i).Raised? <==> RaisesOn(m, p, i)
  {
    if p.maxHold >= 1 {
      var pos, end := Opened(m, p, i), HoldEnd(|m.c|, i, p.maxHold);
      var out := Bar(m, p, pos, i, Initial(p, pos));
      EntryBarRaisesIff(m, p, i);
      if p.slAtr.Some? || !On(p.trailAtr) {
        WalkCloses(m, p, pos, i, end, Initial(p, pos));
      } else if out.Carry? {
        WalkCloses(m, p, pos, i + 1, end, out.st);
      }
    }
  }

  lemma TradeIsBooked(m: Market, p: Params, i: nat)
    requires m.Valid() && Signalled(m, i) && CloseOf(m, p, i).Close?
    ensures var t := TradeOf(m, p, i);
      IsBooked(m, p, t) && t.entryIdx == i && i <= LeftOn(t) == CloseOf(m, p, i).bar
  {
    var close := CloseOf(m, p, i);
    RaisesIff(m, p, i);
    if p.maxHold >= 1 {
      var j, end := close.bar, HoldEnd(|m.c|, i, p.maxHold);
      ClosedBarsAre(m, p, i);
      RunCarriesStates(m, p, i, j);
      StateIsStanding(m, p, i, j);
      BarIsStateFree(m, p, i, j);
      var out := Bar(m, p, Opened(m, p, i), j, StateAt(m, p, Opened(m, p, i), j).value);
      assert out.Exit? ==> close == Close(j, out.px, out.reason);
      assert out.Carry? ==> close == Close(end - 1, m.c[end - 1], Timeout);
    }
    assert LeftAt(m, p, TradeOf(m, p, i), close.px);
  }

  function SpansOf(ts: seq<Trade>): (spans: seq<Span>)
    ensures |spans| == |ts| && forall k | 0 <= k < |ts| :: spans[k] == Span(ts[k].entryIdx, LeftOn(ts[k]))
  {
    seq(|ts|, k requires 0 <= k < |ts| => Span(ts[k].entryIdx, LeftOn(ts[k])))
  }

  ghost predicate AreBooked(m: Market, p: Params, ts: seq<Trade>)
    requires m.Valid()
  {
    forall t | t in ts :: IsBooked(m, p, t)
  }

  /** Booked as the prices say, from bar i on, with the calendar filled. */
  ghost predicate IsRun(m: Market, p: Params, i: nat, ts: seq<Trade>)
    requires m.Valid()
  {
    AreBooked(m, p, ts) && Fill(m, i, SpansOf(ts))
  }

  lemma SpansOneMore(t: Trade, rest: seq<Trade>)
    ensures SpansOf([t] + rest) == [Span(t.entryIdx, LeftOn(t))] + SpansOf(rest)
  {
  }

  lemma OneMoreTrade(m: Market, p: Params, t: Trade, rest: seq<Trade>)
    requires m.Valid() && IsBooked(m, p, t) && t.entryIdx <= LeftOn(t) && Signalled(m, t.entryIdx)
    requires IsRun(m, p, LeftOn(t) + 1, rest)
    ensures IsRun(m, p, t.entryIdx, [t] + rest)
  {
    assert AreBooked(m, p, [t] + rest);
    SpansOneMore(t, rest);
    FillOneMore(m, Span(t.entryIdx, LeftOn(t)), SpansOf(rest));
  }

  /** A run that returns is booked as the prices say, fills the calendar and never overlaps. */
  lemma {:induction false} RunIsOnPrices(m: Market, p: Params, i: nat)
    requires m.Valid() && 60 <= i && RunFrom(m, p, i).Some?
    ensures IsRun(m, p, i, RunFrom(m, p, i).value)
    decreases |m.c| - i
  {
    if i + 1 >= |m.c| {
      assert Fill(m, i, []);
    } else if m.Takeable(i) {
      TradeIsBooked(m, p, i);
      RunIsOnPrices(m, p, CloseOf(m, p, i).bar + 1);
      OneMoreTrade(m, p, TradeOf(m, p, i), RunFrom(m, p, CloseOf(m, p, i).bar + 1).value);
    } else {
      RunIsOnPrices(m, p, i + 1);
      FillSkips(m, i, SpansOf(RunFrom(m, p, i + 1).value));
    }
  }

  lemma NotLaterThan(m: Market, p: Params, t: Trade, px: real, t': Trade, px': real)
    requires m.Valid() && LeftAt(m, p, t, px) && LeftAt(m, p, t', px') && t.entryIdx == t'.entryIdx
    ensures LeftOn(t') <= LeftOn(t)
  {
    assert LeftOn(t) < LeftOn(t') ==> Uneventful(m, p, t.entryIdx, LeftOn(t));
  }

  /** Two booked trades entered on one bar are one trade. */
  lemma BookedOnce(m: Market, p: Params, t: Trade, t': Trade)
    requires m.Valid() && IsBooked(m, p, t) && IsBooked(m, p, t') && t.entryIdx == t'.entryIdx
    ensures t == t'
  {
    var px :| LeftAt(m, p, t, px);
    var px' :| LeftAt(m, p, t', px');
    NotLaterThan(m, p, t, px, t', px');
    NotLaterThan(m, p, t', px', t, px);
  }

  lemma FirstTradeIs(m: Market, p: Params, i: nat, ts: seq<Trade>)
    requires m.Valid() && Signalled(m, i) && IsRun(m, p, i, ts)
    ensures CloseOf(m, p, i).Close? && ts != [] && ts[0] == TradeOf(m, p, i)
    ensures IsRun(m, p, CloseOf(m, p, i).bar + 1, ts[1..])
  {
    var spans := SpansOf(ts);
    FirstSpanIsFirst(m, i, spans, i);
    assert spans[0] in spans && ts[0] in ts;
    var px :| LeftAt(m, p, ts[0], px);
    RaisesIff(m, p, i);
    TradeIsBooked(m, p, i);
    BookedOnce(m, p, ts[0], TradeOf(m, p, i));
    assert ts == [ts[0]] + ts[1..];
    SpansOneMore(ts[0], ts[1..]);
    FillTail(m, i, Span(i, LeftOn(ts[0])), SpansOf(ts[1..]));
    assert forall t | t in ts[1..] :: t in ts;
  }

  lemma RunPrepends(m: Market, p: Params, i: nat, ts: seq<Trade>)
    requires m.Valid() && Signalled(m, i) && CloseOf(m, p, i).Close? && ts != [] && ts[0] == TradeOf(m, p, i)
    requires RunFrom(m, p, CloseOf(m, p, i).bar + 1) == Some(ts[1..])
    ensures RunFrom(m, p, i) == Some(ts)
  {
    assert ts == [ts[0]] + ts[1..];
  }

  lemma NothingToEnter(m: Market, p: Params, i: nat, ts: seq<Trade>)
    requires m.Valid() && 60 <= i && !Signalled(m, i) && IsRun(m, p, i, ts)
    ensures i + 1 < |m.c| ==> IsRun(m, p, i + 1, ts) && RunFrom(m, p, i) == RunFrom(m, p, i + 1)
    ensures i + 1 >= |m.c| ==> ts == [] && RunFrom(m, p, i) == Some([])
  {
    if i + 1 < |m.c| {
      FillStepsOver(m, i, SpansOf(ts));
    } else {
      FillEnds(m, i, SpansOf(ts));
    }
  }

  /** The prices leave no choice: the run is the only list of trades booked as they say that fills the calendar. */
  lemma {:induction false} OnlyRun(m: Market, p: Params, i: nat, ts: seq<Trade>)
    requires m.Valid() && 60 <= i && IsRun(m, p, i, ts)
    ensures RunFrom(m, p, i) == Some(ts)
    decreases |m.c| - i
  {
    if Signalled(m, i) {
      FirstTradeIs(m, p, i, ts);
      OnlyRun(m, p, CloseOf(m, p, i).bar + 1, ts[1..]);
      RunPrepends(m, p, i, ts);
    } else {
      NothingToEnter(m, p, i, ts);
      if i + 1 < |m.c| {
        OnlyRun(m, p, i + 1, ts);
      }
    }
  }

  /** The run returns a list of trades exactly when it is the one the prices call for, and raises when they
      call for none. */
  lemma RunIffOnPrices(m: Market, p: Params, ts: seq<Trade>)
    requires m.Valid()
    ensures RunFrom(m, p, FIRST_BAR) == Some(ts) <==> IsRun(m, p, 60, ts)
  {
    if RunFrom(m, p, FIRST_BAR).Some? {
      RunIsOnPrices(m, p, FIRST_BAR);
    }
    if IsRun(m, p, 60, ts) {
      OnlyRun(m, p, FIRST_BAR, ts);
    }
  }

  /** A deadline of k bars is kept to the bar: no trade is held longer, one closed by it is left on the close
      of its k-th bar, and one that ran out of bars first ran out of them all. */
  lemma DeadlineIsKept(m: Market, p: Params, k: int, t: Trade)
    requires m.Valid() && p.holdBars == Some(k) && k >= 1 && p.maxHold >= 1 && IsBooked(m, p, t)
    ensures 1 <= t.bars <= k && t.entryIdx + t.bars <= |m.c|
    ensures t.reason == Time ==> t.bars == k
    ensures t.reason == Timeout ==> t.bars < k && (t.bars == p.maxHold || t.entryIdx + t.bars == |m.c|)
    ensures t.reason == Time || t.reason == Timeout ==>
      t.gross == if m.sig[t.entryIdx - 1] > 0 then m.c[t.entryIdx + t.bars - 1] - m.o[t.entryIdx]
                 else m.o[t.entryIdx] - m.c[t.entryIdx + t.bars - 1]
  {
    var px :| LeftAt(m, p, t, px);
    assert t.bars > 1 ==> Uneventful(m, p, t.entryIdx, LeftOn(t) - 1);
  }
}
