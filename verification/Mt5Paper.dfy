/** The order pass (tools/mt5_paper.py): one cycle over the symbols, each order put to the risk gate
    and sent to a venue that may answer anything, or nothing, and book what it likes within what
    its answer admits. */
module Mt5Paper {
  import opened Prelude
  import opened Retcodes
  import opened RiskGate
  import Ledger
  import PaperHistory

  // ------------------------------------------------------------ the world one symbol meets

  datatype Quote = Quote(bid: real, ask: real)

  /** What `order_send` does: raise, return nothing, or return a result, which may carry no code. */
  datatype Reply = Raises | Silent | Replies(retcode: Option<int>, price: real)

  function CodeOf(a: Reply): Option<int> {
    if a.Replies? then a.retcode else None
  }

  predicate SendFailed(a: Reply) {
    !a.Replies?
  }

  /** Everything the venue and the rule say about one symbol in one pass. The reaches are the bracket's
      multiples of the ATR; `lot` is the sized lot, None when it cannot be sized; `round` is the rounding
      to the symbol's digits and `point` its last digit; `booked` is whether the opening order created a
      position and `shut` whether an escape order took it off again. */
  datatype World = World(symbol: string, bars: Option<nat>, side: Option<bool>, known: bool, quote: Option<Quote>,
                         atr: Option<real>, stopReach: real, targetReach: real, lot: Option<real>,
                         riskAmount: Option<real>, spreadPoints: Option<real>, point: real, round: real -> real,
                         answer: Reply, booked: bool, fix: Option<int>, escape: Reply, shut: bool)
  {
    /** The venue may do anything its answers leave open, to the opening order and to the escape. */
    ghost predicate Honest() {
      var v := Classify(CodeOf(answer), SendFailed(answer), Retcodes.Open);
      var x := Classify(CodeOf(escape), SendFailed(escape), Retcodes.Close);
      && (v.booked == Yes ==> booked) && (v.booked == No ==> !booked)
      && (x.booked == Yes ==> shut) && (x.booked == No ==> !shut)
    }

    /** An ATR is a mean of true ranges, and the reaches are multiples of it. */
    ghost predicate Scaled(s: Settings) {
      atr.Some? ==> atr.value >= 0.0 && stopReach == s.slAtr * atr.value && targetReach == s.tpAtr * atr.value
    }
  }

  datatype Settings = Settings(lot: real, slAtr: real, tpAtr: real, live: bool, sized: bool)

  // ------------------------------------------------------------ one order

  datatype Status =
    | SymbolUnavailable | NoQuote | NoAtr | Unsized | RiskHalt | RiskVeto | DryRun
    | Sent | SendUnknown | Rejected
    | SkippedMaxPositions | SkippedOpen | NoHistory | NoSignal | SkippedLosses

  /** What became of an inverted bracket: moved to the fill (or found already there), or the position
      closed, or the close not confirmed either, with the code it was answered with. */
  datatype Repair = NotNeeded | Repaired(moot: bool) | Escaped | Stranded(code: Option<int>)

  datatype Action = Action(symbol: string, status: Status, code: Option<int>, fill: Option<real>, sl: real, tp: real,
                           repair: Repair)

  function Plain(symbol: string, status: Status): Action {
    Action(symbol, status, None, None, 0.0, 0.0, NotNeeded)
  }

  /** An `order_send` for an opening order took place. */
  predicate OpeningSend(a: Action) {
    a.status == Sent || a.status == SendUnknown || a.status == Rejected
  }

  predicate Counts(a: Action) {
    a.status == Sent || a.status == DryRun
  }

  predicate BracketIsSane(isBuy: bool, fill: real, sl: real, tp: real) {
    if isBuy then sl < fill < tp else tp < fill < sl
  }

  function StopAt(isBuy: bool, px: real, distance: real): real {
    if isBuy then px - distance else px + distance
  }

  function TargetAt(isBuy: bool, px: real, distance: real): real {
    if isBuy then px + distance else px - distance
  }

  predicate Bracketed(s: Settings) {
    s.slAtr > 0.0 && s.tpAtr > 0.0
  }

  function EntryPrice(q: Quote, isBuy: bool): real {
    if isBuy then q.ask else q.bid
  }

  predicate Tradable(w: World) {
    w.quote.Some? && w.quote.value.ask > 0.0 && w.quote.value.bid > 0.0
  }

  /** The order as it will be sent: the sized lot, the quote, the bracket. Zero levels are none. */
  function Order(w: World, isBuy: bool, s: Settings): Proposal
    requires Tradable(w) && w.atr.Some? && (s.sized ==> w.lot.Some?)
  {
    var px := EntryPrice(w.quote.value, isBuy);
    var sl := w.round(StopAt(isBuy, px, w.stopReach));
    var tp := w.round(TargetAt(isBuy, px, w.targetReach));
    Proposal(w.symbol, isBuy, if s.sized then w.lot.value else s.lot, px,
             if Bracketed(s) && sl != 0.0 then Some(sl) else None,
             if Bracketed(s) && tp != 0.0 then Some(tp) else None,
             if s.sized then w.riskAmount else None, w.spreadPoints)
  }

  /** The status a send is logged under. */
  function SendStatus(a: Reply): Status {
    if CodeOf(a) == Some(DONE) then Sent else if SendFailed(a) then SendUnknown else Rejected
  }

  /** A filled order whose bracket is on the wrong side of the fill is re-anchored to it; failing that
      the position is closed, and the record says whether the venue did it. */
  function SendAndRepair(w: World, isBuy: bool, s: Settings): Action
    requires Tradable(w) && w.atr.Some?
  {
    var px := EntryPrice(w.quote.value, isBuy);
    var sl := if Bracketed(s) then w.round(StopAt(isBuy, px, w.stopReach)) else 0.0;
    var tp := if Bracketed(s) then w.round(TargetAt(isBuy, px, w.targetReach)) else 0.0;
    var status := SendStatus(w.answer);
    var fill := if status == Sent && w.answer.price != 0.0 then Some(w.answer.price) else None;
    var sent := Action(w.symbol, status, CodeOf(w.answer), fill, sl, tp, NotNeeded);
    if fill.None? || !Bracketed(s) || BracketIsSane(isBuy, fill.value, sl, tp) then sent
    else
      var verdict := Classify(w.fix, false, Modify);
      if verdict.cls == Retcodes.Done || verdict.cls == Moot then
        sent.(sl := w.round(StopAt(isBuy, fill.value, w.stopReach)),
              tp := w.round(TargetAt(isBuy, fill.value, w.targetReach)), repair := Repaired(verdict.cls == Moot))
      else sent.(repair := if CodeOf(w.escape) == Some(DONE) then Escaped else Stranded(CodeOf(w.escape)))
  }

  /** One opening order, or the reason there is none. */
  function Placed(w: World, isBuy: bool, s: Settings, engine: Option<Engine>, portfolio: Portfolio): Action {
    if !w.known then Plain(w.symbol, SymbolUnavailable)
    else if !Tradable(w) then Plain(w.symbol, NoQuote)
    else if w.atr.None? || w.atr.value == 0.0 then Plain(w.symbol, NoAtr)
    else if s.sized && w.lot.None? then Plain(w.symbol, Unsized)
    else
      var decision := Rule(engine, portfolio, Order(w, isBuy, s));
      if !decision.approved then Plain(w.symbol, if decision.halt then RiskHalt else RiskVeto)
      else if !s.live then Plain(w.symbol, DryRun)
      else SendAndRepair(w, isBuy, s)
  }

  /** An opening order goes out exactly when the symbol trades, the ATR and the size can be had, the run is
      live and the gate's engine approves this very order shown this book; it is then logged under what the
      venue answered. A dry run stops one step short of that and nowhere else. */
  lemma OrderGoesOutIff(w: World, isBuy: bool, s: Settings, engine: Option<Engine>, portfolio: Portfolio)
    ensures var a := Placed(w, isBuy, s, engine, portfolio);
      var ready := && w.known && Tradable(w) && w.atr.Some? && w.atr.value != 0.0 && (s.sized ==> w.lot.Some?)
                   && engine.Some? && engine.value(portfolio, Order(w, isBuy, s)) == Approve;
      && (OpeningSend(a) <==> ready && s.live)
      && (a.status == DryRun <==> ready && !s.live)
      && (a.status == Sent <==> ready && s.live && CodeOf(w.answer) == Some(DONE))
      && (a.status == SendUnknown <==> ready && s.live && SendFailed(w.answer))
      && (OpeningSend(a) ==> a.code == CodeOf(w.answer) && a.symbol == w.symbol)
  {
  }

  method Place(w: World, isBuy: bool, s: Settings, gate: Gate) returns (action: Action)
    ensures action == Placed(w, isBuy, s, gate.engine, gate.Seen())
  {
    if !w.known {
      return Plain(w.symbol, SymbolUnavailable);
    }
    if !Tradable(w) {
      return Plain(w.symbol, NoQuote);
    }
    if w.atr.None? || w.atr.value == 0.0 {
      return Plain(w.symbol, NoAtr);
    }
    if s.sized && w.lot.None? {
      return Plain(w.symbol, Unsized);
    }
    var decision := gate.Open(Order(w, isBuy, s));
    if !decision.approved {
      return Plain(w.symbol, if decision.halt then RiskHalt else RiskVeto);
    }
    if !s.live {
      return Plain(w.symbol, DryRun);
    }
    action := SendAndRepair(w, isBuy, s);
  }

  // ------------------------------------------------------------ one pass over the symbols

  /** What is fixed for a pass: the book at its start, the caps, and the world behind each symbol. */
  datatype Pass = Pass(openNow: seq<string>, maxPositions: int, settings: Settings, engine: Option<Engine>,
                       realised: real, losses: Option<nat>, worlds: seq<World>)
  {
    ghost predicate Honest() {
      forall k | 0 <= k < |worlds| :: worlds[k].Honest()
    }
  }

  function CountIf(p: Action -> bool, actions: seq<Action>): nat {
    if actions == [] then 0 else CountIf(p, actions[..|actions| - 1]) + if p(actions[|actions| - 1]) then 1 else 0
  }

  predicate IsSent(a: Action) {
    a.status == Sent
  }

  function SentSymbols(actions: seq<Action>): seq<string> {
    if actions == [] then []
    else
      var before, a := SentSymbols(actions[..|actions| - 1]), actions[|actions| - 1];
      if IsSent(a) then before + [a.symbol] else before
  }

  /** What the gate shows the engine after these actions: the book at the start plus what was sent. */
  function Shown(e: Pass, actions: seq<Action>): Portfolio {
    Portfolio(Some(|e.openNow| + CountIf(IsSent, actions)), e.openNow + SentSymbols(actions),
              Some(e.realised), e.losses)
  }

  predicate Full(e: Pass, actions: seq<Action>) {
    |e.openNow| + CountIf(Counts, actions) >= e.maxPositions
  }

  /** What the pass does with a symbol, given what it has done so far. */
  function Next(e: Pass, actions: seq<Action>, w: World): Action {
    if Full(e, actions) then Plain(w.symbol, SkippedMaxPositions)
    else if w.symbol in e.openNow then Plain(w.symbol, SkippedOpen)
    else if w.bars.None? || w.bars.value < 60 then Plain(w.symbol, NoHistory)
    else if w.side.None? then Plain(w.symbol, NoSignal)
    else Placed(w, w.side.value, e.settings, e.engine, Shown(e, actions))
  }

  type Step = (seq<Action>, World) -> Action

  function StepOf(e: Pass): Step {
    (actions, w) => Next(e, actions, w)
  }

  predicate Halted(actions: seq<Action>) {
    actions != [] && actions[|actions| - 1].status == RiskHalt
  }

  /** The actions over the symbols in turn; a halt ends the pass. */
  function Actions(step: Step, worlds: seq<World>): seq<Action> {
    if worlds == [] then []
    else
      var before := Actions(step, worlds[..|worlds| - 1]);
      if Halted(before) then before else before + [step(before, worlds[|worlds| - 1])]
  }

  datatype Outcome = Outcome(halted: bool, paused: bool, actions: seq<Action>)

  predicate LossLimitHit(e: Pass, maxDailyLoss: real) {
    e.realised <= -Abs(maxDailyLoss)
  }

  predicate Paused(e: Pass, lossCap: nat) {
    lossCap > 0 && e.losses.Some? && e.losses.value >= lossCap
  }

  function SkippedForLosses(worlds: seq<World>): (r: seq<Action>)
    ensures |r| == |worlds| && forall k | 0 <= k < |r| :: r[k] == Plain(worlds[k].symbol, SkippedLosses)
  {
    seq(|worlds|, k requires 0 <= k < |worlds| => Plain(worlds[k].symbol, SkippedLosses))
  }

  /** The whole pass. The streak is counted, and so passed in as Some, only when the cap is on. */
  function Cycled(e: Pass, maxDailyLoss: real, lossCap: nat): Outcome {
    if LossLimitHit(e, maxDailyLoss) then Outcome(true, false, [])
    else if Paused(e, lossCap) then Outcome(false, true, SkippedForLosses(e.worlds))
    else
      var actions := Actions(StepOf(e), e.worlds);
      Outcome(Halted(actions), false, actions)
  }

  // ------------------------------------------------------------ a pass, step by step

  /** It stops early only at a halt. */
  lemma {:induction false} ActionsEndAtAHalt(step: Step, worlds: seq<World>)
    ensures var actions := Actions(step, worlds);
      && |actions| <= |worlds|
      && (forall k | 0 <= k < |actions| - 1 :: actions[k].status != RiskHalt)
      && (Halted(actions) || |actions| == |worlds|)
  {
    if worlds != [] {
      ActionsEndAtAHalt(step, worlds[..|worlds| - 1]);
    }
  }

  /** A list of actions that took the symbols in order, one step each. */
  ghost predicate AreSteps(step: Step, worlds: seq<World>, actions: seq<Action>) {
    |actions| <= |worlds| && forall k | 0 <= k < |actions| :: actions[k] == step(actions[..k], worlds[k])
  }

  lemma OneMoreStep(step: Step, worlds: seq<World>, before: seq<Action>, a: Action)
    requires |before| < |worlds| && AreSteps(step, worlds, before) && a == step(before, worlds[|before|])
    ensures AreSteps(step, worlds, before + [a])
  {
    forall k | 0 <= k < |before + [a]| ensures (before + [a])[k] == step((before + [a])[..k], worlds[k]) {
      assert (before + [a])[..k] == before[..k];
      assert before[..|before|] == before;
    }
  }

  lemma {:induction false} ActionsAreSteps(step: Step, worlds: seq<World>)
    ensures AreSteps(step, worlds, Actions(step, worlds))
  {
    if worlds != [] {
      var front := worlds[..|worlds| - 1];
      var before := Actions(step, front);
      ActionsAreSteps(step, front);
      ActionsEndAtAHalt(step, front);
      assert AreSteps(step, worlds, before);
      if !Halted(before) {
        OneMoreStep(step, worlds, before, step(before, worlds[|worlds| - 1]));
      }
    }
  }

  /** How many of these actions have the property. */
  ghost function Having(p: Action -> bool, actions: seq<Action>): set<nat> {
    set j: nat | j < |actions| && p(actions[j])
  }

  lemma {:induction false} CountIsASize(p: Action -> bool, actions: seq<Action>)
    ensures CountIf(p, actions) == |Having(p, actions)|
  {
    if actions == [] {
      assert Having(p, actions) == {};
    } else {
      var k := |actions| - 1;
      CountIsASize(p, actions[..k]);
      assert Having(p, actions) == Having(p, actions[..k]) + if p(actions[k]) then {k} else {};
    }
  }

  /** The book an engine is shown after these actions: what was open and, after it, what was sent, in order. */
  ghost predicate IsShown(e: Pass, actions: seq<Action>, book: Portfolio) {
    var sent := Having((a: Action) => a.status == Sent, actions);
    && book.openPositions == Some(|e.openNow| + |sent|) && |book.openSymbols| == |e.openNow| + |sent|
    && e.openNow <= book.openSymbols
    && (forall s :: s in book.openSymbols <==> s in e.openNow || exists j :: j in sent && actions[j].symbol == s)
    && book.realisedToday == Some(e.realised) && book.consecutiveLosses == e.losses
  }

  lemma {:induction false} SentSymbolsAre(actions: seq<Action>)
    ensures |SentSymbols(actions)| == CountIf(IsSent, actions)
    ensures forall s :: s in SentSymbols(actions) <==>
      exists j: nat :: j < |actions| && actions[j].status == Sent && actions[j].symbol == s
  {
    if actions != [] {
      var k := |actions| - 1;
      var before := actions[..k];
      SentSymbolsAre(before);
      forall s
        ensures s in SentSymbols(actions) <==>
          exists j: nat :: j < |actions| && actions[j].status == Sent && actions[j].symbol == s
      {
        assert forall j: nat | j < k :: before[j] == actions[j];
      }
    }
  }

  lemma ShownIsTheBook(e: Pass, actions: seq<Action>)
    ensures IsShown(e, actions, Shown(e, actions))
  {
    CountIsASize(IsSent, actions);
    SentSymbolsAre(actions);
    assert Having(IsSent, actions) == Having((a: Action) => a.status == Sent, actions);
  }

  /** The order a side asks for: bought at the ask or sold at the bid, with a stop that far on the losing side and
      a target on the winning one when both multiples are positive. */
  ghost predicate IsOrder(w: World, buy: bool, s: Settings, o: Proposal)
    requires w.quote.Some? && (s.sized ==> w.lot.Some?)
  {
    var px := if buy then w.quote.value.ask else w.quote.value.bid;
    var sl := if buy then w.round(px - w.stopReach) else w.round(px + w.stopReach);
    var tp := if buy then w.round(px + w.targetReach) else w.round(px - w.targetReach);
    var bracket := s.slAtr > 0.0 && s.tpAtr > 0.0;
    && o.symbol == w.symbol && o.isBuy == buy && o.entryPrice == px && o.spreadPoints == w.spreadPoints
    && o.volume == (if s.sized then w.lot.value else s.lot)
    && o.riskAmount == (if s.sized then w.riskAmount else None)
    && o.stopLoss == (if bracket && sl != 0.0 then Some(sl) else None)
    && o.takeProfit == if bracket && tp != 0.0 then Some(tp) else None
  }

  /** Nothing stands between the symbol and the engine: room under the cap, no position open, sixty bars, a
      signal of either side, a quote, an ATR, and a lot if one is to be sized. */
  ghost predicate ReachesEngine(e: Pass, before: seq<Action>, w: World) {
    && |e.openNow| + |Having((a: Action) => a.status == Sent || a.status == DryRun, before)| < e.maxPositions
    && w.symbol !in e.openNow && w.bars.Some? && w.bars.value >= 60 && w.side.Some?
    && w.known && w.quote.Some? && w.quote.value.ask > 0.0 && w.quote.value.bid > 0.0
    && w.atr.Some? && w.atr.value != 0.0 && (e.settings.sized ==> w.lot.Some?)
  }

  /** What the engine says of the symbol's own order, shown the book as it stands; without an engine, no. */
  ghost predicate EngineSays(e: Pass, before: seq<Action>, w: World, ruling: Ruling)
    requires ReachesEngine(e, before, w)
  {
    exists book, o ::
      && book == Shown(e, before) && IsShown(e, before, book) && IsOrder(w, w.side.value, e.settings, o)
      && e.engine.Some? && e.engine.value(book, o) == ruling
  }

  /** What became of a symbol, and why, whichever side its signal is. */
  ghost predicate IsDecided(e: Pass, before: seq<Action>, w: World, a: Action) {
    var reached := ReachesEngine(e, before, w);
    && a.symbol == w.symbol
    && (OpeningSend(a) <==> reached && EngineSays(e, before, w, Approve) && e.settings.live)
    && (a.status == DryRun <==> reached && EngineSays(e, before, w, Approve) && !e.settings.live)
    && (a.status == RiskHalt <==> reached && EngineSays(e, before, w, Halt))
    && (a.status == RiskVeto <==> reached && !EngineSays(e, before, w, Approve) && !EngineSays(e, before, w, Halt))
    && (a.status == Sent ==> w.answer.Replies? && w.answer.retcode == Some(10009))
    && (a.status == SendUnknown ==> !w.answer.Replies?)
    && (a.status == Rejected ==> w.answer.Replies? && w.answer.retcode != Some(10009))
    && (OpeningSend(a) ==> IsRecord(e, w, a))
    && (!reached ==> WhyNot(e, before, w, a.status))
  }

  /** A send's record: the venue's code, its fill, and, unless the bracket was repaired, the levels asked for. */
  ghost predicate IsRecord(e: Pass, w: World, a: Action) {
    && a.code == (if w.answer.Replies? then w.answer.retcode else None)
    && a.fill == (if a.status == Sent && w.answer.Replies? && w.answer.price != 0.0 then Some(w.answer.price) else None)
    && (a.repair == NotNeeded && w.side.Some? && w.quote.Some? && (e.settings.sized ==> w.lot.Some?) ==>
          exists o :: IsOrder(w, w.side.value, e.settings, o)
                      && a.sl == (if o.stopLoss.Some? then o.stopLoss.value else 0.0)
                      && a.tp == if o.takeProfit.Some? then o.takeProfit.value else 0.0)
  }

  /** A reason not to reach the engine is only given when it holds. */
  ghost predicate WhyNot(e: Pass, before: seq<Action>, w: World, status: Status) {
    match status
    case SkippedMaxPositions =>
      |e.openNow| + |Having((a: Action) => a.status == Sent || a.status == DryRun, before)| >= e.maxPositions
    case SkippedOpen => w.symbol in e.openNow
    case NoHistory => w.bars.None? || w.bars.value < 60
    case NoSignal => w.side.None?
    case SymbolUnavailable => !w.known
    case NoQuote => w.quote.None? || w.quote.value.ask <= 0.0 || w.quote.value.bid <= 0.0
    case NoAtr => w.atr.None? || w.atr.value == 0.0
    case Unsized => e.settings.sized && w.lot.None?
    case _ => false
  }

  lemma OrderIs(w: World, buy: bool, s: Settings, o: Proposal)
    requires Tradable(w) && w.atr.Some? && (s.sized ==> w.lot.Some?)
    ensures IsOrder(w, buy, s, o) <==> o == Order(w, buy, s)
  {
  }

  lemma EngineRules(e: Pass, before: seq<Action>, w: World, ruling: Ruling)
    requires ReachesEngine(e, before, w)
    ensures EngineSays(e, before, w, ruling)
       <==> e.engine.Some? && e.engine.value(Shown(e, before), Order(w, w.side.value, e.settings)) == ruling
  {
    ShownIsTheBook(e, before);
    OrderIs(w, w.side.value, e.settings, Order(w, w.side.value, e.settings));
    if e.engine.Some? && e.engine.value(Shown(e, before), Order(w, w.side.value, e.settings)) == ruling {
      assert IsOrder(w, w.side.value, e.settings, Order(w, w.side.value, e.settings));
    }
    forall o | IsOrder(w, w.side.value, e.settings, o) ensures o == Order(w, w.side.value, e.settings) {
      OrderIs(w, w.side.value, e.settings, o);
    }
  }

  lemma RoomIsCounted(e: Pass, before: seq<Action>)
    ensures Full(e, before) <==>
      |e.openNow| + |Having((a: Action) => a.status == Sent || a.status == DryRun, before)| >= e.maxPositions
  {
    CountIsASize(Counts, before);
    assert Having(Counts, before) == Having((a: Action) => a.status == Sent || a.status == DryRun, before);
  }

  /** Short of the engine. */
  lemma TurnedAway(e: Pass, before: seq<Action>, w: World)
    requires !ReachesEngine(e, before, w)
    ensures var a := Next(e, before, w); a == Plain(w.symbol, a.status) && WhyNot(e, before, w, a.status)
  {
    RoomIsCounted(e, before);
  }

  lemma PutToEngine(e: Pass, before: seq<Action>, w: World)
    requires ReachesEngine(e, before, w)
    ensures Next(e, before, w) == Placed(w, w.side.value, e.settings, e.engine, Shown(e, before))
  {
    RoomIsCounted(e, before);
  }

  lemma NextIsDecided(e: Pass, before: seq<Action>, w: World)
    ensures IsDecided(e, before, w, Next(e, before, w))
  {
    if ReachesEngine(e, before, w) {
      PutToEngine(e, before, w);
      EngineRules(e, before, w, Approve);
      EngineRules(e, before, w, Halt);
      SendIsRecorded(e, w);
    } else {
      TurnedAway(e, before, w);
    }
  }

  lemma SendIsRecorded(e: Pass, w: World)
    requires w.side.Some? && Tradable(w) && w.atr.Some? && (e.settings.sized ==> w.lot.Some?)
    ensures IsRecord(e, w, SendAndRepair(w, w.side.value, e.settings))
  {
    OrderIs(w, w.side.value, e.settings, Order(w, w.side.value, e.settings));
  }

  /** A pass in full: stopped by the loss limit, paused by the streak, or every symbol decided in turn up to the
      end of the list or the first halt. */
  ghost predicate IsPass(e: Pass, maxDailyLoss: real, lossCap: nat, o: Outcome) {
    var limit := if maxDailyLoss < 0.0 then maxDailyLoss else -maxDailyLoss;
    if e.realised <= limit then o == Outcome(true, false, [])
    else if lossCap > 0 && e.losses.Some? && e.losses.value >= lossCap then
      !o.halted && o.paused && |o.actions| == |e.worlds|
      && forall k | 0 <= k < |o.actions| :: o.actions[k] == Plain(e.worlds[k].symbol, SkippedLosses)
    else
      && !o.paused && |o.actions| <= |e.worlds|
      && (o.halted <==> o.actions != [] && o.actions[|o.actions| - 1].status == RiskHalt)
      && (!o.halted ==> |o.actions| == |e.worlds|)
      && (forall k | 0 <= k < |o.actions| - 1 :: o.actions[k].status != RiskHalt)
      && forall k | 0 <= k < |o.actions| :: IsDecided(e, o.actions[..k], e.worlds[k], o.actions[k])
  }

  lemma CycledIsPass(e: Pass, maxDailyLoss: real, lossCap: nat)
    ensures IsPass(e, maxDailyLoss, lossCap, Cycled(e, maxDailyLoss, lossCap))
  {
    var o := Cycled(e, maxDailyLoss, lossCap);
    if !LossLimitHit(e, maxDailyLoss) && !Paused(e, lossCap) {
      ActionsEndAtAHalt(StepOf(e), e.worlds);
      ActionsAreSteps(StepOf(e), e.worlds);
      forall k | 0 <= k < |o.actions| ensures IsDecided(e, o.actions[..k], e.worlds[k], o.actions[k]) {
        NextIsDecided(e, o.actions[..k], e.worlds[k]);
      }
    }
  }

  /** What a cycle reads from the venue before it does anything; None is a query left unanswered. */
  datatype Readings = Readings(positions: Option<seq<string>>, today: Option<seq<Ledger.Deal>>,
                               closed: Option<seq<Ledger.Deal>>)

  datatype Session = Session(settings: Settings, engine: Option<Engine>, maxPositions: int, maxDailyLoss: real,
                             lossCap: nat)

  /** The pass these readings make: the whole book, today's realised profit, and the losing streak when
      the cap is on. */
  ghost predicate PassFrom(r: Readings, s: Session, worlds: seq<World>, e: Pass) {
    && r.positions == Some(e.openNow) && r.today.Some?
    && e.realised == PaperHistory.BookedBy(r.today.value, 770315)
    && e.settings == s.settings && e.engine == s.engine && e.maxPositions == s.maxPositions && e.worlds == worlds
    && (!LossLimitHit(e, s.maxDailyLoss) ==>
          if s.lossCap == 0 then e.losses.None?
          else e.losses.Some? && r.closed.Some? && CountsStreak(r.closed.value, e.losses.value))
  }

  /** n losses end what these deals closed under the tool's number, oldest first. */
  ghost predicate CountsStreak(deals: seq<Ledger.Deal>, n: nat) {
    exists order: seq<int> ::
      PaperHistory.OldestFirst(deals, 770315, order)
      && PaperHistory.IsStreak(PaperHistory.BookedOver(deals, 770315, order), n)
  }

  /** Anything needed and unreadable raises before the gate is told or an order considered. The closed
      history is needed only when the loss limit stands and the streak cap is on. */
  method Cycle(r: Readings, s: Session, worlds: seq<World>, gate: Gate)
    returns (outcome: PaperHistory.Answer<Outcome>, ghost e: Pass)
    requires gate.engine == s.engine
    modifies gate
    ensures outcome.Unreadable? ==> gate.Seen() == old(gate.Seen())
    ensures outcome.Unreadable? <==>
      || r.positions.None? || r.today.None?
      || (s.lossCap > 0 && r.closed.None?
          && PaperHistory.BookedBy(r.today.value, 770315) > -Abs(s.maxDailyLoss))
    ensures outcome.Readable? ==>
      && PassFrom(r, s, worlds, e)
      && outcome.value == Cycled(e, s.maxDailyLoss, s.lossCap)
      && IsPass(e, s.maxDailyLoss, s.lossCap, outcome.value)
      && (!LossLimitHit(e, s.maxDailyLoss) ==> gate.Seen() == Shown(e, outcome.value.actions))
  {
    e := Pass([], 0, s.settings, s.engine, 0.0, None, []);
    if r.positions.None? {
      return PaperHistory.Unreadable, e;
    }
    var pnl := PaperHistory.RealisedToday(r.today);
    if r.today.Some? {
      PaperHistory.BookedByIsTagged(r.today.value, PaperHistory.MAGIC);
    }
    if pnl.Unreadable? {
      return PaperHistory.Unreadable, e;
    }
    var losses: Option<nat> := None;
    if s.lossCap > 0 && pnl.value > -Abs(s.maxDailyLoss) {
      var outcomes, order := PaperHistory.ClosedOutcomes(r.closed, PaperHistory.MAGIC);
      if outcomes.Unreadable? {
        return PaperHistory.Unreadable, e;
      }
      var streak := PaperHistory.ConsecutiveLosses(outcomes.value);
      losses := Some(streak);
    }
    var pass := Pass(r.positions.value, s.maxPositions, s.settings, s.engine, pnl.value, losses, worlds);
    var done := RunPass(pass, s.maxDailyLoss, s.lossCap, gate);
    CycledIsPass(pass, s.maxDailyLoss, s.lossCap);
    return PaperHistory.Readable(done), pass;
  }

  /** The pass once everything has been read. */
  method RunPass(e: Pass, maxDailyLoss: real, lossCap: nat, gate: Gate) returns (outcome: Outcome)
    requires gate.engine == e.engine
    modifies gate
    ensures outcome == Cycled(e, maxDailyLoss, lossCap)
    ensures !LossLimitHit(e, maxDailyLoss) ==> gate.Seen() == Shown(e, outcome.actions)
  {
    if e.realised <= -Abs(maxDailyLoss) {
      return Outcome(true, false, []);
    }
    gate.Observe(Some(e.openNow), Some(e.realised), e.losses);
    assert e.openNow + [] == e.openNow;
    if lossCap > 0 && e.losses.Some? && e.losses.value >= lossCap {
      NothingSentShowsNothing(e, SkippedForLosses(e.worlds));
      return Outcome(false, true, SkippedForLosses(e.worlds));
    }
    var actions, halted := Walk(e, StepOf(e), gate);
    return Outcome(halted, false, actions);
  }

  /** The loop over the symbols. */
  method Walk(e: Pass, ghost step: Step, gate: Gate) returns (actions: seq<Action>, halted: bool)
    requires gate.engine == e.engine && gate.Seen() == Shown(e, []) && Follows(step, e)
    modifies gate
    ensures actions == Actions(step, e.worlds) && halted == Halted(actions) && gate.Seen() == Shown(e, actions)
  {
    actions := [];
    for k := 0 to |e.worlds|
      invariant actions == Actions(step, e.worlds[..k]) && !Halted(actions)
      invariant gate.Seen() == Shown(e, actions)
    {
      var action := Visit(e, step, actions, e.worlds[k], gate);
      ActionsNext(step, e.worlds, k);
      actions := actions + [action];
      if action.status == RiskHalt {
        HaltStands(step, e.worlds, k + 1);
        return actions, true;
      }
    }
    assert e.worlds[..|e.worlds|] == e.worlds;
    return actions, false;
  }

  ghost predicate Follows(step: Step, e: Pass) {
    step == StepOf(e)
  }

  /** One symbol. An order that was sent counts in the gate's book at once. */
  method Visit(e: Pass, ghost step: Step, actions: seq<Action>, w: World, gate: Gate) returns (action: Action)
    requires gate.engine == e.engine && gate.Seen() == Shown(e, actions) && Follows(step, e)
    modifies gate
    ensures action == step(actions, w)
    ensures gate.Seen() == Shown(e, actions + [action])
  {
    action := Propose(e, step, actions, w, gate);
    ShownNext(e, actions, action);
    if action.status == Sent {
      gate.RecordSent(action.symbol);
    }
  }

  /** Cap, open book, history, signal, and then the order. */
  method Propose(e: Pass, ghost step: Step, actions: seq<Action>, w: World, gate: Gate) returns (action: Action)
    requires gate.engine == e.engine && gate.Seen() == Shown(e, actions) && Follows(step, e)
    ensures action == step(actions, w)
  {
    if |e.openNow| + CountIf(Counts, actions) >= e.maxPositions {
      action := Plain(w.symbol, SkippedMaxPositions);
    } else if w.symbol in e.openNow {
      action := Plain(w.symbol, SkippedOpen);
    } else if w.bars.None? || w.bars.value < 60 {
      action := Plain(w.symbol, NoHistory);
    } else if w.side.None? {
      action := Plain(w.symbol, NoSignal);
    } else {
      action := Place(w, w.side.value, e.settings, gate);
    }
  }

  lemma {:induction false} NothingSentShowsNothing(e: Pass, actions: seq<Action>)
    requires forall k | 0 <= k < |actions| :: actions[k].status == SkippedLosses
    ensures Shown(e, actions) == Shown(e, [])
  {
    if actions != [] {
      NothingSentShowsNothing(e, actions[..|actions| - 1]);
    }
  }

  lemma ShownNext(e: Pass, actions: seq<Action>, a: Action)
    ensures Shown(e, actions + [a]) == if IsSent(a)
      then Portfolio(Some(Shown(e, actions).openPositions.value + 1), Shown(e, actions).openSymbols + [a.symbol],
                     Some(e.realised), e.losses)
      else Shown(e, actions)
  {
  }

  lemma ActionsNext(step: Step, worlds: seq<World>, k: nat)
    requires k < |worlds|
    ensures var before := Actions(step, worlds[..k]);
      Actions(step, worlds[..k + 1]) == if Halted(before) then before else before + [step(before, worlds[k])]
  {
    assert worlds[..k + 1][..k] == worlds[..k];
  }

  lemma {:induction false} HaltStands(step: Step, worlds: seq<World>, j: nat)
    requires j <= |worlds| && Halted(Actions(step, worlds[..j]))
    ensures Actions(step, worlds) == Actions(step, worlds[..j])
  {
    if j == |worlds| {
      assert worlds[..j] == worlds;
    } else {
      var front := worlds[..|worlds| - 1];
      assert front[..j] == worlds[..j];
      HaltStands(step, front, j);
    }
  }
}
