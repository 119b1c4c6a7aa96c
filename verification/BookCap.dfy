/** What the order pass promises about the book, whatever the venue answers and books
    (tools/mt5_paper.py and tools/mt5_retcodes.py read together). */
module BookCap {
  import opened Prelude
  import opened Retcodes
  import opened RiskGate
  import opened Mt5Paper
  import Ledger

  // ------------------------------------------------------------ what one step can do

  /** A send that is not recorded as sent, on whose answer nobody can say that nothing was booked. */
  predicate Unaccounted(a: Action) {
    OpeningSend(a) && !IsSent(a) && Classify(a.code, a.status == SendUnknown, Retcodes.Open).booked != No
  }

  /** A send behind which there is, or may be, a position. */
  predicate MayBook(a: Action) {
    IsSent(a) || Unaccounted(a)
  }

  predicate Books(a: Action, w: World) {
    OpeningSend(a) && w.booked
  }

  /** A filled order whose position the escape order closed, on the venue's own word. */
  predicate IsEscaped(a: Action) {
    a.repair == Escaped
  }

  /** An escape order on whose answer nobody can say that the position is still there. */
  predicate Unsettled(a: Action) {
    a.repair.Stranded? && Classify(a.repair.code, false, Retcodes.Close).booked != No
  }

  /** The step leaves a position on the book: the order was booked and no escape took it off again. */
  predicate Leaves(a: Action, w: World) {
    Books(a, w) && !((a.repair.Escaped? || a.repair.Stranded?) && w.shut)
  }

  /** The engine approved exactly this order, shown exactly this book. */
  predicate Approved(e: Pass, actions: seq<Action>, w: World) {
    && w.side.Some? && Tradable(w) && w.atr.Some? && (e.settings.sized ==> w.lot.Some?)
    && e.engine.Some?
    && e.engine.value(Shown(e, actions), Order(w, w.side.value, e.settings)) == Approve
  }

  /** What an honest venue did agrees with what it answered. */
  predicate BooksAsAnswered(a: Action, w: World) {
    && (IsSent(a) ==> w.booked) && (Books(a, w) ==> MayBook(a))
    && (IsEscaped(a) ==> w.shut)
    && (a.repair.Stranded? && w.shut ==> Unsettled(a))
  }

  /** Everything the theorems below need of one step. */
  ghost predicate StepKeeps(e: Pass, actions: seq<Action>, w: World, a: Action) {
    && a.symbol == w.symbol
    && (OpeningSend(a) ==> e.settings.live && w.symbol !in e.openNow && Approved(e, actions, w))
    && (Counts(a) || OpeningSend(a) ==> !Full(e, actions))
    && (a.repair.Escaped? || a.repair.Stranded? ==> IsSent(a))
    && (w.Honest() ==> BooksAsAnswered(a, w))
  }

  /** An approved order and what the venue made of it. */
  predicate GoesOut(e: Pass, actions: seq<Action>, w: World) {
    e.settings.live && !Full(e, actions) && w.symbol !in e.openNow && Approved(e, actions, w)
  }

  /** A step either sends an approved order or sends nothing at all. */
  lemma NextSendsOrNot(e: Pass, actions: seq<Action>, w: World)
    ensures var a := Next(e, actions, w);
      || (GoesOut(e, actions, w) && a == SendAndRepair(w, w.side.value, e.settings))
      || (!OpeningSend(a) && a == Plain(w.symbol, a.status) && (Counts(a) ==> !Full(e, actions)))
  {
  }

  lemma SendKeeps(w: World, isBuy: bool, s: Settings)
    requires Tradable(w) && w.atr.Some?
    ensures var a := SendAndRepair(w, isBuy, s);
      && a.symbol == w.symbol
      && (a.repair.Escaped? || a.repair.Stranded? ==> IsSent(a))
      && (w.Honest() ==> BooksAsAnswered(a, w))
  {
  }

  lemma NextKeeps(e: Pass, actions: seq<Action>, w: World)
    ensures StepKeeps(e, actions, w, Next(e, actions, w))
  {
    NextSendsOrNot(e, actions, w);
    if GoesOut(e, actions, w) {
      SendKeeps(w, w.side.value, e.settings);
    }
  }

  // ------------------------------------------------------------ a pass

  /** The positions a list of actions left on the book behind it. */
  function Created(actions: seq<Action>, worlds: seq<World>): nat
    requires |actions| <= |worlds|
  {
    if actions == [] then 0
    else
      var k := |actions| - 1;
      Created(actions[..k], worlds) + if Leaves(actions[k], worlds[k]) then 1 else 0
  }

  /** A list of actions every one of which is what the pass does next. */
  ghost predicate Kept(e: Pass, actions: seq<Action>) {
    && |actions| <= |e.worlds|
    && forall k | 0 <= k < |actions| :: StepKeeps(e, actions[..k], e.worlds[k], actions[k])
  }

  /** The count of sends stays within the cap (or what was open already), and the positions left lie
      between the sends recorded and those plus the unaccounted, less what the escapes took off. */
  lemma {:induction false} CountsAreBounded(e: Pass, actions: seq<Action>)
    requires Kept(e, actions) && e.Honest()
    ensures CountIf(IsSent, actions) <= CountIf(Counts, actions)
    ensures |e.openNow| + CountIf(Counts, actions) <= Ceiling(|e.openNow|, e.maxPositions)
    ensures Created(actions, e.worlds) + CountIf(IsEscaped, actions)
         <= CountIf(IsSent, actions) + CountIf(Unaccounted, actions)
    ensures CountIf(IsSent, actions)
         <= Created(actions, e.worlds) + CountIf(IsEscaped, actions) + CountIf(Unsettled, actions)
  {
    if actions != [] {
      var k := |actions| - 1;
      var before := actions[..k];
      KeptBefore(e, actions);
      CountsAreBounded(e, before);
      assert StepKeeps(e, before, e.worlds[k], actions[k]);
      assert e.worlds[k].Honest();
    }
  }

  function Done(e: Pass, maxDailyLoss: real, lossCap: nat): (actions: seq<Action>)
    ensures |actions| <= |e.worlds|
  {
    ActionsEndAtAHalt(StepOf(e), e.worlds);
    Cycled(e, maxDailyLoss, lossCap).actions
  }

  lemma DoneIsKept(e: Pass, maxDailyLoss: real, lossCap: nat)
    ensures Kept(e, Done(e, maxDailyLoss, lossCap))
  {
    var actions := Done(e, maxDailyLoss, lossCap);
    ActionsAreSteps(StepOf(e), e.worlds);
    forall k | 0 <= k < |actions| ensures StepKeeps(e, actions[..k], e.worlds[k], actions[k]) {
      if !Paused(e, lossCap) {
        NextKeeps(e, actions[..k], e.worlds[k]);
      }
    }
  }

  function BookAfter(e: Pass, actions: seq<Action>): nat
    requires |actions| <= |e.worlds|
  {
    |e.openNow| + Created(actions, e.worlds)
  }

  function Ceiling(open: nat, maxPositions: int): int {
    if open > maxPositions then open else maxPositions
  }

  /** A pass leaves the book within the cap, or where it was if that was already past the cap, plus at
      most one position for each send nobody can account for, and less one for each escape. The book the
      gate shows overstates the true one by the escapes, short of any unaccounted send and past any
      unsettled escape; with neither, by the escapes exactly. */
  lemma BookIsCapped(e: Pass, maxDailyLoss: real, lossCap: nat)
    requires e.Honest()
    ensures var actions := Done(e, maxDailyLoss, lossCap);
      var book, shown := BookAfter(e, actions), Shown(e, actions).openPositions.value;
      var escaped, adrift := CountIf(IsEscaped, actions), CountIf(Unaccounted, actions);
      && book + escaped <= Ceiling(|e.openNow|, e.maxPositions) + adrift
      && shown - CountIf(Unsettled, actions) <= book + escaped <= shown + adrift
      && (adrift == 0 && CountIf(Unsettled, actions) == 0 ==> shown - book == escaped)
  {
    DoneIsKept(e, maxDailyLoss, lossCap);
    CountsAreBounded(e, Done(e, maxDailyLoss, lossCap));
  }

  /** No order goes out unless the engine, shown the book as it then stood, approved that very order;
      none goes out on a symbol already open, in a dry run, or without an engine. */
  lemma NothingIsSentUnapproved(e: Pass, maxDailyLoss: real, lossCap: nat, k: nat)
    requires k < |Done(e, maxDailyLoss, lossCap)|
    requires OpeningSend(Done(e, maxDailyLoss, lossCap)[k])
    ensures var actions := Done(e, maxDailyLoss, lossCap);
      && e.settings.live && e.worlds[k].symbol !in e.openNow
      && |e.openNow| + CountIf(IsSent, actions[..k]) < e.maxPositions
      && Approved(e, actions[..k], e.worlds[k])
  {
    var actions := Done(e, maxDailyLoss, lossCap);
    DoneIsKept(e, maxDailyLoss, lossCap);
    assert StepKeeps(e, actions[..k], e.worlds[k], actions[k]);
    SentAreCounted(actions[..k]);
  }

  lemma {:induction false} SentAreCounted(actions: seq<Action>)
    ensures CountIf(IsSent, actions) <= CountIf(Counts, actions)
  {
    if actions != [] {
      SentAreCounted(actions[..|actions| - 1]);
    }
  }

  /** A pass stopped by the loss limit or paused by the streak sends nothing. */
  lemma StoppedMeansSilent(e: Pass, maxDailyLoss: real, lossCap: nat, k: nat)
    requires LossLimitHit(e, maxDailyLoss) || Paused(e, lossCap)
    requires k < |Done(e, maxDailyLoss, lossCap)|
    ensures !OpeningSend(Done(e, maxDailyLoss, lossCap)[k])
  {
  }

  /** A halt is the last thing a pass does; unless it ended there, or at the loss limit, every symbol got
      exactly one record, in order. */
  lemma HaltIsLast(e: Pass, maxDailyLoss: real, lossCap: nat)
    ensures var outcome := Cycled(e, maxDailyLoss, lossCap);
      && |outcome.actions| <= |e.worlds|
      && (forall k | 0 <= k < |outcome.actions| :: outcome.actions[k].status == RiskHalt ==>
            outcome.halted && k == |outcome.actions| - 1)
      && (!outcome.halted ==> |outcome.actions| == |e.worlds|)
  {
    ActionsEndAtAHalt(StepOf(e), e.worlds);
  }

  lemma EachRecordIsItsSymbols(e: Pass, maxDailyLoss: real, lossCap: nat, k: nat)
    requires k < |Done(e, maxDailyLoss, lossCap)|
    ensures Done(e, maxDailyLoss, lossCap)[k].symbol == e.worlds[k].symbol
  {
    var actions := Done(e, maxDailyLoss, lossCap);
    DoneIsKept(e, maxDailyLoss, lossCap);
    assert StepKeeps(e, actions[..k], e.worlds[k], actions[k]);
  }

  // ------------------------------------------------------------ a session of passes

  /** Between passes positions may close; none opens but by a pass. No pass leaves more than `adrift`
      sends unaccounted for. */
  ghost predicate IsSession(es: seq<Pass>, maxPositions: int, maxDailyLoss: real, lossCap: nat, adrift: nat) {
    && (forall i | 0 <= i < |es| :: es[i].maxPositions == maxPositions && es[i].Honest())
    && (forall i | 0 <= i < |es| :: CountIf(Unaccounted, Done(es[i], maxDailyLoss, lossCap)) <= adrift)
    && forall i | 0 <= i < |es| - 1 ::
         |es[i + 1].openNow| <= BookAfter(es[i], Done(es[i], maxDailyLoss, lossCap))
  }

  lemma {:induction false} FullBookSendsNothing(e: Pass, actions: seq<Action>)
    requires Kept(e, actions) && |e.openNow| >= e.maxPositions
    ensures CountIf(OpeningSend, actions) == 0 && Created(actions, e.worlds) == 0
  {
    if actions != [] {
      var k := |actions| - 1;
      KeptBefore(e, actions);
      FullBookSendsNothing(e, actions[..k]);
      assert StepKeeps(e, actions[..k], e.worlds[k], actions[k]);
    }
  }

  /** A pass that starts at or past the cap leaves the book as it is; any other leaves it within the cap
      and that pass's own unaccounted sends. */
  lemma PassStaysUnder(e: Pass, maxDailyLoss: real, lossCap: nat, adrift: nat)
    requires e.Honest() && CountIf(Unaccounted, Done(e, maxDailyLoss, lossCap)) <= adrift
    ensures BookAfter(e, Done(e, maxDailyLoss, lossCap))
         <= if |e.openNow| >= e.maxPositions then |e.openNow| else e.maxPositions + adrift
  {
    if |e.openNow| >= e.maxPositions {
      DoneIsKept(e, maxDailyLoss, lossCap);
      FullBookSendsNothing(e, Done(e, maxDailyLoss, lossCap));
    } else {
      BookIsCapped(e, maxDailyLoss, lossCap);
    }
  }

  /** However long the session and whatever the venue does, the book never passes where it began or the cap
      plus the unaccounted sends of one pass: a book over the cap sends nothing, so the excess of one pass
      is not added to the next's. */
  lemma {:induction false} SessionIsCapped(es: seq<Pass>, maxPositions: int, maxDailyLoss: real, lossCap: nat,
                                           adrift: nat, n: nat)
    requires IsSession(es, maxPositions, maxDailyLoss, lossCap, adrift) && n < |es|
    ensures BookAfter(es[n], Done(es[n], maxDailyLoss, lossCap)) <= Ceiling(|es[0].openNow|, maxPositions + adrift)
  {
    PassStaysUnder(es[n], maxDailyLoss, lossCap, adrift);
    if n > 0 {
      SessionIsCapped(es, maxPositions, maxDailyLoss, lossCap, adrift, n - 1);
      assert |es[n - 1 + 1].openNow| <= BookAfter(es[n - 1], Done(es[n - 1], maxDailyLoss, lossCap));
    }
  }

  // ------------------------------------------------------------ the bound is exact

  /** The same pass against a venue that gives the same answers and may do otherwise behind them. */
  ghost predicate Rebooked(e: Pass, f: Pass) {
    && f == e.(worlds := f.worlds) && |f.worlds| == |e.worlds|
    && forall k | 0 <= k < |e.worlds| ::
         f.worlds[k] == e.worlds[k].(booked := f.worlds[k].booked, shut := f.worlds[k].shut)
  }

  lemma BookingIsUnseenByStep(e: Pass, f: Pass, actions: seq<Action>, w: World, booked: bool, shut: bool)
    requires Rebooked(e, f)
    ensures Next(f, actions, w.(booked := booked, shut := shut)) == Next(e, actions, w)
  {
    assert Shown(f, actions) == Shown(e, actions);
  }

  lemma {:induction false} ActionsAgree(step: Step, step': Step, worlds: seq<World>, worlds': seq<World>)
    requires |worlds| == |worlds'|
    requires forall actions, k | 0 <= k < |worlds| :: step(actions, worlds[k]) == step'(actions, worlds'[k])
    ensures Actions(step, worlds) == Actions(step', worlds')
  {
    if worlds != [] {
      ActionsAgree(step, step', worlds[..|worlds| - 1], worlds'[..|worlds| - 1]);
    }
  }

  /** What the pass does cannot depend on what was booked: it learns of that only at the next pass. */
  lemma BookingIsUnseen(e: Pass, f: Pass, maxDailyLoss: real, lossCap: nat)
    requires Rebooked(e, f)
    ensures Cycled(f, maxDailyLoss, lossCap) == Cycled(e, maxDailyLoss, lossCap)
  {
    forall actions, k | 0 <= k < |e.worlds|
      ensures StepOf(e)(actions, e.worlds[k]) == StepOf(f)(actions, f.worlds[k])
    {
      BookingIsUnseenByStep(e, f, actions, e.worlds[k], f.worlds[k].booked, f.worlds[k].shut);
    }
    ActionsAgree(StepOf(e), StepOf(f), e.worlds, f.worlds);
    assert SkippedForLosses(e.worlds) == SkippedForLosses(f.worlds);
  }

  /** A venue that books everything its answers leave open, and closes only what it says it closed. */
  function Worst(w: World): (r: World)
    ensures r.Honest() && r == w.(booked := r.booked, shut := r.shut)
  {
    w.(booked := Classify(CodeOf(w.answer), SendFailed(w.answer), Retcodes.Open).booked != No,
       shut := Classify(CodeOf(w.escape), SendFailed(w.escape), Retcodes.Close).booked == Yes)
  }

  function WorstPass(e: Pass): (f: Pass)
    ensures Rebooked(e, f) && f.Honest() && forall k | 0 <= k < |e.worlds| :: f.worlds[k] == Worst(e.worlds[k])
  {
    e.(worlds := seq(|e.worlds|, k requires 0 <= k < |e.worlds| => Worst(e.worlds[k])))
  }

  /** A step that may leave a position behind. */
  predicate MayLeave(a: Action) {
    MayBook(a) && !IsEscaped(a)
  }

  lemma WorstSendLeaves(w: World, isBuy: bool, s: Settings)
    requires Tradable(w) && w.atr.Some?
    ensures var a := SendAndRepair(w, isBuy, s); MayLeave(a) == Leaves(a, Worst(w))
  {
  }

  lemma WorstLeaves(e: Pass, actions: seq<Action>, w: World)
    ensures var a := Next(e, actions, w); MayLeave(a) == Leaves(a, Worst(w))
  {
    NextSendsOrNot(e, actions, w);
    if GoesOut(e, actions, w) {
      WorstSendLeaves(w, w.side.value, e.settings);
    }
  }

  lemma {:induction false} WorstCreates(actions: seq<Action>, worlds: seq<World>)
    requires |actions| <= |worlds|
    requires forall k | 0 <= k < |actions| :: MayLeave(actions[k]) == Leaves(actions[k], worlds[k])
    requires forall k | 0 <= k < |actions| && IsEscaped(actions[k]) :: IsSent(actions[k])
    ensures Created(actions, worlds) + CountIf(IsEscaped, actions)
         == CountIf(IsSent, actions) + CountIf(Unaccounted, actions)
  {
    if actions != [] {
      WorstCreates(actions[..|actions| - 1], worlds);
    }
  }

  lemma WorstLeavesAt(e: Pass, maxDailyLoss: real, lossCap: nat, k: nat)
    requires k < |Done(e, maxDailyLoss, lossCap)|
    ensures var a := Done(e, maxDailyLoss, lossCap)[k];
      MayLeave(a) == Leaves(a, Worst(e.worlds[k])) && (IsEscaped(a) ==> IsSent(a))
  {
    var actions := Done(e, maxDailyLoss, lossCap);
    DoneIsKept(e, maxDailyLoss, lossCap);
    assert StepKeeps(e, actions[..k], e.worlds[k], actions[k]);
    if !Paused(e, lossCap) {
      ActionsAreSteps(StepOf(e), e.worlds);
      WorstLeaves(e, actions[..k], e.worlds[k]);
    }
  }

  lemma WorstLeavesAll(e: Pass, worlds: seq<World>, actions: seq<Action>, maxDailyLoss: real, lossCap: nat)
    requires actions == Done(e, maxDailyLoss, lossCap) && |worlds| == |e.worlds|
    requires forall k | 0 <= k < |worlds| :: worlds[k] == Worst(e.worlds[k])
    ensures forall k | 0 <= k < |actions| :: MayLeave(actions[k]) == Leaves(actions[k], worlds[k])
    ensures forall k | 0 <= k < |actions| && IsEscaped(actions[k]) :: IsSent(actions[k])
  {
    forall k | 0 <= k < |actions|
      ensures MayLeave(actions[k]) == Leaves(actions[k], worlds[k])
      ensures IsEscaped(actions[k]) ==> IsSent(actions[k])
    {
      WorstLeavesAt(e, maxDailyLoss, lossCap, k);
    }
  }

  lemma WorstReachesTheBound(e: Pass, maxDailyLoss: real, lossCap: nat)
    ensures var actions := Done(e, maxDailyLoss, lossCap);
      && Done(WorstPass(e), maxDailyLoss, lossCap) == actions
      && BookAfter(WorstPass(e), actions) + CountIf(IsEscaped, actions)
         == |e.openNow| + CountIf(IsSent, actions) + CountIf(Unaccounted, actions)
  {
    var f, actions := WorstPass(e), Done(e, maxDailyLoss, lossCap);
    assert Done(f, maxDailyLoss, lossCap) == actions by {
      BookingIsUnseen(e, f, maxDailyLoss, lossCap);
    }
    WorstLeavesAll(e, f.worlds, actions, maxDailyLoss, lossCap);
    WorstCreates(actions, f.worlds);
  }

  /** A pass keeps the book within a limit against every venue giving these answers exactly when the
      positions open, sent and unaccounted for, less the escaped, fit in it together. */
  lemma WithinLimitIff(e: Pass, maxDailyLoss: real, lossCap: nat, limit: int)
    ensures var actions := Done(e, maxDailyLoss, lossCap);
      (forall f | Rebooked(e, f) && f.Honest() :: BookAfter(f, Done(f, maxDailyLoss, lossCap)) <= limit)
      <==> |e.openNow| + CountIf(IsSent, actions) + CountIf(Unaccounted, actions) - CountIf(IsEscaped, actions)
           <= limit
  {
    WorstReachesTheBound(e, maxDailyLoss, lossCap);
    forall f | Rebooked(e, f) && f.Honest()
      ensures BookAfter(f, Done(f, maxDailyLoss, lossCap)) + CountIf(IsEscaped, Done(e, maxDailyLoss, lossCap))
           <= |e.openNow| + CountIf(IsSent, Done(e, maxDailyLoss, lossCap))
              + CountIf(Unaccounted, Done(e, maxDailyLoss, lossCap))
    {
      BookingIsUnseen(e, f, maxDailyLoss, lossCap);
      DoneIsKept(f, maxDailyLoss, lossCap);
      CountsAreBounded(f, Done(f, maxDailyLoss, lossCap));
    }
    var w := WorstPass(e);
    assert Rebooked(e, w) && w.Honest();
  }

  // ------------------------------------------------------------ what a rejection hides

  /** A send logged as rejected is unaccounted for exactly when its code is not one of the five that are
      known to have booked nothing; a send logged as unknown always is. */
  lemma RejectedIsUnaccountedIff(a: Action)
    ensures Unaccounted(a) <==>
      (a.status == SendUnknown || (a.status == Rejected && !(a.code.Some? && RefusedOutright(a.code.value))))
  {
  }

  /** A bracketed market order, long at 10 with an ATR of 1, answered with `code`. */
  function Quoted(symbol: string, code: int): World {
    World(symbol, Some(60), Some(true), true, Some(Quote(10.0, 10.0)), Some(1.0), 1.0, 1.0, None, None, None, 1.0,
          (x: real) => x, Replies(Some(code), 10.0), code == DONE, None, Silent, false)
  }

  /** An engine with the limits every gate configures, and no other. */
  function LimitsOnly(limit: nat): (engine: Engine)
    ensures NeedsStop(engine) && OnePerSymbol(engine) && KeepsUnder(engine, limit)
  {
    (p: Portfolio, o: Proposal) =>
      if o.stopLoss.Some? && o.symbol !in p.openSymbols && p.openPositions.Some? && p.openPositions.value < limit
      then Approve else Veto
  }

  function TwoOrders(first: World, second: World, maxPositions: nat): Pass {
    Pass([], maxPositions, Settings(1.0, 1.0, 1.0, true, false), Some(LimitsOnly(maxPositions)), 0.0, None,
         [first, second])
  }

  lemma TwoOrdersAre(first: World, second: World, maxPositions: nat)
    ensures var e := TwoOrders(first, second, maxPositions);
      var a := Next(e, [], first);
      a.status != RiskHalt ==> Actions(StepOf(e), e.worlds) == [a, Next(e, [a], second)]
  {
    var e := TwoOrders(first, second, maxPositions);
    assert e.worlds[..1] == [first] && [first][..0] == [];
    assert Actions(StepOf(e), []) == [];
    assert Actions(StepOf(e), [first]) == [Next(e, [], first)];
  }

  /** Whatever the two symbols, the first send, answered 10031, leaves the second free to go out. */
  lemma LostThenSent(e: Pass, first: string, second: string, limit: nat, a: Action, b: Action)
    requires limit > 0 && e == TwoOrders(Quoted(first, NO_CONNECTION), Quoted(second, DONE), limit)
    requires a == Next(e, [], e.worlds[0]) && b == Next(e, [a], e.worlds[1])
    ensures a.status == Rejected && a.code == Some(NO_CONNECTION) && a.repair == NotNeeded && a.symbol == first
    ensures IsSent(b) && b.repair == NotNeeded && b.symbol == second
  {
    assert !Full(e, []);
    assert a == Placed(e.worlds[0], true, e.settings, e.engine, Shown(e, []));
    assert [a][..0] == [];
    assert !Full(e, [a]);
    assert b == Placed(e.worlds[1], true, e.settings, e.engine, Shown(e, [a]));
  }

  lemma CountOfTwo(p: Action -> bool, a: Action, b: Action)
    ensures CountIf(p, [a, b]) == (if p(a) then 1 else 0) + if p(b) then 1 else 0
  {
    assert [a, b][..1] == [a] && [a][..0] == [];
    assert CountIf(p, [a]) == if p(a) then 1 else 0;
  }

  /** A pass that left one send unaccounted for and recorded another may have put two positions on. */
  lemma TwoMayBeBooked(e: Pass, a: Action, b: Action)
    requires e.openNow == [] && Done(e, 1.0, 0) == [a, b] && Unaccounted(a) && IsSent(b)
    requires !IsEscaped(a) && !IsEscaped(b)
    ensures exists f :: Rebooked(e, f) && f.Honest() && BookAfter(f, Done(f, 1.0, 0)) == 2
  {
    CountOfTwo(IsSent, a, b);
    CountOfTwo(Unaccounted, a, b);
    CountOfTwo(IsEscaped, a, b);
    WorstReachesTheBound(e, 1.0, 0);
    var f := WorstPass(e);
    assert Rebooked(e, f) && f.Honest() && BookAfter(f, Done(f, 1.0, 0)) == 2;
  }

  lemma TwoAreDone(first: World, second: World, cap: nat, a: Action, b: Action)
    requires var e := TwoOrders(first, second, cap); a == Next(e, [], first) && b == Next(e, [a], second)
    requires a.status != RiskHalt
    ensures Done(TwoOrders(first, second, cap), 1.0, 0) == [a, b]
  {
    TwoOrdersAre(first, second, cap);
  }

  lemma LostThenSentPass(first: string, second: string, limit: nat) returns (e: Pass, a: Action, b: Action)
    requires limit > 0
    ensures e.openNow == [] && e.maxPositions == limit && e.engine == Some(LimitsOnly(limit))
    ensures Done(e, 1.0, 0) == [a, b]
    ensures a.status == Rejected && a.code == Some(NO_CONNECTION) && a.repair == NotNeeded && a.symbol == first
    ensures IsSent(b) && b.repair == NotNeeded && b.symbol == second
  {
    var x, y := Quoted(first, NO_CONNECTION), Quoted(second, DONE);
    e := TwoOrders(x, y, limit);
    a := Next(e, [], x);
    b := Next(e, [a], y);
    LostThenSent(e, first, second, limit, a, b);
    TwoAreDone(x, y, limit, a, b);
  }

  /** The cap is not kept as such, under an engine with every limit a gate configures: with room for one
      position, an order answered 10031 is logged rejected, the next is sent, and both may be on the book. */
  lemma LostConnectionPassesTheCap()
    ensures exists e: Pass, f: Pass ::
      && e.openNow == [] && e.maxPositions == 1 && Rebooked(e, f) && f.Honest()
      && e.engine.Some? && NeedsStop(e.engine.value) && OnePerSymbol(e.engine.value) && KeepsUnder(e.engine.value, 1)
      && |Done(e, 1.0, 0)| == 2 && Done(e, 1.0, 0)[0].status == Rejected
      && Done(e, 1.0, 0)[0].code == Some(NO_CONNECTION) && BookAfter(f, Done(f, 1.0, 0)) == 2
  {
    var e, a, b := LostThenSentPass("EURUSD", "GBPUSD", 1);
    TwoMayBeBooked(e, a, b);
  }

  // ------------------------------------------------------------ one position a symbol

  lemma {:induction false} SentAreShown(e: Pass, actions: seq<Action>, k: nat)
    requires k < |actions| && IsSent(actions[k])
    ensures actions[k].symbol in SentSymbols(actions)
  {
    if k < |actions| - 1 {
      SentAreShown(e, actions[..|actions| - 1], k);
    }
  }

  /** Under the one-position-per-symbol limit nothing follows a send that was recorded: the next order on
      its symbol, however often it is listed, is not approved. */
  lemma NothingFollowsASend(e: Pass, actions: seq<Action>, k: nat, j: nat)
    requires Kept(e, actions) && k < j < |actions| && IsSent(actions[k])
    requires e.engine.Some? && OnePerSymbol(e.engine.value) && actions[j].symbol == actions[k].symbol
    ensures !OpeningSend(actions[j])
  {
    assert StepKeeps(e, actions[..j], e.worlds[j], actions[j]);
    SentAreShown(e, actions[..j], k);
  }

  /** So no symbol is sent twice, or sent while open, even when the list repeats it. */
  lemma {:induction false} SymbolsStayDistinct(e: Pass, actions: seq<Action>)
    requires Kept(e, actions) && e.engine.Some? && OnePerSymbol(e.engine.value)
    ensures Ledger.Distinct(SentSymbols(actions))
    ensures forall s | s in SentSymbols(actions) :: s !in e.openNow
  {
    if actions != [] {
      var k := |actions| - 1;
      KeptBefore(e, actions);
      SymbolsStayDistinct(e, actions[..k]);
      assert StepKeeps(e, actions[..k], e.worlds[k], actions[k]);
    }
  }

  lemma KeptBefore(e: Pass, actions: seq<Action>)
    requires actions != [] && Kept(e, actions)
    ensures Kept(e, actions[..|actions| - 1])
  {
    assert forall j | 0 <= j < |actions| - 1 :: actions[..|actions| - 1][..j] == actions[..j];
  }

  /** Two positions on the k-th and j-th listed symbol. */
  ghost predicate Doubled(f: Pass, actions: seq<Action>, k: nat, j: nat)
    requires |actions| <= |f.worlds|
  {
    k < j < |actions| && actions[k].symbol == actions[j].symbol
    && Leaves(actions[k], f.worlds[k]) && Leaves(actions[j], f.worlds[j])
  }

  /** What can still put two positions on one symbol, and all that can: a send nobody can account for,
      repeated later in the list by one that may leave a position. */
  lemma DoubledIff(e: Pass, maxDailyLoss: real, lossCap: nat, k: nat, j: nat)
    requires e.engine.Some? && OnePerSymbol(e.engine.value)
    ensures var actions := Done(e, maxDailyLoss, lossCap);
      (exists f :: Rebooked(e, f) && f.Honest() && Doubled(f, actions, k, j))
      <==> k < j < |actions| && actions[k].symbol == actions[j].symbol
           && Unaccounted(actions[k]) && MayLeave(actions[j])
  {
    var actions := Done(e, maxDailyLoss, lossCap);
    forall f | Rebooked(e, f) && f.Honest() && Doubled(f, actions, k, j)
      ensures Unaccounted(actions[k]) && MayLeave(actions[j])
    {
      DoubledNeedsAnUnaccounted(e, f, actions, maxDailyLoss, lossCap, k, j);
    }
    if k < j < |actions| && actions[k].symbol == actions[j].symbol && Unaccounted(actions[k]) && MayLeave(actions[j]) {
      WorstLeavesAt(e, maxDailyLoss, lossCap, k);
      WorstLeavesAt(e, maxDailyLoss, lossCap, j);
      assert Doubled(WorstPass(e), actions, k, j);
    }
  }

  lemma DoubledNeedsAnUnaccounted(e: Pass, f: Pass, actions: seq<Action>, maxDailyLoss: real, lossCap: nat, k: nat,
                                  j: nat)
    requires e.engine.Some? && OnePerSymbol(e.engine.value) && actions == Done(e, maxDailyLoss, lossCap)
    requires Rebooked(e, f) && f.Honest() && Doubled(f, actions, k, j)
    ensures Unaccounted(actions[k]) && MayLeave(actions[j])
  {
    BookingIsUnseen(e, f, maxDailyLoss, lossCap);
    DoneIsKept(f, maxDailyLoss, lossCap);
    assert StepKeeps(f, actions[..k], f.worlds[k], actions[k]);
    assert StepKeeps(f, actions[..j], f.worlds[j], actions[j]);
    if IsSent(actions[k]) {
      NothingFollowsASend(f, actions, k, j);
    }
  }

  /** It happens: a symbol listed twice, answered 10031 and then filled. */
  lemma RepeatAfterALostConnection()
    ensures exists e: Pass, f: Pass ::
      && e.engine.Some? && NeedsStop(e.engine.value) && OnePerSymbol(e.engine.value) && KeepsUnder(e.engine.value, 2)
      && Rebooked(e, f) && f.Honest() && Doubled(f, Done(e, 1.0, 0), 0, 1)
  {
    var e, a, b := LostThenSentPass("EURUSD", "EURUSD", 2);
    TwoMayDouble(e, a, b);
  }

  lemma TwoMayDouble(e: Pass, a: Action, b: Action)
    requires e.engine.Some? && OnePerSymbol(e.engine.value) && Done(e, 1.0, 0) == [a, b] && a.symbol == b.symbol
    requires Unaccounted(a) && MayLeave(b)
    ensures exists f :: Rebooked(e, f) && f.Honest() && Doubled(f, Done(e, 1.0, 0), 0, 1)
  {
    DoubledIff(e, 1.0, 0, 0, 1);
  }

  // ------------------------------------------------------------ the bracket

  /** Rounding to the symbol's digits moves a level by at most half its last one. */
  ghost predicate RoundsTo(round: real -> real, point: real) {
    point > 0.0 && forall x :: Abs(round(x) - x) <= point / 2.0
  }

  /** The stop is on the losing side of the fill and the target on the winning one. */
  ghost predicate Straddles(isBuy: bool, fill: real, sl: real, tp: real) {
    (isBuy ==> sl < fill && fill < tp) && (!isBuy ==> tp < fill && fill < sl)
  }

  /** Two levels at these distances either side of a price, as a buy or a sell has them, to half a point. */
  ghost predicate Anchored(isBuy: bool, px: real, sl: real, tp: real, stop: real, target: real, point: real) {
    var side := if isBuy then 1.0 else -1.0;
    Abs(sl - (px - side * stop)) <= point / 2.0 && Abs(tp - (px + side * target)) <= point / 2.0
  }

  /** The bracket as sent is on the wrong side of the fill. */
  ghost predicate Inverted(w: World, isBuy: bool, fill: real)
    requires w.quote.Some?
  {
    var ask, bid := w.quote.value.ask, w.quote.value.bid;
    if isBuy then !Straddles(true, fill, w.round(ask - w.stopReach), w.round(ask + w.targetReach))
    else !Straddles(false, fill, w.round(bid + w.stopReach), w.round(bid - w.targetReach))
  }

  /** Of an order sent and filled with a bracket: only a bracket inverted as sent, rounded, is touched. It is moved
      exactly when the venue says it moved the levels or had them there already; failing that the record says the
      position was closed, exactly on the venue's word, or is stranded. */
  lemma RepairFollowsTheVenue(w: World, isBuy: bool, s: Settings)
    requires Tradable(w) && w.atr.Some? && Bracketed(s) && SendAndRepair(w, isBuy, s).fill.Some?
    ensures var a := SendAndRepair(w, isBuy, s);
      var inverted := Inverted(w, isBuy, a.fill.value);
      var moved := w.fix == Some(10009) || w.fix == Some(10025);
      var closed := w.escape.Replies? && w.escape.retcode == Some(10009);
      && a.status == Sent
      && (a.repair == NotNeeded <==> !inverted)
      && (a.repair.Repaired? <==> inverted && moved)
      && (a.repair == Repaired(true) <==> inverted && w.fix == Some(10025))
      && (a.repair == Escaped <==> inverted && !moved && closed)
      && (a.repair.Stranded? <==> inverted && !moved && !closed)
      && (a.repair.Stranded? ==> a.repair.code == if w.escape.Replies? then w.escape.retcode else None)
  {
  }

  /** A bracket left alone is sane; one that was moved is at the ATR distances from the fill, to the rounding, and
      sane whenever both distances are more than half a point; one that could be neither is inverted still. */
  lemma BracketIsSaneOrEscaped(w: World, isBuy: bool, s: Settings)
    requires Tradable(w) && w.atr.Some? && w.atr.value != 0.0 && w.Scaled(s) && Bracketed(s)
    requires RoundsTo(w.round, w.point) && SendAndRepair(w, isBuy, s).fill.Some?
    ensures var a := SendAndRepair(w, isBuy, s);
      && (a.repair == NotNeeded ==> Straddles(isBuy, a.fill.value, a.sl, a.tp))
      && (a.repair.Repaired? ==>
            Anchored(isBuy, a.fill.value, a.sl, a.tp, s.slAtr * w.atr.value, s.tpAtr * w.atr.value, w.point))
      && (a.repair.Repaired? && w.stopReach > w.point / 2.0 && w.targetReach > w.point / 2.0 ==>
            Straddles(isBuy, a.fill.value, a.sl, a.tp))
      && (a.repair.Escaped? || a.repair.Stranded? ==> !Straddles(isBuy, a.fill.value, a.sl, a.tp))
  {
    var a := SendAndRepair(w, isBuy, s);
    if a.repair.Repaired? {
      assert a.sl == w.round(StopAt(isBuy, a.fill.value, w.stopReach));
      assert a.tp == w.round(TargetAt(isBuy, a.fill.value, w.targetReach));
    }
  }

  /** Half a point is the exact limit: a re-anchored bracket is sane under every rounding to the symbol's
      digits if and only if both distances exceed it. */
  lemma RepairIsSaneIff(isBuy: bool, fill: real, stopReach: real, targetReach: real, point: real)
    requires point > 0.0 && stopReach > 0.0 && targetReach > 0.0
    ensures (forall round | RoundsTo(round, point) ::
               if isBuy then Straddles(true, fill, round(fill - stopReach), round(fill + targetReach))
               else Straddles(false, fill, round(fill + stopReach), round(fill - targetReach)))
       <==> stopReach > point / 2.0 && targetReach > point / 2.0
  {
    if stopReach <= point / 2.0 {
      CollapsesOnto(fill, if isBuy then fill - stopReach else fill + stopReach, point);
    } else if targetReach <= point / 2.0 {
      CollapsesOnto(fill, if isBuy then fill + targetReach else fill - targetReach, point);
    }
  }

  lemma CollapsesOnto(fill: real, level: real, point: real)
    requires point > 0.0 && Abs(fill - level) <= point / 2.0
    ensures exists round: real -> real :: RoundsTo(round, point) && round(level) == fill
  {
    var round := (x: real) => if x == level then fill else x;
    assert RoundsTo(round, point) && round(level) == fill;
  }
}
