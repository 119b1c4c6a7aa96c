/** The bracket walk with its tie rule left open (tools/gross_bound.py): when one bar reaches both
    levels, an oracle says which came first, and the two fixed rules bound every answer. */
module GrossBound {
  import opened Prelude
  import opened BarWalk

  datatype Params = Params(slAtr: real, tpAtr: real, maxHold: int)

  /** Does a position entered on the first bar, tied on the second, lose? */
  type TieRule = (nat, nat) -> bool

  function Always(tieToLoss: bool): TieRule {
    (i, j) => tieToLoss
  }

  /** One closed position: its multiple of the initial risk, and whether its exit bar was a tie. */
  datatype Outcome = Outcome(entry: nat, bar: nat, r: real, tied: bool)

  datatype Close = Close(bar: nat, px: real, tied: bool)

  function Hold(m: Market, long: bool, sl: real, tp: real, i: nat, j: nat, end: nat, rule: TieRule): (r: Close)
    requires m.Valid() && 0 < end <= |m.c| && j <= end
    ensures r.bar < end && (j < end ==> j <= r.bar)
    decreases end - j
  {
    if j == end then Close(end - 1, m.c[end - 1], false)
    else if HitStop(m, long, sl, j) && HitTarget(m, long, tp, j) then
      Close(j, if rule(i, j) then sl else tp, true)
    else if HitStop(m, long, sl, j) then Close(j, sl, false)
    else if HitTarget(m, long, tp, j) then Close(j, tp, false)
    else Hold(m, long, sl, tp, i, j + 1, end, rule)
  }

  function CloseOf(m: Market, p: Params, rule: TieRule, i: nat): (r: Close)
    requires m.Valid() && 1 <= i < |m.c| && m.Takeable(i) && p.maxHold >= 1
    ensures i <= r.bar < |m.c|
  {
    Hold(m, m.Long(i), StopLevel(m.Long(i), m.o[i], m.Unit(i), p.slAtr),
         TargetLevel(m.Long(i), m.o[i], m.Unit(i), p.tpAtr), i, i, HoldEnd(|m.c|, i, p.maxHold), rule)
  }

  /** A gain as a multiple of the risk taken at entry. */
  function Multiple(slAtr: real, a: real, gain: real): real
    requires slAtr != 0.0 && a > 0.0
  {
    assert slAtr * a != 0.0;
    gain / (slAtr * a)
  }

  function OutcomeOf(m: Market, p: Params, rule: TieRule, i: nat): Outcome
    requires m.Valid() && 1 <= i < |m.c| && m.Takeable(i) && p.maxHold >= 1 && p.slAtr != 0.0
  {
    var close := CloseOf(m, p, rule, i);
    Outcome(i, close.bar, Multiple(p.slAtr, m.Unit(i), Gain(m.Long(i), m.o[i], close.px)), close.tied)
  }

  /** The outcomes of a walk standing at bar i. */
  function RunFrom(m: Market, p: Params, rule: TieRule, i: nat): seq<Outcome>
    requires m.Valid() && 1 <= i && p.maxHold >= 1 && p.slAtr != 0.0
    decreases |m.c| - i
  {
    if i + 1 >= |m.c| then []
    else if !m.Takeable(i) then RunFrom(m, p, rule, i + 1)
    else [OutcomeOf(m, p, rule, i)] + RunFrom(m, p, rule, CloseOf(m, p, rule, i).bar + 1)
  }

  // ------------------------------------------------------------ a run, read off the arrays

  /** The price a position entered on bar i and left on bar j is settled at. */
  ghost function SettledAt(m: Market, p: Params, rule: TieRule, i: nat, j: nat): real
    requires m.Valid() && Signalled(m, i) && i <= j < |m.c|
  {
    var sl, tp := StopPrice(m, i, p.slAtr), TargetPrice(m, i, p.tpAtr);
    if FallsTo(m, i, sl, j) && (!RisesTo(m, i, tp, j) || rule(i, j)) then sl
    else if RisesTo(m, i, tp, j) then tp
    else m.c[j]
  }

  /** Everything an outcome says is so in the prices: the first bar to reach a level or the last of the window,
      a tie when it reaches both, and the money made over the money risked. */
  ghost predicate IsSettled(m: Market, p: Params, rule: TieRule, o: Outcome)
    requires m.Valid()
  {
    var i, j := o.entry, o.bar;
    && Signalled(m, i) && i <= j < |m.c| && j < i + p.maxHold
    && Undecided(m, i, p.slAtr, p.tpAtr, j)
    && (Undecided(m, i, p.slAtr, p.tpAtr, j + 1) ==> j + 1 == |m.c| || j + 1 == i + p.maxHold)
    && (o.tied <==> FallsTo(m, i, StopPrice(m, i, p.slAtr), j) && RisesTo(m, i, TargetPrice(m, i, p.tpAtr), j))
    && o.r * (p.slAtr * m.atr[i - 1].value) == Made(m, i, SettledAt(m, p, rule, i, j))
  }

  lemma HoldIsFirstTouch(m: Market, long: bool, sl: real, tp: real, i: nat, j: nat, end: nat, rule: TieRule)
    requires m.Valid() && j < end <= |m.c|
    ensures var c, t := Hold(m, long, sl, tp, i, j, end, rule), FirstTouch(m, long, sl, tp, j, end);
      && c.bar == (if t < end then t else end - 1)
      && (c.tied <==> HitStop(m, long, sl, c.bar) && HitTarget(m, long, tp, c.bar))
      && c.px == if HitStop(m, long, sl, c.bar) && (!HitTarget(m, long, tp, c.bar) || rule(i, c.bar)) then sl
                 else if HitTarget(m, long, tp, c.bar) then tp
                 else m.c[c.bar]
    decreases end - j
  {
    if j + 1 < end {
      HoldIsFirstTouch(m, long, sl, tp, i, j + 1, end, rule);
    }
  }

  lemma MultipleIsOverRisk(slAtr: real, a: real, gain: real)
    requires slAtr != 0.0 && a > 0.0
    ensures Multiple(slAtr, a, gain) * (slAtr * a) == gain
  {
    assert slAtr * a != 0.0;
  }

  lemma CloseIsSettled(m: Market, p: Params, rule: TieRule, i: nat)
    requires m.Valid() && Signalled(m, i) && p.maxHold >= 1
    ensures var c := CloseOf(m, p, rule, i);
      && c.bar < i + p.maxHold && Undecided(m, i, p.slAtr, p.tpAtr, c.bar)
      && (Undecided(m, i, p.slAtr, p.tpAtr, c.bar + 1) ==> c.bar + 1 == |m.c| || c.bar + 1 == i + p.maxHold)
      && (c.tied <==>
            FallsTo(m, i, StopPrice(m, i, p.slAtr), c.bar) && RisesTo(m, i, TargetPrice(m, i, p.tpAtr), c.bar))
      && c.px == SettledAt(m, p, rule, i, c.bar)
  {
    var c, end := CloseOf(m, p, rule, i), HoldEnd(|m.c|, i, p.maxHold);
    LevelsArePrices(m, i, p.slAtr, p.tpAtr, c.bar, end);
    HoldIsFirstTouch(m, m.Long(i), StopPrice(m, i, p.slAtr), TargetPrice(m, i, p.tpAtr), i, i, end, rule);
    FirstTouchIsFirst(m, m.Long(i), StopPrice(m, i, p.slAtr), TargetPrice(m, i, p.tpAtr), i, end);
    assert c.bar + 1 < end ==>
      FallsTo(m, i, StopPrice(m, i, p.slAtr), c.bar) || RisesTo(m, i, TargetPrice(m, i, p.tpAtr), c.bar);
  }

  lemma OutcomeIsSettled(m: Market, p: Params, rule: TieRule, i: nat)
    requires m.Valid() && Signalled(m, i) && p.maxHold >= 1 && p.slAtr != 0.0
    ensures IsSettled(m, p, rule, OutcomeOf(m, p, rule, i))
  {
    CloseIsSettled(m, p, rule, i);
    MultipleIsOverRisk(p.slAtr, m.Unit(i), Gain(m.Long(i), m.o[i], CloseOf(m, p, rule, i).px));
  }

  function SpansOf(os: seq<Outcome>): (spans: seq<Span>)
    ensures |spans| == |os| && forall k | 0 <= k < |os| :: spans[k] == Span(os[k].entry, os[k].bar)
  {
    seq(|os|, k requires 0 <= k < |os| => Span(os[k].entry, os[k].bar))
  }

  /** Settled as the prices say, from bar i on, with the calendar filled. */
  ghost predicate IsRun(m: Market, p: Params, rule: TieRule, i: nat, os: seq<Outcome>)
    requires m.Valid()
  {
    (forall o | o in os :: IsSettled(m, p, rule, o)) && Fill(m, i, SpansOf(os))
  }

  lemma OneMoreOutcome(m: Market, p: Params, rule: TieRule, o: Outcome, rest: seq<Outcome>)
    requires m.Valid() && IsSettled(m, p, rule, o) && IsRun(m, p, rule, o.bar + 1, rest)
    ensures IsRun(m, p, rule, o.entry, [o] + rest)
  {
    assert SpansOf([o] + rest) == [Span(o.entry, o.bar)] + SpansOf(rest);
    FillOneMore(m, Span(o.entry, o.bar), SpansOf(rest));
  }

  lemma QuietBarIsRun(m: Market, p: Params, rule: TieRule, i: nat, os: seq<Outcome>)
    requires m.Valid() && !Signalled(m, i) && (if i + 1 < |m.c| then IsRun(m, p, rule, i + 1, os) else os == [])
    ensures IsRun(m, p, rule, i, os)
  {
    if i + 1 < |m.c| {
      FillSkips(m, i, SpansOf(os));
    }
  }

  /** Under any rule the outcomes from bar i on are settled as the prices say, fill the calendar and never
      overlap. */
  lemma {:induction false} RunIsOnPrices(m: Market, p: Params, rule: TieRule, i: nat)
    requires m.Valid() && 60 <= i && p.maxHold >= 1 && p.slAtr != 0.0
    ensures IsRun(m, p, rule, i, RunFrom(m, p, rule, i))
    decreases |m.c| - i
  {
    if i + 1 < |m.c| && m.Takeable(i) {
      OutcomeIsSettled(m, p, rule, i);
      RunIsOnPrices(m, p, rule, CloseOf(m, p, rule, i).bar + 1);
      OneMoreOutcome(m, p, rule, OutcomeOf(m, p, rule, i), RunFrom(m, p, rule, CloseOf(m, p, rule, i).bar + 1));
    } else {
      if i + 1 < |m.c| {
        RunIsOnPrices(m, p, rule, i + 1);
      }
      QuietBarIsRun(m, p, rule, i, RunFrom(m, p, rule, i));
    }
  }

  function Multiples(os: seq<Outcome>): (rs: seq<real>)
    ensures |rs| == |os| && forall k | 0 <= k < |os| :: rs[k] == os[k].r
  {
    seq(|os|, k requires 0 <= k < |os| => os[k].r)
  }

  function Ties(os: seq<Outcome>): nat {
    if os == [] then 0 else (if os[0].tied then 1 else 0) + Ties(os[1..])
  }

  lemma TiesMoveHead(done: seq<Outcome>, o: Outcome, rest: seq<Outcome>)
    ensures Ties([o] + rest) == (if o.tied then 1 else 0) + Ties(rest)
    ensures Multiples(done + [o]) == Multiples(done) + [o.r]
  {
  }

  /** A walk standing at bar i has `done` behind it, and what is to come completes the whole run. */
  ghost predicate Standing(m: Market, p: Params, rule: TieRule, i: nat, done: seq<Outcome>, out: seq<real>, ties: nat)
    requires m.Valid() && p.maxHold >= 1 && p.slAtr != 0.0
  {
    && 1 <= i && out == Multiples(done)
    && done + RunFrom(m, p, rule, i) == RunFrom(m, p, rule, FIRST_BAR)
    && ties + Ties(RunFrom(m, p, rule, i)) == Ties(RunFrom(m, p, rule, FIRST_BAR))
  }

  /** maxHold and slAtr are what the source can run with: an empty window leaves its loop variable
      unbound, and a zero stop divides by zero. */
  method BracketR(m: Market, tieToLoss: bool, p: Params) returns (out: seq<real>, ties: nat)
    requires m.Valid() && p.maxHold >= 1 && p.slAtr != 0.0
    ensures out == Multiples(RunFrom(m, p, Always(tieToLoss), FIRST_BAR))
    ensures ties == Ties(RunFrom(m, p, Always(tieToLoss), FIRST_BAR))
    ensures IsRun(m, p, Always(tieToLoss), 60, RunFrom(m, p, Always(tieToLoss), FIRST_BAR))
  {
    out, ties := [], 0;
    var i, n := FIRST_BAR, |m.c|;
    ghost var done: seq<Outcome> := [];
    ghost var rule := Always(tieToLoss);
    WalkBegins(m, p, rule);
    while i < n - 1
      invariant Standing(m, p, rule, i, done, out, ties)
    {
      if m.sig[i - 1] == 0 || m.atr[i - 1].None? || m.atr[i - 1].value <= 0.0 {
        BarIsSkipped(m, p, rule, i, done, out, ties);
        i := i + 1;
        continue;
      }
      var r, j, tied := TakeTrade(m, tieToLoss, p, i);
      done := TradeIsTaken(m, p, rule, i, done, out, ties, Outcome(i, j, r, tied));
      out := out + [r];
      ties := ties + if tied then 1 else 0;
      i := j + 1;
    }
    WalkEnds(m, p, rule, i, done, out, ties);
    RunIsOnPrices(m, p, rule, FIRST_BAR);
  }

  lemma WalkBegins(m: Market, p: Params, rule: TieRule)
    requires m.Valid() && p.maxHold >= 1 && p.slAtr != 0.0
    ensures Standing(m, p, rule, FIRST_BAR, [], [], 0)
  {
  }

  lemma BarIsSkipped(m: Market, p: Params, rule: TieRule, i: nat, done: seq<Outcome>, out: seq<real>, ties: nat)
    requires m.Valid() && p.maxHold >= 1 && p.slAtr != 0.0 && Standing(m, p, rule, i, done, out, ties)
    requires i + 1 < |m.c| && !m.Takeable(i)
    ensures Standing(m, p, rule, i + 1, done, out, ties)
  {
  }

  /** Moves the trade entered on bar i from what is to come to what is done. */
  lemma TradeIsTaken(m: Market, p: Params, rule: TieRule, i: nat, done: seq<Outcome>, out: seq<real>, ties: nat,
                     o: Outcome) returns (done': seq<Outcome>)
    requires m.Valid() && p.maxHold >= 1 && p.slAtr != 0.0 && Standing(m, p, rule, i, done, out, ties)
    requires i + 1 < |m.c| && m.Takeable(i) && o == OutcomeOf(m, p, rule, i)
    ensures Standing(m, p, rule, o.bar + 1, done', out + [o.r], ties + if o.tied then 1 else 0)
  {
    MoveHead(done, o, RunFrom(m, p, rule, o.bar + 1));
    TiesMoveHead(done, o, RunFrom(m, p, rule, o.bar + 1));
    done' := done + [o];
  }

  lemma WalkEnds(m: Market, p: Params, rule: TieRule, i: nat, done: seq<Outcome>, out: seq<real>, ties: nat)
    requires m.Valid() && p.maxHold >= 1 && p.slAtr != 0.0 && Standing(m, p, rule, i, done, out, ties)
    requires i + 1 >= |m.c|
    ensures out == Multiples(RunFrom(m, p, rule, FIRST_BAR)) && ties == Ties(RunFrom(m, p, rule, FIRST_BAR))
  {
  }

  /** One entry, from the open of bar i to its exit on bar j. */
  method TakeTrade(m: Market, tieToLoss: bool, p: Params, i: nat) returns (r: real, j: nat, tied: bool)
    requires m.Valid() && 1 <= i < |m.c| && m.Takeable(i) && p.maxHold >= 1 && p.slAtr != 0.0
    ensures OutcomeOf(m, p, Always(tieToLoss), i) == Outcome(i, j, r, tied)
    ensures j == CloseOf(m, p, Always(tieToLoss), i).bar
  {
    var long, entry, a := m.sig[i - 1] > 0, m.o[i], m.atr[i - 1].value;
    var sl, tp := StopLevel(long, entry, a, p.slAtr), TargetLevel(long, entry, a, p.tpAtr);
    var px;
    px, j, tied := HoldPosition(m, long, sl, tp, i, HoldEnd(|m.c|, i, p.maxHold), tieToLoss);
    var gross := if long then px - entry else entry - px;
    r := Multiple(p.slAtr, a, gross);
  }

  /** The inner loop over held bars. */
  method HoldPosition(m: Market, long: bool, sl: real, tp: real, i: nat, end: nat, tieToLoss: bool)
    returns (px: real, j: nat, tied: bool)
    requires m.Valid() && i < end <= |m.c|
    ensures Close(j, px, tied) == Hold(m, long, sl, tp, i, i, end, Always(tieToLoss))
  {
    j := i;
    var k := i;
    while k < end
      invariant i <= k <= end
      invariant j == if k == i then i else k - 1
      invariant Hold(m, long, sl, tp, i, i, end, Always(tieToLoss))
             == Hold(m, long, sl, tp, i, k, end, Always(tieToLoss))
    {
      j := k;
      var hitSl, hitTp := HitStop(m, long, sl, j), HitTarget(m, long, tp, j);
      if hitSl && hitTp {
        return if tieToLoss then sl else tp, j, true;
      }
      if hitSl {
        return sl, j, false;
      }
      if hitTp {
        return tp, j, false;
      }
      k := k + 1;
    }
    return m.c[j], j, false;
  }

  // ------------------------------------------------------------ the tie bracket

  lemma {:induction false} HoldIgnoresTheRule(m: Market, long: bool, sl: real, tp: real, i: nat, j: nat, end: nat,
                                              rule: TieRule, rule': TieRule)
    requires m.Valid() && 0 < end <= |m.c| && j <= end
    ensures var c, c' := Hold(m, long, sl, tp, i, j, end, rule), Hold(m, long, sl, tp, i, j, end, rule');
      && c.bar == c'.bar && c.tied == c'.tied
      && (!c.tied ==> c.px == c'.px)
      && (c.tied ==> c.px == (if rule(i, c.bar) then sl else tp) && c'.px == (if rule'(i, c.bar) then sl else tp))
    decreases end - j
  {
    if j < end {
      HoldIgnoresTheRule(m, long, sl, tp, i, j + 1, end, rule, rule');
    }
  }

  /** What a stop and a target are worth, in multiples of the initial risk. */
  lemma LevelMultiples(long: bool, entry: real, a: real, slAtr: real, tpAtr: real)
    requires slAtr != 0.0 && a > 0.0
    ensures Multiple(slAtr, a, Gain(long, entry, StopLevel(long, entry, a, slAtr))) == -1.0
    ensures Multiple(slAtr, a, Gain(long, entry, TargetLevel(long, entry, a, tpAtr))) == tpAtr / slAtr
  {
    var risk := slAtr * a;
    assert Gain(long, entry, StopLevel(long, entry, a, slAtr)) == -1.0 * risk;
    QuotientIs(-1.0 * risk, risk, -1.0);
    var q := tpAtr / slAtr;
    assert Gain(long, entry, TargetLevel(long, entry, a, tpAtr)) == tpAtr * a;
    assert tpAtr * a == (q * slAtr) * a == q * risk;
    QuotientIs(tpAtr * a, risk, q);
  }

  /** Two tie rules agree on everything about a position but the value of a tie. */
  lemma OutcomesDifferOnlyInTies(m: Market, p: Params, i: nat, rule: TieRule, rule': TieRule)
    requires m.Valid() && 1 <= i < |m.c| && m.Takeable(i) && p.maxHold >= 1 && p.slAtr != 0.0
    ensures var o, o' := OutcomeOf(m, p, rule, i), OutcomeOf(m, p, rule', i);
      && o.bar == o'.bar && o.tied == o'.tied
      && (!o.tied ==> o.r == o'.r)
      && (o.tied ==> o.r == if rule(i, o.bar) then -1.0 else p.tpAtr / p.slAtr)
  {
    var long, entry, a := m.Long(i), m.o[i], m.Unit(i);
    HoldIgnoresTheRule(m, long, StopLevel(long, entry, a, p.slAtr), TargetLevel(long, entry, a, p.tpAtr),
                       i, i, HoldEnd(|m.c|, i, p.maxHold), rule, rule');
    LevelMultiples(long, entry, a, p.slAtr, p.tpAtr);
  }

  /** Whatever the oracle says, the run enters and exits on the same bars and meets the same ties. */
  lemma {:induction false} TieRuleMovesNoTrade(m: Market, p: Params, rule: TieRule, rule': TieRule, i: nat)
    requires m.Valid() && 1 <= i && p.maxHold >= 1 && p.slAtr != 0.0
    ensures var os, os' := RunFrom(m, p, rule, i), RunFrom(m, p, rule', i);
      && |os| == |os'| && Ties(os) == Ties(os')
      && forall k | 0 <= k < |os| ::
           && os[k].entry == os'[k].entry && os[k].bar == os'[k].bar && os[k].tied == os'[k].tied
           && (!os[k].tied ==> os[k].r == os'[k].r)
           && (os[k].tied ==> os[k].r == if rule(os[k].entry, os[k].bar) then -1.0 else p.tpAtr / p.slAtr)
    decreases |m.c| - i
  {
    if i + 1 < |m.c| {
      if m.Takeable(i) {
        var o, o' := OutcomeOf(m, p, rule, i), OutcomeOf(m, p, rule', i);
        OutcomesDifferOnlyInTies(m, p, i, rule, rule');
        TieRuleMovesNoTrade(m, p, rule, rule', o.bar + 1);
        TiesMoveHead([], o, RunFrom(m, p, rule, o.bar + 1));
        TiesMoveHead([], o', RunFrom(m, p, rule', o.bar + 1));
      } else {
        TieRuleMovesNoTrade(m, p, rule, rule', i + 1);
      }
    }
  }

  /** What one tie moves: a target's worth of risk on top of a stop's. */
  function TieWidth(p: Params): real
    requires p.slAtr != 0.0
  {
    (p.slAtr + p.tpAtr) / p.slAtr
  }

  lemma TieWidthIsOnePlus(p: Params)
    requires p.slAtr != 0.0
    ensures p.tpAtr / p.slAtr == TieWidth(p) - 1.0
  {
    var q := p.tpAtr / p.slAtr;
    assert p.slAtr + p.tpAtr == (1.0 + q) * p.slAtr;
    QuotientIs(p.slAtr + p.tpAtr, p.slAtr, 1.0 + q);
  }

  /** A position's multiple under any oracle lies between the two fixed rules exactly when a target is
      worth no less than a stop, or the position met no tie. */
  lemma EachMultipleIsBracketedIff(m: Market, p: Params, rule: TieRule, i: nat, k: nat)
    requires m.Valid() && 1 <= i && p.maxHold >= 1 && p.slAtr != 0.0
    requires k < |RunFrom(m, p, rule, i)|
    ensures |RunFrom(m, p, Always(true), i)| == |RunFrom(m, p, rule, i)| == |RunFrom(m, p, Always(false), i)|
    ensures RunFrom(m, p, Always(true), i)[k].r <= RunFrom(m, p, rule, i)[k].r <= RunFrom(m, p, Always(false), i)[k].r
       <==> TieWidth(p) >= 0.0 || !RunFrom(m, p, rule, i)[k].tied
  {
    TieRuleMovesNoTrade(m, p, Always(true), rule, i);
    TieRuleMovesNoTrade(m, p, Always(false), rule, i);
    TieRuleMovesNoTrade(m, p, rule, rule, i);
    TieWidthIsOnePlus(p);
  }

  /** Ties the rule resolves in the position's favour. */
  function Wins(os: seq<Outcome>, rule: TieRule): nat {
    if os == [] then 0
    else
      var o := os[|os| - 1];
      Wins(os[..|os| - 1], rule) + (if o.tied && !rule(o.entry, o.bar) then 1 else 0)
  }

  /** The two lists differ by one width at each tie the rule resolves in the position's favour. */
  ghost predicate DifferByWins(os: seq<Outcome>, loss: seq<Outcome>, rule: TieRule, width: real) {
    && |os| == |loss|
    && forall k | 0 <= k < |os| ::
         os[k].r == loss[k].r + if os[k].tied && !rule(os[k].entry, os[k].bar) then width else 0.0
  }

  /** One width for each tie won. */
  function WonWidths(os: seq<Outcome>, rule: TieRule, width: real): real {
    if os == [] then 0.0
    else
      var o := os[|os| - 1];
      WonWidths(os[..|os| - 1], rule, width) + if o.tied && !rule(o.entry, o.bar) then width else 0.0
  }

  lemma {:induction false} WonWidthsAre(os: seq<Outcome>, rule: TieRule, width: real, wins: nat)
    requires wins == Wins(os, rule)
    ensures WonWidths(os, rule, width) == wins as real * width
  {
    if os != [] {
      var o := os[|os| - 1];
      if o.tied && !rule(o.entry, o.bar) {
        WonWidthsAre(os[..|os| - 1], rule, width, wins - 1);
        OneMore(wins - 1, width);
      } else {
        WonWidthsAre(os[..|os| - 1], rule, width, wins);
      }
    }
  }

  lemma OneMore(n: nat, width: real)
    ensures (n + 1) as real * width == n as real * width + width
  {
  }

  lemma {:induction false} TotalsDifferByWins(os: seq<Outcome>, loss: seq<Outcome>, rule: TieRule, width: real)
    requires DifferByWins(os, loss, rule, width)
    ensures Sum(Multiples(os)) == Sum(Multiples(loss)) + WonWidths(os, rule, width)
  {
    if os != [] {
      var front, lossFront := os[..|os| - 1], loss[..|loss| - 1];
      TotalsDifferByWins(front, lossFront, rule, width);
      assert Multiples(os)[..|os| - 1] == Multiples(front);
      assert Multiples(loss)[..|os| - 1] == Multiples(lossFront);
    }
  }

  lemma {:induction false} AllTiesWin(os: seq<Outcome>)
    ensures Wins(os, Always(false)) == Ties(os)
  {
    if os != [] {
      AllTiesWin(os[..|os| - 1]);
      TiesLast(os);
    }
  }

  lemma {:induction false} TiesLast(os: seq<Outcome>)
    requires os != []
    ensures Ties(os) == Ties(os[..|os| - 1]) + if os[|os| - 1].tied then 1 else 0
  {
    if |os| > 1 {
      TiesLast(os[1..]);
      assert os[1..][..|os| - 2] == os[..|os| - 1][1..];
    }
  }

  lemma RunsDifferByWins(m: Market, p: Params, rule: TieRule, i: nat)
    requires m.Valid() && 1 <= i && p.maxHold >= 1 && p.slAtr != 0.0
    ensures DifferByWins(RunFrom(m, p, rule, i), RunFrom(m, p, Always(true), i), rule, TieWidth(p))
  {
    TieRuleMovesNoTrade(m, p, rule, Always(true), i);
    TieRuleMovesNoTrade(m, p, Always(true), rule, i);
    TieWidthIsOnePlus(p);
  }

  /** The total under any oracle exceeds the loss rule's by exactly one tie width per tie won; the
      win rule's exceeds it by one per tie. */
  lemma TotalsAreBracketed(m: Market, p: Params, rule: TieRule, i: nat, wins: nat, ties: nat, width: real)
    requires m.Valid() && 1 <= i && p.maxHold >= 1 && p.slAtr != 0.0 && width == TieWidth(p)
    requires wins == Wins(RunFrom(m, p, rule, i), rule) && ties == Ties(RunFrom(m, p, rule, i))
    ensures var loss := Sum(Multiples(RunFrom(m, p, Always(true), i)));
      && Sum(Multiples(RunFrom(m, p, rule, i))) == loss + wins as real * width
      && Sum(Multiples(RunFrom(m, p, Always(false), i))) == loss + ties as real * width
  {
    var won := RunFrom(m, p, Always(false), i);
    TotalExceedsLoss(m, p, rule, i, width, wins);
    TieRuleMovesNoTrade(m, p, rule, Always(false), i);
    AllTiesWin(won);
    TotalExceedsLoss(m, p, Always(false), i, width, ties);
  }

  lemma TotalExceedsLoss(m: Market, p: Params, rule: TieRule, i: nat, width: real, wins: nat)
    requires m.Valid() && 1 <= i && p.maxHold >= 1 && p.slAtr != 0.0 && width == TieWidth(p)
    requires wins == Wins(RunFrom(m, p, rule, i), rule)
    ensures Sum(Multiples(RunFrom(m, p, rule, i)))
         == Sum(Multiples(RunFrom(m, p, Always(true), i))) + wins as real * width
  {
    RunsDifferByWins(m, p, rule, i);
    TotalsDifferByWins(RunFrom(m, p, rule, i), RunFrom(m, p, Always(true), i), rule, width);
    WonWidthsAre(RunFrom(m, p, rule, i), rule, width, wins);
  }
}
