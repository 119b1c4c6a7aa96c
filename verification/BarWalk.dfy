/** What the three trade simulators share: the market arrays, which bars can be entered, and the
    order in which a flat-before-the-next-entry walk visits them. A simulator is described by a
    plan: for every bar, the bar at which a position entered there would be closed. */
module BarWalk {
  import opened Prelude

  const FIRST_BAR: nat := 60

  /** `atr` is None where numpy holds a non-finite value. */
  datatype Market = Market(o: seq<real>, h: seq<real>, l: seq<real>, c: seq<real>,
                           sig: seq<int>, atr: seq<Option<real>>)
  {
    ghost predicate Valid() {
      |o| == |h| == |l| == |c| == |sig| == |atr|
    }

    /** The signal and ATR of the bar before i license an entry at i's open. */
    predicate Takeable(i: nat)
      requires Valid() && 1 <= i < |c|
    {
      sig[i - 1] != 0 && atr[i - 1].Some? && atr[i - 1].value > 0.0
    }

    predicate Long(i: nat)
      requires Valid() && 1 <= i < |c|
    {
      sig[i - 1] > 0
    }

    function Unit(i: nat): real
      requires Valid() && 1 <= i < |c| && Takeable(i)
    {
      atr[i - 1].value
    }

    /** Everything before bar n, which is all an n-bar run is given. */
    function Prefix(n: nat): Market
      requires Valid() && n <= |c|
    {
      Market(o[..n], h[..n], l[..n], c[..n], sig[..n], atr[..n])
    }
  }

  /** A price's distance from entry, positive in the position's favour. */
  function Gain(long: bool, entry: real, px: real): real {
    if long then px - entry else entry - px
  }

  predicate HitStop(m: Market, long: bool, stop: real, j: nat)
    requires m.Valid() && j < |m.c|
  {
    if long then m.l[j] <= stop else m.h[j] >= stop
  }

  predicate HitTarget(m: Market, long: bool, target: real, j: nat)
    requires m.Valid() && j < |m.c|
  {
    if long then m.h[j] >= target else m.l[j] <= target
  }

  function StopLevel(long: bool, entry: real, a: real, slAtr: real): real {
    if long then entry - slAtr * a else entry + slAtr * a
  }

  function TargetLevel(long: bool, entry: real, a: real, tpAtr: real): real {
    if long then entry + tpAtr * a else entry - tpAtr * a
  }

  /** One past the last bar a position entered at i may be held to. */
  function HoldEnd(n: nat, i: nat, maxHold: int): int {
    if i + maxHold <= n then i + maxHold else n
  }

  /** The bar the walk is left on when nothing closed the position. */
  function LastHeld(n: nat, i: nat, maxHold: int): (j: nat)
    requires i < n
    ensures i <= j < n
  {
    if i < HoldEnd(n, i, maxHold) then HoldEnd(n, i, maxHold) - 1 else i
  }

  /** The first bar in [j, end) reaching either level, or end. */
  function FirstTouch(m: Market, long: bool, stop: real, target: real, j: nat, end: nat): (t: nat)
    requires m.Valid() && j <= end <= |m.c|
    ensures j <= t <= end
    decreases end - j
  {
    if j == end || HitStop(m, long, stop, j) || HitTarget(m, long, target, j) then j
    else FirstTouch(m, long, stop, target, j + 1, end)
  }

  lemma {:induction false} FirstTouchIsFirst(m: Market, long: bool, stop: real, target: real, j: nat, end: nat)
    requires m.Valid() && j <= end <= |m.c|
    ensures var t := FirstTouch(m, long, stop, target, j, end);
      && (t < end ==> HitStop(m, long, stop, t) || HitTarget(m, long, target, t))
      && forall u | j <= u < t :: !HitStop(m, long, stop, u) && !HitTarget(m, long, target, u)
    decreases end - j
  {
    if j < end {
      FirstTouchIsFirst(m, long, stop, target, j + 1, end);
    }
  }

  /** FirstTouch reads only bars before its end, and a touch found stays found when more bars
      are allowed. */
  lemma {:induction false} FirstTouchIsCausal(m: Market, n: nat, long: bool, stop: real, target: real,
                                              j: nat, end: nat, end': nat)
    requires m.Valid() && n <= |m.c| && j <= end <= n && end <= end' <= |m.c|
    ensures FirstTouch(m.Prefix(n), long, stop, target, j, end) == FirstTouch(m, long, stop, target, j, end)
    ensures FirstTouch(m, long, stop, target, j, end) < end ==>
      FirstTouch(m, long, stop, target, j, end') == FirstTouch(m, long, stop, target, j, end)
    decreases end - j
  {
    if j < end {
      FirstTouchIsCausal(m, n, long, stop, target, j + 1, end, end');
    }
  }

  // ------------------------------------------------------------ the same, read off the arrays

  /** Bar i is entered on sight: its last closed bar carries a signal and a usable ATR. */
  ghost predicate Signalled(m: Market, i: nat)
    requires m.Valid()
  {
    60 <= i && i + 1 < |m.c| && m.sig[i - 1] != 0 && m.atr[i - 1].Some? && m.atr[i - 1].value > 0.0
  }

  /** A stop, or a target, that many ATRs from the open of bar i, for the side its signal asks for. */
  ghost function StopPrice(m: Market, i: nat, slAtr: real): real
    requires m.Valid() && Signalled(m, i)
  {
    if m.sig[i - 1] > 0 then m.o[i] - slAtr * m.atr[i - 1].value else m.o[i] + slAtr * m.atr[i - 1].value
  }

  ghost function TargetPrice(m: Market, i: nat, tpAtr: real): real
    requires m.Valid() && Signalled(m, i)
  {
    if m.sig[i - 1] > 0 then m.o[i] + tpAtr * m.atr[i - 1].value else m.o[i] - tpAtr * m.atr[i - 1].value
  }

  /** Bar j trades at a price on the losing, or on the winning, side of a position entered on bar i. */
  ghost predicate FallsTo(m: Market, i: nat, px: real, j: nat)
    requires m.Valid() && Signalled(m, i) && j < |m.c|
  {
    if m.sig[i - 1] > 0 then m.l[j] <= px else m.h[j] >= px
  }

  ghost predicate RisesTo(m: Market, i: nat, px: real, j: nat)
    requires m.Valid() && Signalled(m, i) && j < |m.c|
  {
    if m.sig[i - 1] > 0 then m.h[j] >= px else m.l[j] <= px
  }

  /** What a position entered on bar i makes by leaving at px. */
  ghost function Made(m: Market, i: nat, px: real): real
    requires m.Valid() && Signalled(m, i)
  {
    if m.sig[i - 1] > 0 then px - m.o[i] else m.o[i] - px
  }

  /** Until bar j neither level is reached. */
  ghost predicate Undecided(m: Market, i: nat, slAtr: real, tpAtr: real, j: nat)
    requires m.Valid() && Signalled(m, i) && j <= |m.c|
  {
    forall u | i <= u < j :: !FallsTo(m, i, StopPrice(m, i, slAtr), u) && !RisesTo(m, i, TargetPrice(m, i, tpAtr), u)
  }

  /** The levels of the walk are these prices, and so is what touches them. */
  lemma LevelsArePrices(m: Market, i: nat, slAtr: real, tpAtr: real, j: nat, end: nat)
    requires m.Valid() && Signalled(m, i) && i <= j <= end <= |m.c|
    ensures StopPrice(m, i, slAtr) == StopLevel(m.Long(i), m.o[i], m.Unit(i), slAtr)
    ensures TargetPrice(m, i, tpAtr) == TargetLevel(m.Long(i), m.o[i], m.Unit(i), tpAtr)
    ensures FirstTouch(m, m.Long(i), StopPrice(m, i, slAtr), TargetPrice(m, i, tpAtr), i, end) >= j ==>
      Undecided(m, i, slAtr, tpAtr, j)
  {
    var long, stop, target := m.Long(i), StopPrice(m, i, slAtr), TargetPrice(m, i, tpAtr);
    FirstTouchIsFirst(m, long, stop, target, i, end);
    forall u | i <= u < j && j <= FirstTouch(m, long, stop, target, i, end)
      ensures !FallsTo(m, i, stop, u) && !RisesTo(m, i, target, u)
    {
      assert !HitStop(m, long, stop, u) && !HitTarget(m, long, target, u);
    }
  }

  /** The bar a position is entered on and the one it is left on. */
  datatype Span = Span(entry: nat, left: int)

  /** Bar u is inside one of the positions. */
  ghost predicate HeldOver(spans: seq<Span>, u: nat) {
    exists s | s in spans :: s.entry <= u <= s.left
  }

  /** Each position is left before the next is entered. */
  ghost predicate Apart(spans: seq<Span>) {
    forall k, k' | 0 <= k < k' < |spans| :: spans[k].left < spans[k'].entry
  }

  /** Positions from bar i on: entered on sight, never two at once, and on every bar that could be entered one
      is open. */
  ghost predicate Fill(m: Market, i: nat, spans: seq<Span>)
    requires m.Valid()
  {
    && (forall s | s in spans :: i <= s.entry <= s.left && Signalled(m, s.entry))
    && Apart(spans)
    && forall u {:trigger HeldOver(spans, u)} | i <= u < |m.c| && Signalled(m, u) :: HeldOver(spans, u)
  }

  lemma ApartOneMore(s: Span, rest: seq<Span>)
    requires Apart(rest) && forall r | r in rest :: s.left < r.entry
    ensures Apart([s] + rest)
  {
  }

  lemma FillOneMore(m: Market, s: Span, rest: seq<Span>)
    requires m.Valid() && s.entry <= s.left && Signalled(m, s.entry) && Fill(m, s.left + 1, rest)
    ensures Fill(m, s.entry, [s] + rest)
  {
    ApartOneMore(s, rest);
    forall u | s.entry <= u < |m.c| && Signalled(m, u) ensures HeldOver([s] + rest, u) {
      if u <= s.left {
        assert s in [s] + rest;
      } else {
        assert HeldOver(rest, u);
      }
    }
  }

  lemma FillSkips(m: Market, i: nat, spans: seq<Span>)
    requires m.Valid() && !Signalled(m, i) && Fill(m, i + 1, spans)
    ensures Fill(m, i, spans)
  {
  }

  /** The first position is entered on the first bar that can be. */
  lemma FirstSpanIsFirst(m: Market, i: nat, spans: seq<Span>, u: nat)
    requires m.Valid() && Fill(m, i, spans) && i <= u < |m.c| && Signalled(m, u)
    ensures spans != [] && spans[0].entry <= u
  {
    assert HeldOver(spans, u);
    var s :| s in spans && s.entry <= u <= s.left;
    var k :| 0 <= k < |spans| && spans[k] == s;
    if k > 0 {
      assert spans[0].left < spans[k].entry;
      assert spans[0] in spans;
    }
  }

  lemma ApartTail(s: Span, rest: seq<Span>)
    requires Apart([s] + rest)
    ensures Apart(rest) && forall r | r in rest :: s.left < r.entry
  {
    var all := [s] + rest;
    forall k | 0 <= k < |rest| ensures s.left < rest[k].entry {
      assert all[0].left < all[k + 1].entry;
    }
    forall k, k' | 0 <= k < k' < |rest| ensures rest[k].left < rest[k'].entry {
      assert all[k + 1].left < all[k' + 1].entry;
    }
  }

  lemma FillTail(m: Market, i: nat, s: Span, rest: seq<Span>)
    requires m.Valid() && Fill(m, i, [s] + rest)
    ensures i <= s.entry <= s.left && Fill(m, s.left + 1, rest)
  {
    assert s in [s] + rest;
    ApartTail(s, rest);
    forall u | s.left + 1 <= u < |m.c| && Signalled(m, u) ensures HeldOver(rest, u) {
      assert HeldOver([s] + rest, u);
    }
  }

  lemma FillEnds(m: Market, i: nat, spans: seq<Span>)
    requires m.Valid() && i + 1 >= |m.c| && Fill(m, i, spans)
    ensures spans == []
  {
    HeadIsIn(spans);
  }

  lemma FillStepsOver(m: Market, i: nat, spans: seq<Span>)
    requires m.Valid() && !Signalled(m, i) && Fill(m, i, spans)
    ensures Fill(m, i + 1, spans)
  {
    forall u | i + 1 <= u < |m.c| && Signalled(m, u) ensures HeldOver(spans, u) {
      assert HeldOver(spans, u);
    }
  }

  // ------------------------------------------------------------ the order of entries

  /** plan[i] is the exit bar of an entry at i, or None when i cannot be entered. */
  type Plan = seq<Option<nat>>

  ghost predicate ValidPlan(plan: Plan) {
    forall i | 0 <= i < |plan| && plan[i].Some? :: i <= plan[i].value < |plan|
  }

  /** The bars entered by a walk standing at bar i. */
  function Entries(plan: Plan, i: nat): seq<nat>
    requires ValidPlan(plan)
    decreases |plan| - i
  {
    if i + 1 >= |plan| then []
    else if plan[i].None? then Entries(plan, i + 1)
    else [i] + Entries(plan, plan[i].value + 1)
  }

  lemma {:induction false} EntriesArePlanned(plan: Plan, i: nat)
    requires ValidPlan(plan)
    ensures forall k | 0 <= k < |Entries(plan, i)| ::
      i <= Entries(plan, i)[k] && Entries(plan, i)[k] + 1 < |plan| && plan[Entries(plan, i)[k]].Some?
    decreases |plan| - i
  {
    if i + 1 < |plan| && plan[i].None? {
      EntriesArePlanned(plan, i + 1);
    } else if i + 1 < |plan| {
      EntriesArePlanned(plan, plan[i].value + 1);
    }
  }

  /** Positions never overlap: each is closed on a bar before the next is entered. */
  lemma {:induction false} EntriesAreDisjoint(plan: Plan, i: nat, k: nat, k': nat)
    requires ValidPlan(plan) && k < k' < |Entries(plan, i)|
    ensures Entries(plan, i)[k] < |plan| && plan[Entries(plan, i)[k]].Some?
    ensures plan[Entries(plan, i)[k]].value < Entries(plan, i)[k']
    decreases |plan| - i
  {
    EntriesArePlanned(plan, i);
    if plan[i].None? {
      EntriesAreDisjoint(plan, i + 1, k, k');
    } else if k > 0 {
      EntriesAreDisjoint(plan, plan[i].value + 1, k - 1, k' - 1);
    } else {
      EntriesArePlanned(plan, plan[i].value + 1);
    }
  }

  /** Bar t lies inside a position opened by an earlier entry. */
  ghost predicate Covered(plan: Plan, es: seq<nat>, t: nat) {
    exists k | 0 <= k < |es| :: es[k] < |plan| && plan[es[k]].Some? && es[k] < t <= plan[es[k]].value
  }

  /** Nothing takeable is skipped: a bar is entered exactly when no open position covers it. */
  lemma {:induction false} EntriesAreComplete(plan: Plan, i: nat, t: nat)
    requires ValidPlan(plan) && i <= t && t + 1 < |plan| && plan[t].Some?
    ensures t in Entries(plan, i) <==> !Covered(plan, Entries(plan, i), t)
    decreases |plan| - i
  {
    if plan[i].None? {
      EntriesAreComplete(plan, i + 1, t);
    } else {
      var rest := Entries(plan, plan[i].value + 1);
      EntriesArePlanned(plan, plan[i].value + 1);
      if t > plan[i].value {
        EntriesAreComplete(plan, plan[i].value + 1, t);
        EarlierEntryIsApart(plan, i, rest, t);
      } else if t > i {
        assert ([i] + rest)[0] == i;
      } else {
        FirstEntryIsUncovered(plan, t, rest);
      }
    }
  }

  lemma EarlierEntryIsApart(plan: Plan, i: nat, rest: seq<nat>, t: nat)
    requires ValidPlan(plan) && i < |plan| && plan[i].Some? && plan[i].value < t
    ensures t in [i] + rest <==> t in rest
    ensures Covered(plan, [i] + rest, t) <==> Covered(plan, rest, t)
  {
    if Covered(plan, rest, t) {
      var k :| 0 <= k < |rest| && rest[k] < |plan| && plan[rest[k]].Some? && rest[k] < t <= plan[rest[k]].value;
      assert ([i] + rest)[k + 1] == rest[k];
    }
  }

  lemma FirstEntryIsUncovered(plan: Plan, t: nat, rest: seq<nat>)
    requires forall k | 0 <= k < |rest| :: t < rest[k]
    ensures t in [t] + rest && !Covered(plan, [t] + rest, t)
  {
  }

  /** The short plan is what the long plan says, wherever the short run had the bars to know. */
  ghost predicate Foreshadows(short: Plan, long: Plan) {
    && |short| <= |long|
    && forall i | 0 <= i < |short| - 1 ::
         && short[i].Some? == long[i].Some?
         && (short[i].Some? && short[i].value < |short| - 1 ==> long[i] == short[i])
  }

  /** Bars yet to come change no entry up to and including the first position still open on the
      short run's last bar. */
  lemma {:induction false} EntriesAreCausal(short: Plan, long: Plan, i: nat)
    requires ValidPlan(short) && ValidPlan(long) && Foreshadows(short, long)
    ensures Entries(short, i) <= Entries(long, i)
    decreases |short| - i
  {
    if i + 1 < |short| && short[i].None? {
      EntriesAreCausal(short, long, i + 1);
    } else if i + 1 < |short| {
      if short[i].value < |short| - 1 {
        EntriesAreCausal(short, long, short[i].value + 1);
      } else {
        assert Entries(short, short[i].value + 1) == [];
      }
    }
  }
}
