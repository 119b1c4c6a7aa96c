/** DeMark's sequential machine (tools/demark_search.py): a nine-bar setup, an arming intersection, a
    thirteen-bar countdown and its cancellation. The loop is proved against definitions that say,
    bar by bar and without any machine state, what a setup and a signal are. */
module DeMark {
  import opened Prelude

  const SETUP_LEN: nat := 9
  const COUNTDOWN_LEN: nat := 13

  datatype Bars = Bars(h: seq<real>, l: seq<real>, c: seq<real>) {
    ghost predicate Valid() {
      |h| == |l| == |c|
    }
  }

  // ------------------------------------------------------------ setups

  predicate Continues(x: Bars, buy: bool, t: nat)
    requires x.Valid() && 4 <= t < |x.c|
  {
    if buy then x.c[t] < x.c[t - 4] else x.c[t] > x.c[t - 4]
  }

  /** The count the machine holds after bar t: bars continuing the move since the last that did not,
      or since the last setup completed. */
  function Streak(x: Bars, buy: bool, t: nat): (r: nat)
    requires x.Valid() && t < |x.c|
    ensures r < SETUP_LEN && (r > 0 ==> r + 3 <= t)
  {
    if t < 4 || !Continues(x, buy, t) || Streak(x, buy, t - 1) + 1 == SETUP_LEN then 0
    else Streak(x, buy, t - 1) + 1
  }

  predicate IsSetup(x: Bars, buy: bool, t: nat)
    requires x.Valid() && t < |x.c|
  {
    t >= 4 && Continues(x, buy, t) && Streak(x, buy, t - 1) + 1 == SETUP_LEN
  }

  /** The last setup completed by bar t, or -1. */
  function LatestSetup(x: Bars, buy: bool, t: nat): (s: int)
    requires x.Valid() && t < |x.c|
    ensures s == -1 || (12 <= s <= t && IsSetup(x, buy, s))
    ensures forall u | 0 <= u <= t && u > s :: !IsSetup(x, buy, u)
  {
    if IsSetup(x, buy, t) then t else if t == 0 then -1 else LatestSetup(x, buy, t - 1)
  }

  // ------------------------------------------------------------ countdowns

  /** Bar t closes beyond the extreme of the nine bars of setup s. */
  predicate Cancels(x: Bars, buy: bool, s: nat, t: nat)
    requires x.Valid() && SETUP_LEN - 1 <= s <= t < |x.c|
  {
    if buy then x.c[t] > MaxOver(x.h, s - SETUP_LEN + 1, s) else x.c[t] < MinOver(x.l, s - SETUP_LEN + 1, s)
  }

  predicate Intact(x: Bars, buy: bool, s: nat, t: int)
    requires x.Valid() && SETUP_LEN - 1 <= s && t < |x.c|
  {
    forall u | s <= u <= t :: !Cancels(x, buy, s, u)
  }

  predicate Intersects(x: Bars, buy: bool, t: nat)
    requires x.Valid() && 3 <= t < |x.c|
  {
    if buy then x.h[t] >= x.l[t - 3] else x.l[t] <= x.h[t - 3]
  }

  predicate Armed(x: Bars, buy: bool, s: nat, t: int)
    requires x.Valid() && 3 <= s && t < |x.c|
  {
    exists u | s <= u <= t :: Intersects(x, buy, u)
  }

  predicate Hit(x: Bars, buy: bool, t: nat)
    requires x.Valid() && 2 <= t < |x.c|
  {
    if buy then x.c[t] <= x.c[t - 2] else x.c[t] >= x.c[t - 2]
  }

  /** Bar t is one of setup s's counted bars. */
  predicate Counted(x: Bars, buy: bool, s: nat, t: nat)
    requires x.Valid() && 3 <= s <= t < |x.c|
  {
    Armed(x, buy, s, t) && Hit(x, buy, t)
  }

  /** Counted bars from the setup through t. */
  function Count(x: Bars, buy: bool, s: nat, t: int): (n: nat)
    requires x.Valid() && 3 <= s && t < |x.c|
    ensures n <= if t < s then 0 else t - s + 1
    decreases t
  {
    if t < s then 0 else Count(x, buy, s, t - 1) + if Counted(x, buy, s, t) then 1 else 0
  }

  /** Bar t is the thirteenth counted bar of the latest setup, which no close has cancelled. */
  predicate IsSignal(x: Bars, buy: bool, t: nat)
    requires x.Valid() && t < |x.c|
  {
    var s := LatestSetup(x, buy, t);
    s >= 0 && Intact(x, buy, s, t) && Counted(x, buy, s, t) && Count(x, buy, s, t) == COUNTDOWN_LEN
  }

  function SetupsBelow(x: Bars, buy: bool, n: nat): seq<nat>
    requires x.Valid() && n <= |x.c|
  {
    if n == 0 then [] else SetupsBelow(x, buy, n - 1) + if IsSetup(x, buy, n - 1) then [n - 1] else []
  }

  function SignalsBelow(x: Bars, buy: bool, n: nat): seq<nat>
    requires x.Valid() && n <= |x.c|
  {
    if n == 0 then [] else SignalsBelow(x, buy, n - 1) + if IsSignal(x, buy, n - 1) then [n - 1] else []
  }

  // ------------------------------------------------------------ the machine

  /** The variables of a live countdown. */
  datatype Countdown = Countdown(live: bool, cd: nat, armed: bool, setupEnd: int, setupHigh: real, setupLow: real)

  /** What they mean, for setup s (or -1), once every bar before t has been counted. */
  ghost predicate Tracks(x: Bars, buy: bool, s: int, t: nat, k: Countdown)
    requires x.Valid() && t <= |x.c| && (s == -1 || SETUP_LEN - 1 <= s < |x.c|)
  {
    && (k.live <==> s >= 0 && Intact(x, buy, s, t - 1) && Count(x, buy, s, t - 1) < COUNTDOWN_LEN)
    && (k.live ==>
          && k.setupEnd == s && k.armed == Armed(x, buy, s, t - 1) && k.cd == Count(x, buy, s, t - 1)
          && k.setupHigh == MaxOver(x.h, s - SETUP_LEN + 1, s)
          && k.setupLow == MinOver(x.l, s - SETUP_LEN + 1, s))
  }

  /** Everything the loop holds once every bar before t has been seen. */
  ghost predicate Reached(x: Bars, buy: bool, t: nat, setups: seq<nat>, signals: seq<nat>, count: nat, k: Countdown)
    requires x.Valid() && 4 <= t <= |x.c|
  {
    && setups == SetupsBelow(x, buy, t) && signals == SignalsBelow(x, buy, t)
    && count == Streak(x, buy, t - 1)
    && Tracks(x, buy, LatestSetup(x, buy, t - 1), t, k)
  }

  method Sequential(x: Bars, buy: bool) returns (setups: seq<nat>, signals: seq<nat>)
    requires x.Valid()
    ensures setups == SetupsBelow(x, buy, |x.c|)
    ensures signals == SignalsBelow(x, buy, |x.c|)
    // in the prices: setups end runs of nine, signals end thirteen-counts
    ensures AreRead(x, buy, setups, signals)
  {
    BelowAreRead(x, buy);
    var n := |x.c|;
    setups, signals := [], [];
    NothingBeforeBarFour(x, buy, if n < 4 then n else 4);
    if n < 4 {
      return;
    }
    var count := 0;
    var k := Countdown(false, 0, false, -1, 0.0, 0.0);   // the extremes are infinite in the source
    for t := 4 to n
      invariant Reached(x, buy, t, setups, signals, count, k)
    {
      setups, signals, count, k := MachineBar(x, buy, t, setups, signals, count, k);
    }
  }

  /** The loop body: a setup may complete, then a live countdown sees the bar. */
  method MachineBar(x: Bars, buy: bool, t: nat, setups0: seq<nat>, signals0: seq<nat>, count0: nat, k0: Countdown)
    returns (setups: seq<nat>, signals: seq<nat>, count: nat, k: Countdown)
    requires x.Valid() && 4 <= t < |x.c| && Reached(x, buy, t, setups0, signals0, count0, k0)
    ensures Reached(x, buy, t + 1, setups, signals, count, k)
  {
    setups, signals := setups0, signals0;
    var completed, fired;
    count, completed, k := SetupBar(x, buy, t, count0, k0);
    k, fired := CountdownBar(x, buy, t, k);
    if completed {
      setups := setups + [t];
    }
    if fired {
      signals := signals + [t];
    }
    BelowNext(x, buy, t);
  }

  lemma BelowNext(x: Bars, buy: bool, t: nat)
    requires x.Valid() && t < |x.c|
    ensures SetupsBelow(x, buy, t + 1)
         == if IsSetup(x, buy, t) then SetupsBelow(x, buy, t) + [t] else SetupsBelow(x, buy, t)
    ensures SignalsBelow(x, buy, t + 1)
         == if IsSignal(x, buy, t) then SignalsBelow(x, buy, t) + [t] else SignalsBelow(x, buy, t)
  {
  }

  /** The setup part of the loop body. */
  method SetupBar(x: Bars, buy: bool, t: nat, count0: nat, k0: Countdown)
    returns (count: nat, completed: bool, k: Countdown)
    requires x.Valid() && 4 <= t < |x.c|
    requires count0 == Streak(x, buy, t - 1)
    requires Tracks(x, buy, LatestSetup(x, buy, t - 1), t, k0)
    ensures count == Streak(x, buy, t)
    ensures completed == IsSetup(x, buy, t)
    ensures Tracks(x, buy, LatestSetup(x, buy, t), t, k)
  {
    count, completed, k := count0, false, k0;
    var cond := if buy then x.c[t] < x.c[t - 4] else x.c[t] > x.c[t - 4];
    count := if cond then count + 1 else 0;
    if count == SETUP_LEN {
      completed := true;
      var lo := t - SETUP_LEN + 1;
      k := Countdown(true, 0, false, t, MaxOver(x.h, lo, t), MinOver(x.l, lo, t));
      count := 0;
    }
  }

  /** Cancellation, intersection and countdown: the rest of the loop body. */
  method CountdownBar(x: Bars, buy: bool, t: nat, k0: Countdown) returns (k: Countdown, fired: bool)
    requires x.Valid() && 4 <= t < |x.c|
    requires Tracks(x, buy, LatestSetup(x, buy, t), t, k0)
    ensures fired == IsSignal(x, buy, t)
    ensures Tracks(x, buy, LatestSetup(x, buy, t), t + 1, k)
  {
    k, fired := k0, false;
    ghost var s := LatestSetup(x, buy, t);
    if s >= 0 {
      OneMoreBar(x, buy, s, t);
    }
    if !k.live {
      return;
    }
    if (buy && x.c[t] > k.setupHigh) || (!buy && x.c[t] < k.setupLow) {
      k := k.(live := false);
      return;
    }
    if !k.armed && t >= k.setupEnd - 1 && t >= 3 {
      if (buy && x.h[t] >= x.l[t - 3]) || (!buy && x.l[t] <= x.h[t - 3]) {
        k := k.(armed := true);
      }
    }
    if !k.armed {
      return;
    }
    var hit := if buy then x.c[t] <= x.c[t - 2] else x.c[t] >= x.c[t - 2];
    if hit {
      k := k.(cd := k.cd + 1);
      if k.cd == COUNTDOWN_LEN {
        fired := true;
        k := k.(live := false);
      }
    }
  }

  /** How one more bar extends what is known of setup s. */
  lemma OneMoreBar(x: Bars, buy: bool, s: nat, t: nat)
    requires x.Valid() && SETUP_LEN - 1 <= s <= t < |x.c|
    ensures Intact(x, buy, s, t) <==> Intact(x, buy, s, t - 1) && !Cancels(x, buy, s, t)
    ensures Armed(x, buy, s, t) <==> Armed(x, buy, s, t - 1) || Intersects(x, buy, t)
    ensures Count(x, buy, s, t) == Count(x, buy, s, t - 1) + if Counted(x, buy, s, t) then 1 else 0
  {
  }

  lemma {:induction false} NothingBeforeBarFour(x: Bars, buy: bool, n: nat)
    requires x.Valid() && n <= |x.c| && n <= 4
    ensures SetupsBelow(x, buy, n) == [] && SignalsBelow(x, buy, n) == []
    ensures n > 0 ==> LatestSetup(x, buy, n - 1) == -1
  {
    if n > 0 {
      NothingBeforeBarFour(x, buy, n - 1);
    }
  }

  // ------------------------------------------------------------ what the definitions imply

  /** How many bars in a row, ending at t, continue the move; nothing resets this one. */
  function Run(x: Bars, buy: bool, t: nat): nat
    requires x.Valid() && t < |x.c|
  {
    if t < 4 || !Continues(x, buy, t) then 0 else Run(x, buy, t - 1) + 1
  }

  /** Setups are every ninth bar of an unbroken run. */
  lemma {:induction false} SetupsAreEveryNinth(x: Bars, buy: bool, t: nat)
    requires x.Valid() && t < |x.c|
    ensures Streak(x, buy, t) == Run(x, buy, t) % SETUP_LEN
    ensures IsSetup(x, buy, t) <==> Run(x, buy, t) > 0 && Run(x, buy, t) % SETUP_LEN == 0
  {
    if t >= 4 {
      SetupsAreEveryNinth(x, buy, t - 1);
      NextRemainder(Run(x, buy, t - 1));
    }
  }

  lemma NextRemainder(run: nat)
    ensures (run + 1) % SETUP_LEN == if run % SETUP_LEN == SETUP_LEN - 1 then 0 else run % SETUP_LEN + 1
  {
  }

  /** Over d bars a streak grows by at most d. */
  lemma {:induction false} StreakGrowsByBars(x: Bars, buy: bool, s: nat, d: nat)
    requires x.Valid() && s + d < |x.c|
    ensures Streak(x, buy, s + d) <= Streak(x, buy, s) + d
  {
    if d > 0 {
      StreakGrowsByBars(x, buy, s, d - 1);
    }
  }

  lemma SetupsAreNineApart(x: Bars, buy: bool, s: nat, t: nat)
    requires x.Valid() && s < t < |x.c| && IsSetup(x, buy, s) && IsSetup(x, buy, t)
    ensures t - s >= SETUP_LEN
  {
    StreakGrowsByBars(x, buy, s, t - 1 - s);
  }

  /** A signal comes at least twelve bars after its latest setup, with exactly thirteen counted bars
      and no cancelling close in between. */
  lemma SignalFollowsItsSetup(x: Bars, buy: bool, t: nat)
    requires x.Valid() && t < |x.c| && IsSignal(x, buy, t)
    ensures var s := LatestSetup(x, buy, t);
      && 12 <= s && s + (COUNTDOWN_LEN - 1) <= t && IsSetup(x, buy, s)
      && (forall u | s < u <= t :: !IsSetup(x, buy, u))
      && (forall u | s <= u <= t :: !Cancels(x, buy, s, u))
      && |CountedBars(x, buy, s, t)| == COUNTDOWN_LEN
  {
    CountIsASize(x, buy, LatestSetup(x, buy, t), t);
  }

  /** The counted bars of a countdown. */
  ghost function CountedBars(x: Bars, buy: bool, s: nat, t: int): set<nat>
    requires x.Valid() && 3 <= s && t < |x.c|
  {
    set u: nat | s <= u <= t && Counted(x, buy, s, u)
  }

  lemma {:induction false} CountIsASize(x: Bars, buy: bool, s: nat, t: int)
    requires x.Valid() && 3 <= s && t < |x.c|
    ensures |CountedBars(x, buy, s, t)| == Count(x, buy, s, t)
    decreases t
  {
    if t < s {
      assert CountedBars(x, buy, s, t) == {};
    } else {
      CountIsASize(x, buy, s, t - 1);
      CountedBarsNext(x, buy, s, t);
    }
  }

  lemma CountedBarsNext(x: Bars, buy: bool, s: nat, t: nat)
    requires x.Valid() && 3 <= s <= t < |x.c|
    ensures t !in CountedBars(x, buy, s, t - 1)
    ensures CountedBars(x, buy, s, t)
         == if Counted(x, buy, s, t) then CountedBars(x, buy, s, t - 1) + {t} else CountedBars(x, buy, s, t - 1)
  {
  }

  lemma {:induction false} CountGrows(x: Bars, buy: bool, s: nat, t: nat, t': nat)
    requires x.Valid() && 3 <= s <= t <= t' < |x.c|
    ensures Count(x, buy, s, t) <= Count(x, buy, s, t')
    decreases t'
  {
    if t < t' {
      CountGrows(x, buy, s, t, t' - 1);
    }
  }

  /** One setup fires at most once: between any two signals a setup completes. */
  lemma SetupBetweenSignals(x: Bars, buy: bool, t: nat, t': nat)
    requires x.Valid() && t < t' < |x.c| && IsSignal(x, buy, t) && IsSignal(x, buy, t')
    ensures t < LatestSetup(x, buy, t') < t' && IsSetup(x, buy, LatestSetup(x, buy, t'))
  {
    var s := LatestSetup(x, buy, t');
    SignalFollowsItsSetup(x, buy, t');
    if s <= t {
      LatestIsUnique(x, buy, s, t);
      CountGrows(x, buy, s, t, t' - 1);
    }
  }

  lemma LatestIsUnique(x: Bars, buy: bool, s: nat, t: nat)
    requires x.Valid() && s <= t < |x.c| && IsSetup(x, buy, s)
    requires forall u | s < u <= t :: !IsSetup(x, buy, u)
    ensures LatestSetup(x, buy, t) == s
  {
  }

  // ------------------------------------------------------------ the mirror

  function Negated(s: seq<real>): (r: seq<real>)
    ensures |r| == |s| && forall k | 0 <= k < |s| :: r[k] == -s[k]
  {
    seq(|s|, k requires 0 <= k < |s| => -s[k])
  }

  /** Prices negated, highs and lows exchanged. */
  function Mirror(x: Bars): (r: Bars)
    ensures x.Valid() ==> r.Valid() && |r.c| == |x.c|
  {
    Bars(Negated(x.l), Negated(x.h), Negated(x.c))
  }

  lemma {:induction false} ExtremesMirror(s: seq<real>, lo: nat, hi: nat)
    requires lo <= hi < |s|
    ensures MaxOver(Negated(s), lo, hi) == -MinOver(s, lo, hi)
    ensures MinOver(Negated(s), lo, hi) == -MaxOver(s, lo, hi)
    decreases hi
  {
    if lo < hi {
      ExtremesMirror(s, lo, hi - 1);
    }
  }

  lemma {:induction false} SetupsMirror(x: Bars, t: nat)
    requires x.Valid() && t < |x.c|
    ensures Streak(x, false, t) == Streak(Mirror(x), true, t)
    ensures IsSetup(x, false, t) == IsSetup(Mirror(x), true, t)
    ensures LatestSetup(x, false, t) == LatestSetup(Mirror(x), true, t)
  {
    if t > 0 {
      SetupsMirror(x, t - 1);
    }
  }

  lemma BarMirrors(x: Bars, s: nat, t: nat)
    requires x.Valid() && SETUP_LEN - 1 <= s <= t < |x.c|
    ensures Cancels(x, false, s, t) == Cancels(Mirror(x), true, s, t)
    ensures Intersects(x, false, t) == Intersects(Mirror(x), true, t)
    ensures Hit(x, false, t) == Hit(Mirror(x), true, t)
  {
    ExtremesMirror(x.l, s - SETUP_LEN + 1, s);
  }

  lemma WindowsMirror(x: Bars, s: nat, t: int)
    requires x.Valid() && SETUP_LEN - 1 <= s && t < |x.c|
    ensures Intact(x, false, s, t) == Intact(Mirror(x), true, s, t)
    ensures Armed(x, false, s, t) == Armed(Mirror(x), true, s, t)
  {
    forall u: nat | s <= u <= t
      ensures Cancels(x, false, s, u) == Cancels(Mirror(x), true, s, u)
      ensures Intersects(x, false, u) == Intersects(Mirror(x), true, u)
    {
      BarMirrors(x, s, u);
    }
  }

  lemma CountedMirrors(x: Bars, s: nat, t: nat)
    requires x.Valid() && SETUP_LEN - 1 <= s <= t < |x.c|
    ensures Counted(x, false, s, t) == Counted(Mirror(x), true, s, t)
  {
    WindowsMirror(x, s, t);
    BarMirrors(x, s, t);
  }

  lemma {:induction false} CountsMirror(x: Bars, s: nat, t: int)
    requires x.Valid() && SETUP_LEN - 1 <= s && t < |x.c|
    ensures Count(x, false, s, t) == Count(Mirror(x), true, s, t)
    decreases t
  {
    if s <= t {
      CountsMirror(x, s, t - 1);
      CountedMirrors(x, s, t);
    }
  }

  lemma SignalMirrors(x: Bars, t: nat)
    requires x.Valid() && t < |x.c|
    ensures IsSignal(x, false, t) == IsSignal(Mirror(x), true, t)
  {
    SetupsMirror(x, t);
    var s := LatestSetup(x, false, t);
    if s >= 0 {
      WindowsMirror(x, s, t);
      CountsMirror(x, s, t);
      BarMirrors(x, s, t);
    }
  }

  lemma {:induction false} SellSetupsMirrorBuy(x: Bars, n: nat)
    requires x.Valid() && n <= |x.c|
    ensures SetupsBelow(x, false, n) == SetupsBelow(Mirror(x), true, n)
  {
    if n > 0 {
      SellSetupsMirrorBuy(x, n - 1);
      SetupsMirror(x, n - 1);
    }
  }

  lemma {:induction false} SellSignalsMirrorBuy(x: Bars, n: nat)
    requires x.Valid() && n <= |x.c|
    ensures SignalsBelow(x, false, n) == SignalsBelow(Mirror(x), true, n)
  {
    if n > 0 {
      SellSignalsMirrorBuy(x, n - 1);
      SignalMirrors(x, n - 1);
    }
  }

  /** The sell machine is the buy machine on the mirrored market. */
  lemma SellMirrorsBuy(x: Bars, n: nat)
    requires x.Valid() && n <= |x.c|
    ensures SetupsBelow(x, false, n) == SetupsBelow(Mirror(x), true, n)
    ensures SignalsBelow(x, false, n) == SignalsBelow(Mirror(x), true, n)
  {
    SellSetupsMirrorBuy(x, n);
    SellSignalsMirrorBuy(x, n);
  }

  // ------------------------------------------------------------ setups and signals, read off the prices

  /** A close beyond the one four bars before. */
  ghost predicate Extends(x: Bars, buy: bool, u: int)
    requires x.Valid() && u < |x.c|
  {
    u >= 4 && if buy then x.c[u] < x.c[u - 4] else x.c[u] > x.c[u - 4]
  }

  /** The n bars ending at t extend the move, and the bar before them does not. */
  ghost predicate RunOf(x: Bars, buy: bool, t: nat, n: nat)
    requires x.Valid() && t < |x.c|
  {
    (forall u: int | t - n < u <= t :: Extends(x, buy, u)) && !Extends(x, buy, t - n)
  }

  /** Bar t ends an unbroken run of nine bars, or eighteen, or any such number. */
  ghost predicate EndsNine(x: Bars, buy: bool, t: nat)
    requires x.Valid() && t < |x.c|
  {
    exists n: nat :: RunOf(x, buy, t, n) && n > 0 && n % 9 == 0
  }

  /** Bar u reaches the bar three before it. */
  ghost predicate Reaches(x: Bars, buy: bool, u: nat)
    requires x.Valid() && 3 <= u < |x.c|
  {
    if buy then x.h[u] >= x.l[u - 3] else x.l[u] <= x.h[u - 3]
  }

  /** A countdown from s counts bar u: a close at or beyond the one two before, once some bar from s on has
      reached back. */
  ghost predicate Counts(x: Bars, buy: bool, s: nat, u: nat)
    requires x.Valid() && 3 <= s <= u < |x.c|
  {
    && (if buy then x.c[u] <= x.c[u - 2] else x.c[u] >= x.c[u - 2])
    && exists v | s <= v <= u :: Reaches(x, buy, v)
  }

  ghost function Tally(x: Bars, buy: bool, s: nat, t: nat): set<nat>
    requires x.Valid() && 3 <= s && t < |x.c|
  {
    set u: nat | s <= u <= t && Counts(x, buy, s, u)
  }

  /** The close of bar u is within the highs, or the lows, of the nine bars ending at s. */
  ghost predicate Within(x: Bars, buy: bool, s: nat, u: nat)
    requires x.Valid() && 8 <= s <= u < |x.c|
  {
    exists v | s - 8 <= v <= s :: if buy then x.c[u] <= x.h[v] else x.c[u] >= x.l[v]
  }

  /** Bar t is the thirteenth bar counted since the latest setup, at s, with no close past its nine bars. */
  ghost predicate Thirteenth(x: Bars, buy: bool, s: nat, t: nat)
    requires x.Valid() && t < |x.c|
  {
    && 8 <= s <= t && EndsNine(x, buy, s) && (forall u | s < u <= t :: !EndsNine(x, buy, u))
    && (forall u | s <= u <= t :: Within(x, buy, s, u))
    && t in Tally(x, buy, s, t) && |Tally(x, buy, s, t)| == 13
  }

  ghost predicate Ascending(list: seq<nat>) {
    forall k, k' | 0 <= k < k' < |list| :: list[k] < list[k']
  }

  lemma {:induction false} RunIsUnbroken(x: Bars, buy: bool, t: nat)
    requires x.Valid() && t < |x.c|
    ensures RunOf(x, buy, t, Run(x, buy, t))
  {
    if Extends(x, buy, t) {
      RunIsUnbroken(x, buy, t - 1);
    }
  }

  lemma OneRunOnly(x: Bars, buy: bool, t: nat, n: nat, n': nat)
    requires x.Valid() && t < |x.c| && RunOf(x, buy, t, n) && RunOf(x, buy, t, n')
    ensures n == n'
  {
  }

  lemma SetupEndsNine(x: Bars, buy: bool, t: nat)
    requires x.Valid() && t < |x.c|
    ensures IsSetup(x, buy, t) <==> EndsNine(x, buy, t)
  {
    SetupsAreEveryNinth(x, buy, t);
    RunIsUnbroken(x, buy, t);
    forall n: nat | RunOf(x, buy, t, n) ensures n == Run(x, buy, t) {
      OneRunOnly(x, buy, t, n, Run(x, buy, t));
    }
  }

  lemma WithinIsIntact(x: Bars, buy: bool, s: nat, u: nat)
    requires x.Valid() && 8 <= s <= u < |x.c|
    ensures Within(x, buy, s, u) <==> !Cancels(x, buy, s, u)
  {
    MaxOverIsTheMaximum(x.h, s - 8, s);
    MinOverIsTheMinimum(x.l, s - 8, s);
  }

  lemma TallyIsCounted(x: Bars, buy: bool, s: nat, t: nat)
    requires x.Valid() && 3 <= s && t < |x.c|
    ensures Tally(x, buy, s, t) == CountedBars(x, buy, s, t)
  {
    forall u: nat | s <= u <= t ensures Counts(x, buy, s, u) <==> Counted(x, buy, s, u) {
      assert forall v | s <= v <= u :: Reaches(x, buy, v) == Intersects(x, buy, v);
    }
  }

  lemma LatestIsThirteenth(x: Bars, buy: bool, s: nat, t: nat)
    requires x.Valid() && 8 <= s <= t < |x.c| && s == LatestSetup(x, buy, t)
    ensures IsSignal(x, buy, t) <==> Thirteenth(x, buy, s, t)
  {
    forall u: nat | s <= u <= t
      ensures IsSetup(x, buy, u) <==> EndsNine(x, buy, u)
      ensures Within(x, buy, s, u) <==> !Cancels(x, buy, s, u)
    {
      SetupEndsNine(x, buy, u);
      WithinIsIntact(x, buy, s, u);
    }
    TallyIsCounted(x, buy, s, t);
    CountIsASize(x, buy, s, t);
  }

  lemma SignalIsThirteenth(x: Bars, buy: bool, t: nat)
    requires x.Valid() && t < |x.c|
    ensures IsSignal(x, buy, t) <==> exists s :: Thirteenth(x, buy, s, t)
  {
    var s := LatestSetup(x, buy, t);
    if s >= 0 {
      LatestIsThirteenth(x, buy, s, t);
    }
    forall s': nat | Thirteenth(x, buy, s', t) ensures s' == s {
      forall u: nat | s' <= u <= t ensures IsSetup(x, buy, u) <==> EndsNine(x, buy, u) {
        SetupEndsNine(x, buy, u);
      }
      LatestIsUnique(x, buy, s', t);
    }
  }

  lemma OneMoreAscends(list: seq<nat>, t: nat)
    requires Ascending(list) && forall u | u in list :: u < t
    ensures Ascending(list + [t])
  {
    assert forall k | 0 <= k < |list| :: list[k] in list;
  }

  lemma {:induction false} SetupsAreListed(x: Bars, buy: bool, n: nat)
    requires x.Valid() && n <= |x.c|
    ensures Ascending(SetupsBelow(x, buy, n))
    ensures forall t: nat :: t in SetupsBelow(x, buy, n) <==> t < n && IsSetup(x, buy, t)
  {
    if n > 0 {
      SetupsAreListed(x, buy, n - 1);
      OneMoreAscends(SetupsBelow(x, buy, n - 1), n - 1);
    }
  }

  lemma {:induction false} SignalsAreListed(x: Bars, buy: bool, n: nat)
    requires x.Valid() && n <= |x.c|
    ensures Ascending(SignalsBelow(x, buy, n))
    ensures forall t: nat :: t in SignalsBelow(x, buy, n) <==> t < n && IsSignal(x, buy, t)
  {
    if n > 0 {
      SignalsAreListed(x, buy, n - 1);
      OneMoreAscends(SignalsBelow(x, buy, n - 1), n - 1);
    }
  }

  /** The setups are the bars that end nine, and the signals the bars that end a thirteen-count. */
  ghost predicate AreRead(x: Bars, buy: bool, setups: seq<nat>, signals: seq<nat>)
    requires x.Valid()
  {
    && Ascending(setups) && (forall t: nat :: t in setups <==> t < |x.c| && EndsNine(x, buy, t))
    && Ascending(signals) && forall t: nat :: t in signals <==> t < |x.c| && exists s :: Thirteenth(x, buy, s, t)
  }

  lemma BelowAreRead(x: Bars, buy: bool)
    requires x.Valid()
    ensures AreRead(x, buy, SetupsBelow(x, buy, |x.c|), SignalsBelow(x, buy, |x.c|))
  {
    SetupsAreListed(x, buy, |x.c|);
    SignalsAreListed(x, buy, |x.c|);
    forall t: nat | t < |x.c|
      ensures IsSetup(x, buy, t) <==> EndsNine(x, buy, t)
      ensures IsSignal(x, buy, t) <==> exists s :: Thirteenth(x, buy, s, t)
    {
      SetupEndsNine(x, buy, t);
      SignalIsThirteenth(x, buy, t);
    }
  }
}
