/** Two series on which the DeMark machine (tools/demark_search.py) does what its description does not say:
    thirteen falling closes, `gap` rising ones, then a flat market. */
module DeMarkCases {
  import opened Prelude
  import opened DeMark

  const SETUP: nat := 12

  function Close(gap: nat, t: nat): real {
    if t <= SETUP then 100.0 - t as real else if t <= SETUP + gap then 100.0 + t as real else 50.0
  }

  /** The closes, inside bars wide enough that none cancels. */
  function Series(gap: nat): (x: Bars)
    ensures x.Valid() && |x.c| == SETUP + gap + 13
    ensures forall t: nat | t < |x.c| :: x.c[t] == Close(gap, t) && x.h[t] == 1000.0 && x.l[t] == 0.0
  {
    var n := SETUP + gap + 13;
    Bars(seq(n, _ => 1000.0), seq(n, _ => 0.0), seq(n, t requires 0 <= t < n => Close(gap, t)))
  }

  /** A bar's streak is that many bars continuing the move, of which v is one. */
  lemma {:induction false} StreakContinues(x: Bars, buy: bool, t: nat, v: nat)
    requires x.Valid() && v <= t < |x.c| && t < v + Streak(x, buy, t)
    ensures v >= 4 && Continues(x, buy, v)
  {
    if v < t {
      StreakContinues(x, buy, t - 1, v);
    }
  }

  lemma SetupNeedsNine(x: Bars, buy: bool, u: nat, v: nat)
    requires x.Valid() && u < |x.c| && IsSetup(x, buy, u) && u < v + SETUP_LEN && v <= u
    ensures v >= 4 && Continues(x, buy, v)
  {
    if v < u {
      StreakContinues(x, buy, u - 1, v);
    }
  }

  lemma {:induction false} FallingStreak(gap: nat, t: nat)
    requires 3 <= t < SETUP
    ensures Streak(Series(gap), true, t) == t - 3
  {
    if t > 3 {
      FallingStreak(gap, t - 1);
    }
  }

  lemma {:induction false} RisingStreak(gap: nat, t: nat)
    requires gap >= 8 && SETUP <= t <= SETUP + 8
    ensures Streak(Series(gap), false, t) == t - SETUP
  {
    if t > SETUP {
      RisingStreak(gap, t - 1);
    }
  }

  lemma NoLaterSetup(gap: nat, u: nat)
    requires (gap == 0 || gap == 9) && SETUP < u < SETUP + gap + 13
    ensures !IsSetup(Series(gap), true, u)
  {
    var x := Series(gap);
    FallingStreak(gap, SETUP - 1);
    if IsSetup(x, true, u) {
      SetupsAreNineApart(x, true, SETUP, u);
      SetupNeedsNine(x, true, u, if u >= SETUP + gap + 5 then u else SETUP + gap);
      assert false;
    }
  }

  lemma {:induction false} LatestIsTheFirst(gap: nat, t: nat)
    requires (gap == 0 || gap == 9) && SETUP <= t < SETUP + gap + 13
    ensures LatestSetup(Series(gap), true, t) == SETUP
  {
    if t == SETUP {
      FallingStreak(gap, SETUP - 1);
    } else {
      NoLaterSetup(gap, t);
      LatestIsTheFirst(gap, t - 1);
    }
  }

  lemma {:induction false} CountsAfter(gap: nat, t: nat)
    requires SETUP <= t < SETUP + gap + 13
    ensures Count(Series(gap), true, SETUP, t) == if t <= SETUP + gap then 1 else 1 + (t - SETUP - gap)
    ensures Counted(Series(gap), true, SETUP, t) <==> t == SETUP || t > SETUP + gap
  {
    var x := Series(gap);
    assert Intersects(x, true, SETUP);
    if t > SETUP {
      CountsAfter(gap, t - 1);
    } else {
      assert Count(x, true, SETUP, SETUP - 1) == 0;
    }
  }

  lemma NothingCancels(gap: nat, t: nat)
    requires t < SETUP + gap + 13
    ensures gap <= 800 ==> Intact(Series(gap), true, SETUP, t)
  {
    MaxOverIsTheMaximum(Series(gap).h, SETUP - SETUP_LEN + 1, SETUP);
  }

  lemma SignalsAtTheEnd(gap: nat)
    requires gap == 0 || gap == 9
    ensures LatestSetup(Series(gap), true, SETUP + gap + 12) == SETUP
    ensures IsSignal(Series(gap), true, SETUP + gap + 12)
  {
    LatestIsTheFirst(gap, SETUP + gap + 12);
    CountsAfter(gap, SETUP + gap + 12);
    NothingCancels(gap, SETUP + gap + 12);
  }

  /** A countdown may count its own setup bar, and then ends twelve bars after it, not thirteen. */
  lemma SignalTwelveBarsAfterItsSetup()
    ensures var x := Series(0);
      LatestSetup(x, true, SETUP + 12) == SETUP && IsSetup(x, true, SETUP) && IsSignal(x, true, SETUP + 12)
  {
    SignalsAtTheEnd(0);
    FallingStreak(0, SETUP - 1);
  }

  /** A completed setup of the opposite side leaves a countdown alive: here a sell setup completes between a
      buy setup and the buy signal it goes on to give. */
  lemma OpposingSetupDoesNotCancel()
    ensures var x := Series(9);
      && IsSetup(x, true, SETUP) && LatestSetup(x, true, SETUP + 21) == SETUP
      && IsSetup(x, false, SETUP + 9)
      && IsSignal(x, true, SETUP + 21)
  {
    SignalsAtTheEnd(9);
    FallingStreak(9, SETUP - 1);
    RisingStreak(9, SETUP + 8);
  }
}
