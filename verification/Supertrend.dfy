/** The Supertrend direction series (tools/supertrend_search.py): two bands, ratcheted only on bars
    that cross neither, and the flip signal read off the direction. */
module Supertrend {
  import opened Prelude
  import Atr

  /** `atr` is None where numpy holds NaN; `upper` and `lower` are the raw bands around hl2. */
  datatype Input = Input(c: seq<real>, atr: seq<Option<real>>, upper: seq<real>, lower: seq<real>, length: nat)
  {
    ghost predicate Valid() {
      |c| == |atr| == |upper| == |lower|
    }

    function Live(i: nat): bool
      requires Valid() && i < |c|
    {
      atr[i].Some?
    }

    function RawUpper(i: nat): Option<real>
      requires Valid() && i < |c|
    {
      if Live(i) then Some(upper[i]) else None
    }

    function RawLower(i: nat): Option<real>
      requires Valid() && i < |c|
    {
      if Live(i) then Some(lower[i]) else None
    }
  }

  /** hl2 plus and minus a multiple of the ATR; a missing ATR leaves a placeholder nobody reads. */
  function Bands(h: seq<real>, l: seq<real>, c: seq<real>, atr: seq<Option<real>>, length: nat,
                 multiplier: real): (x: Input)
    requires |h| == |l| == |c| == |atr|
    ensures x.Valid()
  {
    var width := (i: nat) => if i < |atr| && atr[i].Some? then multiplier * atr[i].value else 0.0;
    Input(c, atr,
          seq(|c|, i requires 0 <= i < |c| => (h[i] + l[i]) / 2.0 + width(i)),
          seq(|c|, i requires 0 <= i < |c| => (h[i] + l[i]) / 2.0 - width(i)), length)
  }

  /** The direction at bar i and the two bands as the loop leaves them. */
  datatype State = State(dir: int, fu: Option<real>, fl: Option<real>)

  /** A comparison against NaN is false. */
  predicate Above(x: real, band: Option<real>) {
    band.Some? && x > band.value
  }

  predicate Below(x: real, band: Option<real>) {
    band.Some? && x < band.value
  }

  predicate Less(x: Option<real>, y: Option<real>) {
    x.Some? && y.Some? && x.value < y.value
  }

  function Step(x: Input, s: State, i: nat): State
    requires x.Valid() && i < |x.c|
  {
    var fu, fl := x.RawUpper(i), x.RawLower(i);
    if !x.Live(i) then State(s.dir, fu, fl)
    else if Above(x.c[i], s.fu) then State(1, fu, fl)
    else if Below(x.c[i], s.fl) then State(-1, fu, fl)
    else State(s.dir,
               if s.dir < 0 && Less(s.fu, fu) then s.fu else fu,
               if s.dir > 0 && Less(fl, s.fl) then s.fl else fl)
  }

  /** The first bar with a usable ATR, or |c|. */
  function Start(x: Input, i: nat): (r: nat)
    requires x.Valid() && i <= |x.c|
    ensures i <= r <= |x.c|
    ensures r < |x.c| ==> x.Live(r)
    decreases |x.c| - i
  {
    if i == |x.c| || x.Live(i) then i else Start(x, i + 1)
  }

  /** Seeded from the close at the far end of the warm-up window. */
  function Seed(x: Input, start: nat): int
    requires x.Valid() && start < |x.c|
  {
    var ref := if start >= x.length then start - x.length else 0;
    if x.c[start] >= x.c[ref] then 1 else -1
  }

  function At(x: Input, start: nat, i: nat): State
    requires x.Valid() && start <= i < |x.c|
    decreases i
  {
    if i == start then State(Seed(x, start), x.RawUpper(i), x.RawLower(i))
    else Step(x, At(x, start, i - 1), i)
  }

  /** The direction series; None is NaN, over the warm-up or when the series is too short. */
  function DirectionAt(x: Input, i: nat): Option<int>
    requires x.Valid() && i < |x.c|
  {
    var start := Start(x, 0);
    if start + 1 >= |x.c| || i < start then None else Some(At(x, start, i).dir)
  }

  method Direction(x: Input) returns (direction: array<Option<int>>)
    requires x.Valid()
    ensures fresh(direction) && direction.Length == |x.c|
    ensures forall i | 0 <= i < |x.c| :: direction[i] == DirectionAt(x, i)
    // without the bands the loop rewrites: each direction follows from the closes and the raw bands
    ensures IsRead(x, direction[..])
  {
    SeriesIsRead(x, seq(|x.c|, i requires 0 <= i < |x.c| => DirectionAt(x, i)));
    var n := |x.c|;
    direction := new Option<int>[n](_ => None);
    var fu := new Option<real>[n](i requires 0 <= i < n => x.RawUpper(i));
    var fl := new Option<real>[n](i requires 0 <= i < n => x.RawLower(i));
    var start := WarmUp(x);
    if start >= n - 1 {
      assert direction[..] == seq(|x.c|, i requires 0 <= i < |x.c| => DirectionAt(x, i));
      return;
    }
    direction[start] := Some(Seed(x, start));
    RatchetAll(x, start, direction, fu, fl);
    assert direction[..] == seq(|x.c|, i requires 0 <= i < |x.c| => DirectionAt(x, i));
  }

  method WarmUp(x: Input) returns (start: nat)
    requires x.Valid()
    ensures start == Start(x, 0)
  {
    start := 0;
    while start < |x.c| && x.atr[start].None?
      invariant start <= |x.c| && Start(x, 0) == Start(x, start)
    {
      start := start + 1;
    }
  }

  method RatchetAll(x: Input, start: nat, direction: array<Option<int>>, fu: array<Option<real>>,
                    fl: array<Option<real>>)
    requires start + 1 < |x.c| && Settled(x, start, start + 1, direction, fu, fl)
    modifies direction, fu, fl
    ensures Settled(x, start, |x.c|, direction, fu, fl)
  {
    for i := start + 1 to |x.c|
      invariant Settled(x, start, i, direction, fu, fl)
    {
      RatchetBar(x, start, i, direction, fu, fl);
    }
  }

  /** The three arrays with bars before i settled and the bands from i on still raw. */
  ghost predicate Settled(x: Input, start: nat, i: nat, direction: array<Option<int>>, fu: array<Option<real>>,
                          fl: array<Option<real>>)
    reads direction, fu, fl
  {
    && x.Valid() && start < i <= |x.c| && direction.Length == fu.Length == fl.Length == |x.c| && fu != fl
    && (forall u | 0 <= u < |x.c| :: direction[u] == if start <= u < i then Some(At(x, start, u).dir) else None)
    && fu[i - 1] == At(x, start, i - 1).fu && fl[i - 1] == At(x, start, i - 1).fl
    && forall u | i <= u < |x.c| :: fu[u] == x.RawUpper(u) && fl[u] == x.RawLower(u)
  }

  /** The loop body: turn on a cross, and otherwise hold each band where the trend left it. */
  method RatchetBar(x: Input, ghost start: nat, i: nat, direction: array<Option<int>>, fu: array<Option<real>>,
                    fl: array<Option<real>>)
    requires i < |x.c| && Settled(x, start, i, direction, fu, fl)
    modifies direction, fu, fl
    ensures Settled(x, start, i + 1, direction, fu, fl)
  {
    ghost var s := At(x, start, i - 1);
    if x.atr[i].None? {
      direction[i] := direction[i - 1];
    } else {
      var prev := direction[i - 1];
      if Above(x.c[i], fu[i - 1]) {
        direction[i] := Some(1);
      } else if Below(x.c[i], fl[i - 1]) {
        direction[i] := Some(-1);
      } else {
        direction[i] := prev;
        if prev.value > 0 && Less(fl[i], fl[i - 1]) {
          fl[i] := fl[i - 1];
        }
        if prev.value < 0 && Less(fu[i - 1], fu[i]) {
          fu[i] := fu[i - 1];
        }
      }
    }
    assert At(x, start, i) == Step(x, s, i);
  }

  // ------------------------------------------------------------ the closed form

  /** Bar i's bands are the raw ones: it is the first, it crossed a band, or nothing precedes it. */
  predicate Resets(x: Input, start: nat, i: nat)
    requires x.Valid() && start <= i < |x.c|
  {
    || i == start || !x.Live(i - 1)
    || Above(x.c[i], At(x, start, i - 1).fu) || Below(x.c[i], At(x, start, i - 1).fl)
  }

  /** The last bar up to i whose bands are raw. */
  function LastReset(x: Input, start: nat, i: nat): (b: nat)
    requires x.Valid() && start <= i < |x.c|
    ensures start <= b <= i && Resets(x, start, b)
    ensures forall u | b < u <= i :: !Resets(x, start, u)
    decreases i
  {
    if Resets(x, start, i) then i else LastReset(x, start, i - 1)
  }

  /** In an up trend the lower band is the highest raw lower band since the last reset and the upper
      band is raw; mirrored in a down trend. Every bar since that reset has an ATR and points the
      same way. */
  lemma {:induction false} BandsAreExtremesSinceReset(x: Input, start: nat, i: nat)
    requires x.Valid() && start <= i < |x.c| && x.Live(i)
    ensures var s, b := At(x, start, i), LastReset(x, start, i);
      && (s.dir == 1 || s.dir == -1)
      && (s.dir == 1 ==> s.fl == Some(MaxOver(x.lower, b, i)) && s.fu == Some(x.upper[i]))
      && (s.dir == -1 ==> s.fu == Some(MinOver(x.upper, b, i)) && s.fl == Some(x.lower[i]))
      && forall u | b <= u <= i :: x.Live(u) && At(x, start, u).dir == s.dir
    decreases i
  {
    DirectionIsUnit(x, start, i);
    if !Resets(x, start, i) {
      BandsAreExtremesSinceReset(x, start, i - 1);
    }
  }

  lemma {:induction false} DirectionIsUnit(x: Input, start: nat, i: nat)
    requires x.Valid() && start <= i < |x.c|
    ensures At(x, start, i).dir == 1 || At(x, start, i).dir == -1
    decreases i
  {
    if start < i {
      DirectionIsUnit(x, start, i - 1);
    }
  }

  /** The direction turns up exactly when the close clears the lowest raw upper band since the last
      reset, and down exactly when it breaks the highest raw lower band; a close beyond the band on
      the trend's own side turns nothing. */
  lemma DirectionTurnsOnlyOnOpposingBand(x: Input, start: nat, i: nat)
    requires x.Valid() && start < i < |x.c|
    ensures var s, s', b := At(x, start, i - 1), At(x, start, i), LastReset(x, start, i - 1);
      s'.dir != s.dir <==>
        && x.Live(i) && x.Live(i - 1)
        && (s.dir == -1 ==> x.c[i] > MinOver(x.upper, b, i - 1))
        && (s.dir == 1 ==> x.c[i] < MaxOver(x.lower, b, i - 1) && x.c[i] <= x.upper[i - 1])
  {
    DirectionIsUnit(x, start, i - 1);
    if x.Live(i - 1) {
      BandsAreExtremesSinceReset(x, start, i - 1);
    } else {
      GapHasNoBands(x, start, i - 1);
    }
  }

  /** The ratchet is not unconditional. Inside an up trend the lower band retreats exactly when the
      close clears the upper band, the trend's own side, and the raw band is lower than the one
      held; the upper band of a down trend is the mirror. */
  lemma BandRetreatsOnlyOnOwnSideCross(x: Input, start: nat, i: nat)
    requires x.Valid() && start < i < |x.c| && x.Live(i - 1) && x.Live(i)
    requires At(x, start, i - 1).dir == At(x, start, i).dir
    ensures var s, s', b := At(x, start, i - 1), At(x, start, i), LastReset(x, start, i - 1);
      && (s.dir == 1 ==> (Less(s'.fl, s.fl) <==>
            x.c[i] > x.upper[i - 1] && x.lower[i] < MaxOver(x.lower, b, i - 1)))
      && (s.dir == -1 ==> (Less(s.fu, s'.fu) <==>
            x.c[i] < x.lower[i - 1] && x.upper[i] > MinOver(x.upper, b, i - 1)))
  {
    BandsAreExtremesSinceReset(x, start, i - 1);
  }

  /** The whole indicator: the bands around hl2 at a multiple of the ATR over the same length. */
  function Indicator(h: seq<real>, l: seq<real>, c: seq<real>, length: nat, multiplier: real): (x: Input)
    requires |h| == |l| == |c| && length > 0
    ensures x.Valid()
  {
    Bands(h, l, c, Atr.AtrSeries(h, l, c, length), length, multiplier)
  }

  /** Three bars of prices whose up trend loses three units of its lower band on the close that clears its
      upper one: the band falls from 8 to 5. */
  lemma UpTrendBandCanRetreat()
    ensures var x := Indicator([10.5, 10.5, 14.0], [9.5, 9.5, 12.0], [10.0, 10.0, 13.0], 1, 2.0);
      && DirectionAt(x, 1) == Some(1) && DirectionAt(x, 2) == Some(1) && Start(x, 0) == 1
      && At(x, 1, 1).fl == Some(8.0) && At(x, 1, 2).fl == Some(5.0)
  {
    var h, l, c := [10.5, 10.5, 14.0], [9.5, 9.5, 12.0], [10.0, 10.0, 13.0];
    var x := Indicator(h, l, c, 1, 2.0);
    Atr.AtrIsWindowMean(h, l, c, 1, 1);
    Atr.AtrIsWindowMean(h, l, c, 1, 2);
    assert Atr.TrueRange(h, l, c, 1) == 1.0 && Atr.TrueRange(h, l, c, 2) == 4.0;
    assert x.atr == [None, Some(1.0), Some(4.0)];
    assert Start(x, 1) == 1;
    assert At(x, 1, 1) == State(1, Some(12.0), Some(8.0));
    assert At(x, 1, 2) == State(1, Some(21.0), Some(5.0));
  }

  lemma GapHasNoBands(x: Input, start: nat, i: nat)
    requires x.Valid() && start <= i < |x.c| && !x.Live(i)
    ensures At(x, start, i).fu == None && At(x, start, i).fl == None
  {
  }

  // ------------------------------------------------------------ the direction without the bands

  /** The last true flag up to i, or 0. */
  ghost function LastTrue(flags: seq<bool>, i: nat): (b: nat)
    requires i < |flags|
    ensures b <= i
  {
    if flags[i] || i == 0 then i else LastTrue(flags, i - 1)
  }

  /** The upper band a close has to clear after bar i: in a down trend the lowest since the bands were last
      reset, in an up trend bar i's own. */
  ghost function Ceiling(x: Input, dirs: seq<int>, b: nat, i: nat): real
    requires x.Valid() && b <= i < |x.c| == |dirs|
  {
    if dirs[i] < 0 then MinOver(x.upper, b, i) else x.upper[i]
  }

  /** The lower band it has to break. */
  ghost function Floor(x: Input, dirs: seq<int>, b: nat, i: nat): real
    requires x.Valid() && b <= i < |x.c| == |dirs|
  {
    if dirs[i] > 0 then MaxOver(x.lower, b, i) else x.lower[i]
  }

  /** Bar i after bar i - 1: over a gap in the ATR the direction stands; otherwise a close above the one band
      points it up, a close below the other down, and either resets the bands. */
  ghost predicate DirectionFollows(x: Input, dirs: seq<int>, resets: seq<bool>, i: nat)
    requires x.Valid() && 1 <= i < |x.c| == |dirs| == |resets|
  {
    if x.atr[i].None? then dirs[i] == dirs[i - 1]
    else if x.atr[i - 1].None? then dirs[i] == dirs[i - 1] && resets[i]
    else
      var b := LastTrue(resets, i - 1);
      var up, down := x.c[i] > Ceiling(x, dirs, b, i - 1), x.c[i] < Floor(x, dirs, b, i - 1);
      && (resets[i] <==> up || down)
      && dirs[i] == if up then 1 else if down then -1 else dirs[i - 1]
  }

  /** From the first bar with an ATR, seeded by the close at the other end of the warm-up. */
  ghost predicate IsDirection(x: Input, start: nat, dirs: seq<int>, resets: seq<bool>)
    requires x.Valid()
  {
    && start < |x.c| == |dirs| == |resets| && x.atr[start].Some? && resets[start]
    && (forall i | 0 <= i < start :: x.atr[i].None?)
    && dirs[start] == (if x.c[start] >= x.c[if start < x.length then 0 else start - x.length] then 1 else -1)
    && forall i | start < i < |x.c| :: DirectionFollows(x, dirs, resets, i)
  }

  /** The series a caller gets: nothing before the ATR starts, and nothing at all when it starts on the last bar
      or never does. */
  ghost predicate IsRead(x: Input, direction: seq<Option<int>>)
    requires x.Valid() && |direction| == |x.c|
  {
    if forall i | 0 <= i < |x.c| - 1 :: x.atr[i].None? then forall i | 0 <= i < |x.c| :: direction[i] == None
    else exists start, dirs, resets ::
      && IsDirection(x, start, dirs, resets)
      && forall i | 0 <= i < |x.c| :: direction[i] == if i < start then None else Some(dirs[i])
  }

  /** What the machine's states say of the witnesses. */
  ghost predicate AreStates(x: Input, start: nat, dirs: seq<int>, resets: seq<bool>)
    requires x.Valid() && start < |x.c|
  {
    && |dirs| == |resets| == |x.c|
    && (forall i {:trigger dirs[i]} | start <= i < |x.c| :: dirs[i] == At(x, start, i).dir)
    && forall i {:trigger resets[i]} | start <= i < |x.c| :: resets[i] == Resets(x, start, i)
  }

  lemma {:induction false} LastTrueIsLastReset(x: Input, start: nat, dirs: seq<int>, resets: seq<bool>, i: nat)
    requires x.Valid() && start <= i < |x.c| && AreStates(x, start, dirs, resets)
    ensures LastTrue(resets, i) == LastReset(x, start, i)
    decreases i
  {
    if !Resets(x, start, i) {
      LastTrueIsLastReset(x, start, dirs, resets, i - 1);
    }
  }

  lemma StateFollows(x: Input, start: nat, dirs: seq<int>, resets: seq<bool>, i: nat)
    requires x.Valid() && start < i < |x.c| && AreStates(x, start, dirs, resets)
    ensures DirectionFollows(x, dirs, resets, i)
  {
    if x.atr[i - 1].Some? {
      LastTrueIsLastReset(x, start, dirs, resets, i - 1);
      BandsAreExtremesSinceReset(x, start, i - 1);
    } else {
      GapHasNoBands(x, start, i - 1);
    }
  }

  lemma {:induction false} StartIsFirst(x: Input, i: nat)
    requires x.Valid() && i <= |x.c|
    ensures forall u | i <= u < Start(x, i) :: x.atr[u].None?
    decreases |x.c| - i
  {
    if i < |x.c| && !x.Live(i) {
      StartIsFirst(x, i + 1);
    }
  }

  lemma SeriesIsRead(x: Input, direction: seq<Option<int>>)
    requires x.Valid() && |direction| == |x.c| && forall i | 0 <= i < |x.c| :: direction[i] == DirectionAt(x, i)
    ensures IsRead(x, direction)
  {
    var n, start := |x.c|, Start(x, 0);
    StartIsFirst(x, 0);
    if start + 1 < n {
      var dirs := seq(n, i requires 0 <= i < n => if i < start then 0 else At(x, start, i).dir);
      var resets := seq(n, i requires 0 <= i < n => start <= i && Resets(x, start, i));
      assert AreStates(x, start, dirs, resets);
      forall i | start < i < n ensures DirectionFollows(x, dirs, resets, i) {
        StateFollows(x, start, dirs, resets, i);
      }
      assert IsDirection(x, start, dirs, resets);
    }
  }

  /** The two bands lie either side of the bar's middle, a multiple of the ATR away. */
  lemma BandsStraddleTheBar(h: seq<real>, l: seq<real>, c: seq<real>, atr: seq<Option<real>>, length: nat,
                            multiplier: real, i: nat)
    requires |h| == |l| == |c| == |atr| && i < |c| && atr[i].Some?
    ensures var x := Bands(h, l, c, atr, length, multiplier);
      && x.upper[i] + x.lower[i] == h[i] + l[i] && x.upper[i] - x.lower[i] == 2.0 * (multiplier * atr[i].value)
      && x.c == c && x.atr == atr && x.length == length
  {
  }

  // ------------------------------------------------------------ the flip signal

  /** Nonzero on the bar the direction turns: with the turn, or against it when inverted. */
  function Signal(x: Input, invert: bool, i: nat): int
    requires x.Valid() && i < |x.c|
  {
    if i == 0 then 0
    else
      var d, d' := DirectionAt(x, i - 1), DirectionAt(x, i);
      if d == Some(-1) && d' == Some(1) then if invert then -1 else 1
      else if d == Some(1) && d' == Some(-1) then if invert then 1 else -1
      else 0
  }

  /** A signal is the direction just turned to, or its opposite when inverted, and there is none without a turn. */
  lemma SignalIsTheTurn(x: Input, invert: bool, i: nat)
    requires x.Valid() && i < |x.c|
    ensures var turned := i > 0 && DirectionAt(x, i - 1).Some? && DirectionAt(x, i).Some?
                          && DirectionAt(x, i - 1) != DirectionAt(x, i);
      Signal(x, invert, i) == if !turned then 0
                              else if invert then -DirectionAt(x, i).value else DirectionAt(x, i).value
  {
    if i > 0 && DirectionAt(x, i - 1).Some? && DirectionAt(x, i).Some? {
      DirectionIsUnit(x, Start(x, 0), i - 1);
      DirectionIsUnit(x, Start(x, 0), i);
    }
  }

  /** With no signal in between, the direction the trend was left in is the one it is found in. */
  lemma {:induction false} QuietBarsKeepDirection(x: Input, invert: bool, i: nat, j: nat)
    requires x.Valid() && i <= j < |x.c| && DirectionAt(x, i).Some?
    requires forall u | i < u <= j :: Signal(x, invert, u) == 0
    ensures DirectionAt(x, j) == DirectionAt(x, i)
    decreases j
  {
    if i < j {
      QuietBarsKeepDirection(x, invert, i, j - 1);
      assert Signal(x, invert, j) == 0;
      DirectionIsUnit(x, Start(x, 0), j - 1);
      DirectionIsUnit(x, Start(x, 0), j);
    }
  }

  /** Consecutive signals alternate in sign. */
  lemma SignalsAlternate(x: Input, invert: bool, i: nat, j: nat)
    requires x.Valid() && i < j < |x.c|
    requires Signal(x, invert, i) != 0 && Signal(x, invert, j) != 0
    requires forall u | i < u < j :: Signal(x, invert, u) == 0
    ensures Signal(x, invert, j) == -Signal(x, invert, i)
  {
    QuietBarsKeepDirection(x, invert, i, j - 1);
  }
}
