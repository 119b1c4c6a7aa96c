/** The two-leg spread book (tools/pairs_search.py): a hedge ratio refitted on trailing prices, a
    z-score of the spread, and a hysteresis book that pays for turnover. */
module PairsSearch {
  import opened Prelude
  import opened LeastSquares

  // ------------------------------------------------------------ the signal

  /** Window lengths, and the standard deviation, which is left uninterpreted. */
  datatype Fit = Fit(fit: nat, look: nat, refit: nat, std: seq<real> -> real) {
    ghost predicate Valid() {
      fit > 0 && look > 0 && refit > 0
    }

    function Start(): nat {
      fit + look + 1
    }
  }

  /** The slope carried at bar t: refitted on schedule, or as long as there is none. */
  function Beta(pa: seq<real>, pb: seq<real>, f: Fit, t: nat): Option<real>
    requires |pa| == |pb| && t < |pa| && f.Valid()
  {
    if t < f.Start() then None
    else
      var before := Beta(pa, pb, f, t - 1);
      if before.None? || OnTheBeat(t - f.Start(), f.refit)
      then HedgeRatio(pa[t - f.fit - 1..t - 1], pb[t - f.fit - 1..t - 1])
      else before
  }

  /** The spread over a window, priced at one slope. */
  function History(a: seq<real>, b: seq<real>, beta: real): (h: seq<real>)
    requires |a| == |b|
    ensures |h| == |a|
  {
    seq(|a|, k requires 0 <= k < |a| => a[k] - beta * b[k])
  }

  /** z-score and slope, together or not at all. */
  datatype Reading = Reading(z: real, beta: real)

  /** The latest spread against the window of prices before it. */
  function Score(f: Fit, a: seq<real>, b: seq<real>, nowA: real, nowB: real, beta: real): Option<Reading>
    requires |a| == |b| > 0
  {
    var hist := History(a, b, beta);
    var sd := f.std(hist);
    if sd <= 0.0 then None else Some(Reading((nowA - beta * nowB - Mean(hist)) / sd, beta))
  }

  function ReadingAt(pa: seq<real>, pb: seq<real>, f: Fit, t: nat): Option<Reading>
    requires |pa| == |pb| && t < |pa| && f.Valid()
  {
    var beta := Beta(pa, pb, f, t);
    if t < f.Start() || beta.None? then None
    else Score(f, pa[t - f.look - 1..t - 1], pb[t - f.look - 1..t - 1], pa[t - 1], pb[t - 1], beta.value)
  }

  // ------------------------------------------------------------ the readings, read off the prices

  /** The slope carried at bar t: none before the windows fill; the best fit of the `fit` prices before the last
      one, every `refit` bars or while there is none; and otherwise the slope of the bar before. */
  ghost predicate SlopeFollows(pa: seq<real>, pb: seq<real>, f: Fit, betas: seq<Option<real>>, t: nat)
    requires |pa| == |pb| == |betas| && t < |pa| && f.Valid()
  {
    var start := f.fit + f.look + 1;
    if t < start then betas[t] == None
    else if betas[t - 1].None? || (t - start) % f.refit == 0 then
      IsSlope(pa[t - f.fit - 1..t - 1], pb[t - f.fit - 1..t - 1], betas[t])
    else betas[t] == betas[t - 1]
  }

  /** The latest spread is z standard deviations from the mean of the window. */
  ghost predicate IsScore(window: seq<real>, sd: real, latest: real, z: real) {
    exists mean :: IsMean(window, mean) && z * sd == latest - mean
  }

  ghost predicate IsMean(s: seq<real>, mean: real) {
    mean * |s| as real == Sum(s)
  }

  /** The spreads of n bars at one slope. */
  ghost function Spreads(pa: seq<real>, pb: seq<real>, beta: real, first: nat, n: nat): (s: seq<real>)
    requires first + n <= |pa| == |pb|
    ensures |s| == n && forall k | 0 <= k < n :: s[k] == pa[first + k] - beta * pb[first + k]
  {
    seq(n, k requires 0 <= k < n => pa[first + k] - beta * pb[first + k])
  }

  /** The reading at bar t, at the slope carried: of the last spread against the `look` spreads before it. */
  ghost predicate IsReading(pa: seq<real>, pb: seq<real>, f: Fit, betas: seq<Option<real>>, t: nat,
                            reading: Option<Reading>)
    requires |pa| == |pb| == |betas| && t < |pa| && f.Valid()
  {
    if t < f.fit + f.look + 1 || betas[t].None? then reading == None
    else
      var beta := betas[t].value;
      IsScored(f, Spreads(pa, pb, beta, t - f.look - 1, f.look), beta, pa[t - 1] - beta * pb[t - 1], reading)
  }

  /** None where the window's spreads do not deviate. */
  ghost predicate IsScored(f: Fit, window: seq<real>, beta: real, latest: real, reading: Option<Reading>) {
    if f.std(window) <= 0.0 then reading == None
    else reading.Some? && reading.value.beta == beta && IsScore(window, f.std(window), latest, reading.value.z)
  }

  ghost predicate AreReadings(pa: seq<real>, pb: seq<real>, f: Fit, betas: seq<Option<real>>,
                              readings: seq<Option<Reading>>)
    requires |pa| == |pb| && f.Valid()
  {
    && |betas| == |readings| == |pa|
    && forall t | 0 <= t < |pa| :: SlopeFollows(pa, pb, f, betas, t) && IsReading(pa, pb, f, betas, t, readings[t])
  }

  lemma BetaFollows(pa: seq<real>, pb: seq<real>, f: Fit, betas: seq<Option<real>>, t: nat)
    requires |pa| == |pb| == |betas| && t < |pa| && f.Valid()
    requires forall u | 0 <= u < |pa| :: betas[u] == Beta(pa, pb, f, u)
    ensures SlopeFollows(pa, pb, f, betas, t)
  {
    if t >= f.Start() {
      BeatIsRemainder(t - f.Start(), f.refit);
      RatioFitsBest(pa[t - f.fit - 1..t - 1], pb[t - f.fit - 1..t - 1], betas[t]);
    }
  }

  lemma ScoreIsScore(window: seq<real>, sd: real, latest: real, z: real)
    requires window != [] && sd > 0.0 && z == (latest - Mean(window)) / sd
    ensures IsScore(window, sd, latest, z)
  {
    assert IsMean(window, Mean(window));
  }

  lemma ScoreIsScored(f: Fit, a: seq<real>, b: seq<real>, nowA: real, nowB: real, beta: real, window: seq<real>,
                      latest: real, reading: Option<Reading>)
    requires |a| == |b| > 0 && window == History(a, b, beta) && latest == nowA - beta * nowB
    requires reading == Score(f, a, b, nowA, nowB, beta)
    ensures IsScored(f, window, beta, latest, reading)
  {
    if f.std(window) > 0.0 {
      ScoreIsScore(window, f.std(window), latest, reading.value.z);
    }
  }

  lemma SpreadsAreHistory(pa: seq<real>, pb: seq<real>, beta: real, first: nat, n: nat)
    requires first + n <= |pa| == |pb|
    ensures Spreads(pa, pb, beta, first, n) == History(pa[first..first + n], pb[first..first + n], beta)
  {
    var s, a, b := Spreads(pa, pb, beta, first, n), pa[first..first + n], pb[first..first + n];
    forall k | 0 <= k < n ensures s[k] == History(a, b, beta)[k] {
      assert a[k] == pa[first + k] && b[k] == pb[first + k];
    }
  }

  lemma ScoredIsReading(pa: seq<real>, pb: seq<real>, f: Fit, betas: seq<Option<real>>, t: nat, beta: real,
                        reading: Option<Reading>)
    requires |pa| == |pb| == |betas| && t < |pa| && f.Valid() && t >= f.Start() && betas[t] == Some(beta)
    requires IsScored(f, Spreads(pa, pb, beta, t - f.look - 1, f.look), beta, pa[t - 1] - beta * pb[t - 1], reading)
    ensures IsReading(pa, pb, f, betas, t, reading)
  {
  }

  lemma SpreadsAreScored(pa: seq<real>, pb: seq<real>, f: Fit, t: nat, first: nat, beta: real, reading: Option<Reading>)
    requires |pa| == |pb| && f.Valid() && first + f.look + 1 == t < |pa|
    requires reading == Score(f, pa[first..t - 1], pb[first..t - 1], pa[t - 1], pb[t - 1], beta)
    ensures IsScored(f, Spreads(pa, pb, beta, first, f.look), beta, pa[t - 1] - beta * pb[t - 1], reading)
  {
    SpreadsAreHistory(pa, pb, beta, first, f.look);
    ScoreIsScored(f, pa[first..t - 1], pb[first..t - 1], pa[t - 1], pb[t - 1], beta,
                  Spreads(pa, pb, beta, first, f.look), pa[t - 1] - beta * pb[t - 1], reading);
  }

  lemma ReadingIsReading(pa: seq<real>, pb: seq<real>, f: Fit, betas: seq<Option<real>>, t: nat,
                         reading: Option<Reading>)
    requires |pa| == |pb| == |betas| && t < |pa| && f.Valid()
    requires IsScoreAt(pa, pb, f, t, betas[t], reading)
    ensures IsReading(pa, pb, f, betas, t, reading)
  {
    if t >= f.Start() && betas[t].Some? {
      SpreadsAreScored(pa, pb, f, t, t - f.look - 1, betas[t].value, reading);
      ScoredIsReading(pa, pb, f, betas, t, betas[t].value, reading);
    }
  }

  /** A reading as the recursion has it, at the slope the recursion has. */
  ghost predicate IsScoreAt(pa: seq<real>, pb: seq<real>, f: Fit, t: nat, beta: Option<real>, reading: Option<Reading>)
    requires |pa| == |pb| && t < |pa| && f.Valid()
  {
    reading == if t < f.Start() || beta.None? then None
               else Score(f, pa[t - f.look - 1..t - 1], pb[t - f.look - 1..t - 1], pa[t - 1], pb[t - 1], beta.value)
  }

  lemma SpecifiedIsScore(pa: seq<real>, pb: seq<real>, f: Fit, t: nat)
    requires |pa| == |pb| && t < |pa| && f.Valid()
    ensures IsScoreAt(pa, pb, f, t, Beta(pa, pb, f, t), ReadingAt(pa, pb, f, t))
  {
  }

  lemma SpecifiedAreReadings(pa: seq<real>, pb: seq<real>, f: Fit, betas: seq<Option<real>>,
                             readings: seq<Option<Reading>>)
    requires |pa| == |pb| == |readings| == |betas| && f.Valid()
    requires forall t | 0 <= t < |pa| :: betas[t] == Beta(pa, pb, f, t)
    requires forall t | 0 <= t < |pa| :: IsScoreAt(pa, pb, f, t, betas[t], readings[t])
    ensures AreReadings(pa, pb, f, betas, readings)
  {
    forall t | 0 <= t < |pa|
      ensures SlopeFollows(pa, pb, f, betas, t) && IsReading(pa, pb, f, betas, t, readings[t])
    {
      BetaFollows(pa, pb, f, betas, t);
      assert IsScoreAt(pa, pb, f, t, betas[t], readings[t]);
      ReadingIsReading(pa, pb, f, betas, t, readings[t]);
    }
  }

  method SpreadZ(pa: seq<real>, pb: seq<real>, f: Fit) returns (readings: seq<Option<Reading>>)
    requires |pa| == |pb| && f.Valid()
    ensures |readings| == |pa|
    ensures forall t | 0 <= t < |pa| :: readings[t] == ReadingAt(pa, pb, f, t)
    // read off the prices: best-fit slopes carried on schedule, and the last spread scored at them
    ensures exists betas :: AreReadings(pa, pb, f, betas, readings)
  {
    var n, start := |pa|, f.Start();
    readings := seq(n, _ => None);
    var beta: Option<real> := None;
    var t := start;
    while t < n
      invariant start <= t && (t <= n || t == start)
      invariant t <= n ==> beta == Beta(pa, pb, f, t - 1)
      invariant |readings| == n
      invariant forall u | 0 <= u < n :: readings[u] == if u < t then ReadingAt(pa, pb, f, u) else None
    {
      var score;
      beta, score := ReadBar(pa, pb, f, t, beta);
      readings := readings[t := score];
      t := t + 1;
    }
    ghost var betas := seq(n, u requires 0 <= u < n => Beta(pa, pb, f, u));
    forall u | 0 <= u < n ensures IsScoreAt(pa, pb, f, u, betas[u], readings[u]) {
      SpecifiedIsScore(pa, pb, f, u);
    }
    SpecifiedAreReadings(pa, pb, f, betas, readings);
  }

  /** The loop body: refit when due, then read the spread if there is a slope to read it with. */
  method ReadBar(pa: seq<real>, pb: seq<real>, f: Fit, t: nat, carried: Option<real>)
    returns (beta: Option<real>, score: Option<Reading>)
    requires |pa| == |pb| && f.Valid() && f.Start() <= t < |pa| && carried == Beta(pa, pb, f, t - 1)
    ensures beta == Beta(pa, pb, f, t) && score == ReadingAt(pa, pb, f, t)
  {
    beta, score := carried, None;
    BeatIsRemainder(t - f.Start(), f.refit);
    if beta.None? || (t - f.Start()) % f.refit == 0 {
      beta := HedgeRatio(pa[t - f.fit - 1..t - 1], pb[t - f.fit - 1..t - 1]);
    }
    if beta.Some? {
      score := Score(f, pa[t - f.look - 1..t - 1], pb[t - f.look - 1..t - 1], pa[t - 1], pb[t - 1], beta.value);
    }
  }

  ghost predicate AgreeBefore(x: seq<real>, y: seq<real>, t: nat) {
    t <= |x| && t <= |y| && x[..t] == y[..t]
  }

  lemma AgreeingSlices(x: seq<real>, y: seq<real>, t: nat, a: nat, b: nat)
    requires AgreeBefore(x, y, t) && a <= b <= t
    ensures x[a..b] == y[a..b]
  {
  }

  lemma {:induction false} BetaIsCausal(pa: seq<real>, pb: seq<real>, pa': seq<real>, pb': seq<real>, f: Fit, t: nat)
    requires |pa| == |pb| && |pa'| == |pb'| && t < |pa| && t < |pa'| && f.Valid()
    requires AgreeBefore(pa, pa', t) && AgreeBefore(pb, pb', t)
    ensures Beta(pa, pb, f, t) == Beta(pa', pb', f, t)
  {
    if t >= f.Start() {
      AgreeingSlices(pa, pa', t, 0, t - 1);
      AgreeingSlices(pb, pb', t, 0, t - 1);
      BetaIsCausal(pa, pb, pa', pb', f, t - 1);
      AgreeingSlices(pa, pa', t, t - f.fit - 1, t - 1);
      AgreeingSlices(pb, pb', t, t - f.fit - 1, t - 1);
    }
  }

  /** The reading acted on at t is blind to every price from t on. */
  lemma ReadingIsCausal(pa: seq<real>, pb: seq<real>, pa': seq<real>, pb': seq<real>, f: Fit, t: nat)
    requires |pa| == |pb| && |pa'| == |pb'| && t < |pa| && t < |pa'| && f.Valid()
    requires AgreeBefore(pa, pa', t) && AgreeBefore(pb, pb', t)
    ensures ReadingAt(pa, pb, f, t) == ReadingAt(pa', pb', f, t)
  {
    BetaIsCausal(pa, pb, pa', pb', f, t);
    if t >= f.Start() {
      AgreeingSlices(pa, pa', t, t - f.look - 1, t - 1);
      AgreeingSlices(pb, pb', t, t - f.look - 1, t - 1);
      assert pa[t - 1] == pa[..t][t - 1] == pa'[t - 1] && pb[t - 1] == pb[..t][t - 1] == pb'[t - 1];
    }
  }

  // ------------------------------------------------------------ the book

  datatype Book = Book(wa: real, wb: real, trips: nat)

  datatype Rules = Rules(costA: real, costB: real, entry: real, exit: real)

  /** Gross-normalised legs at slope beta, on the given side of the spread. */
  function Legs(side: real, beta: real): (real, real) {
    var gross := 1.0 + Abs(beta);
    (side / gross, -side * beta / gross)
  }

  /** The legs wanted at a reading: short a rich spread, long a cheap one, flat inside the exit band,
      and otherwise whatever is held. */
  function Wanted(r: Rules, reading: Option<Reading>, held: (real, real)): (real, real) {
    match reading
    case None => held
    case Some(x) =>
      if x.z >= r.entry then Legs(-1.0, x.beta)
      else if x.z <= -r.entry then Legs(1.0, x.beta)
      else if Abs(x.z) <= r.exit then (0.0, 0.0)
      else held
  }

  function Next(r: Rules, reading: Option<Reading>, b: Book): Book {
    var (na, nb) := Wanted(r, reading, (b.wa, b.wb));
    Book(na, nb, b.trips + if b.wa == 0.0 && na != 0.0 then 1 else 0)
  }

  /** The book before bar t. */
  function Held(r: Rules, readings: seq<Option<Reading>>, t: nat): Book
    requires t <= |readings|
  {
    if t == 0 then Book(0.0, 0.0, 0) else Next(r, readings[t - 1], Held(r, readings, t - 1))
  }

  function Turnover(r: Rules, b: Book, b': Book): real {
    Abs(b'.wa - b.wa) * r.costA + Abs(b'.wb - b.wb) * r.costB
  }

  function Charge(r: Rules, readings: seq<Option<Reading>>, t: nat): real
    requires t < |readings|
  {
    Turnover(r, Held(r, readings, t), Held(r, readings, t + 1))
  }

  /** What a book earns over a bar. */
  function Earned(b: Book, x: real, y: real): real {
    b.wa * x + b.wb * y
  }

  function NetReturn(ra: seq<real>, rb: seq<real>, r: Rules, readings: seq<Option<Reading>>, t: nat): real
    requires |ra| == |rb| == |readings| && t < |readings|
  {
    Earned(Held(r, readings, t + 1), ra[t], rb[t]) - Charge(r, readings, t)
  }

  // ------------------------------------------------------------ the book, read off the readings

  /** What a reading does to the legs held: a rich spread is sold, a cheap one bought, gross one; inside the exit
      band the book is flat, and anywhere else, or without a reading, it stands. */
  ghost predicate LegsFollow(r: Rules, reading: Option<Reading>, w: (real, real), w': (real, real)) {
    match reading
    case None => w' == w
    case Some(x) =>
      var gross := if x.beta < 0.0 then 1.0 - x.beta else 1.0 + x.beta;
      if x.z >= r.entry then w'.0 < 0.0 && w'.0 * gross == -1.0 && w'.1 * gross == x.beta
      else if x.z <= -r.entry then w'.0 > 0.0 && w'.0 * gross == 1.0 && w'.1 * gross == -x.beta
      else if -r.exit <= x.z <= r.exit then w' == (0.0, 0.0)
      else w' == w
  }

  ghost function Distance(x: real, y: real): real {
    if x < y then y - x else x - y
  }

  /** Bar t's net return: what the new legs earn less what changing to them costs. */
  ghost predicate LegsEarn(r: Rules, w: (real, real), w': (real, real), ra: real, rb: real, out: real) {
    out == w'.0 * ra + w'.1 * rb - (Distance(w.0, w'.0) * r.costA + Distance(w.1, w'.1) * r.costB)
  }

  /** How often a flat book takes a position. */
  ghost function Openings(legs: seq<(real, real)>): nat {
    if |legs| < 2 then 0
    else
      var k := |legs| - 1;
      Openings(legs[..k]) + if legs[k - 1].0 == 0.0 && legs[k].0 != 0.0 then 1 else 0
  }

  ghost predicate LegsAt(ra: seq<real>, rb: seq<real>, readings: seq<Option<Reading>>, r: Rules,
                         legs: seq<(real, real)>, out: seq<real>, t: nat)
    requires |ra| == |rb| == |readings| == |out| && |legs| == |out| + 1 && t < |out|
  {
    LegsFollow(r, readings[t], legs[t], legs[t + 1]) && LegsEarn(r, legs[t], legs[t + 1], ra[t], rb[t], out[t])
  }

  ghost predicate KeepsLegs(ra: seq<real>, rb: seq<real>, readings: seq<Option<Reading>>, r: Rules,
                            legs: seq<(real, real)>, out: seq<real>, trips: nat)
    requires |ra| == |rb| == |readings| == |out|
  {
    && |legs| == |out| + 1 && legs[0] == (0.0, 0.0) && trips == Openings(legs)
    && forall t | 0 <= t < |out| :: LegsAt(ra, rb, readings, r, legs, out, t)
  }

  /** Legs of a total size of one, on either side. */
  lemma LegsAreGrossOne(side: real, beta: real, gross: real)
    requires gross == if beta < 0.0 then 1.0 - beta else 1.0 + beta
    ensures gross >= 1.0 && Legs(side, beta).0 * gross == side && Legs(side, beta).1 * gross == -side * beta
    ensures (side > 0.0 ==> Legs(side, beta).0 > 0.0) && (side < 0.0 ==> Legs(side, beta).0 < 0.0)
  {
  }

  lemma WantedFollows(r: Rules, reading: Option<Reading>, b: Book)
    ensures LegsFollow(r, reading, (b.wa, b.wb), (Next(r, reading, b).wa, Next(r, reading, b).wb))
  {
    if reading.Some? {
      var beta := reading.value.beta;
      var gross := if beta < 0.0 then 1.0 - beta else 1.0 + beta;
      if reading.value.z >= r.entry {
        LegsAreGrossOne(-1.0, beta, gross);
      } else if reading.value.z <= -r.entry {
        LegsAreGrossOne(1.0, beta, gross);
      }
    }
  }

  lemma BookEarns(r: Rules, b: Book, b': Book, x: real, y: real)
    ensures LegsEarn(r, (b.wa, b.wb), (b'.wa, b'.wb), x, y, Earned(b', x, y) - Turnover(r, b, b'))
  {
    assert Distance(b.wa, b'.wa) == Abs(b'.wa - b.wa) && Distance(b.wb, b'.wb) == Abs(b'.wb - b.wb);
  }

  /** The legs of the specified books. */
  ghost predicate AreLegs(r: Rules, readings: seq<Option<Reading>>, legs: seq<(real, real)>) {
    && |legs| <= |readings| + 1
    && forall t {:trigger legs[t]} | 0 <= t < |legs| ::
         legs[t] == (Held(r, readings, t).wa, Held(r, readings, t).wb)
  }

  lemma {:induction false} TripsAreOpenings(r: Rules, readings: seq<Option<Reading>>, legs: seq<(real, real)>)
    requires |legs| > 0 && AreLegs(r, readings, legs)
    ensures Held(r, readings, |legs| - 1).trips == Openings(legs)
  {
    if |legs| > 1 {
      TripsAreOpenings(r, readings, legs[..|legs| - 1]);
    }
  }

  lemma BarKeepsLegs(ra: seq<real>, rb: seq<real>, readings: seq<Option<Reading>>, r: Rules, legs: seq<(real, real)>,
                     out: seq<real>, t: nat, b: Book, b': Book)
    requires |ra| == |rb| == |readings| == |out| && t < |out| && |legs| == |out| + 1
    requires legs[t] == (b.wa, b.wb) && legs[t + 1] == (b'.wa, b'.wb) && b' == Next(r, readings[t], b)
    requires out[t] == Earned(b', ra[t], rb[t]) - Turnover(r, b, b')
    ensures LegsAt(ra, rb, readings, r, legs, out, t)
  {
    WantedFollows(r, readings[t], b);
    BookEarns(r, b, b', ra[t], rb[t]);
  }

  lemma LegsAreAt(ra: seq<real>, rb: seq<real>, readings: seq<Option<Reading>>, r: Rules, legs: seq<(real, real)>,
                  out: seq<real>, t: nat)
    requires |ra| == |rb| == |readings| == |out| && t < |out| && |legs| == |out| + 1 && AreLegs(r, readings, legs)
    requires out[t] == NetReturn(ra, rb, r, readings, t)
    ensures LegsAt(ra, rb, readings, r, legs, out, t)
  {
    var b, b' := Held(r, readings, t), Held(r, readings, t + 1);
    assert legs[t] == (b.wa, b.wb) && legs[t + 1] == (b'.wa, b'.wb);
    BarKeepsLegs(ra, rb, readings, r, legs, out, t, b, b');
  }

  lemma ReturnsKeepLegs(ra: seq<real>, rb: seq<real>, readings: seq<Option<Reading>>, r: Rules, out: seq<real>,
                        trips: nat, legs: seq<(real, real)>)
    requires |ra| == |rb| == |readings| == |out| && trips == Held(r, readings, |readings|).trips
    requires forall t | 0 <= t < |out| :: out[t] == NetReturn(ra, rb, r, readings, t)
    requires |legs| == |out| + 1 && AreLegs(r, readings, legs)
    ensures KeepsLegs(ra, rb, readings, r, legs, out, trips)
  {
    TripsAreOpenings(r, readings, legs);
    assert legs[0] == (0.0, 0.0);
    forall t | 0 <= t < |out| ensures LegsAt(ra, rb, readings, r, legs, out, t) {
      LegsAreAt(ra, rb, readings, r, legs, out, t);
    }
  }

  lemma LegsExist(r: Rules, readings: seq<Option<Reading>>) returns (legs: seq<(real, real)>)
    ensures |legs| == |readings| + 1 && AreLegs(r, readings, legs)
  {
    var n := |readings|;
    legs := seq(n + 1, t requires 0 <= t <= n => (Held(r, readings, t).wa, Held(r, readings, t).wb));
  }

  method PairPnl(ra: seq<real>, rb: seq<real>, readings: seq<Option<Reading>>, r: Rules)
    returns (out: seq<real>, trips: nat)
    requires |ra| == |rb| == |readings|
    ensures |out| == |readings|
    ensures forall t | 0 <= t < |out| :: out[t] == NetReturn(ra, rb, r, readings, t)
    ensures trips == Held(r, readings, |readings|).trips
    // read off the readings: the legs they call for, what those earn and cost, and how often a position is opened
    ensures exists legs :: KeepsLegs(ra, rb, readings, r, legs, out, trips)
  {
    var n := |readings|;
    out := [];
    var b := Book(0.0, 0.0, 0);
    for t := 0 to n
      invariant b == Held(r, readings, t)
      invariant |out| == t && forall u | 0 <= u < t :: out[u] == NetReturn(ra, rb, r, readings, u)
    {
      var charge;
      b, charge := Trade(r, readings[t], b);
      out := out + [Earned(b, ra[t], rb[t]) - charge];
    }
    trips := b.trips;
    ghost var legs := LegsExist(r, readings);
    ReturnsKeepLegs(ra, rb, readings, r, out, trips, legs);
  }

  /** One bar's change of legs, and what it costs; legs left alone cost nothing. */
  method Trade(r: Rules, reading: Option<Reading>, b0: Book) returns (b: Book, charge: real)
    ensures b == Next(r, reading, b0) && charge == Turnover(r, b0, b)
  {
    b, charge := b0, 0.0;
    if reading.Some? {
      var (na, nb) := Wanted(r, reading, (b.wa, b.wb));
      if na != b.wa || nb != b.wb {
        charge := Abs(na - b.wa) * r.costA + Abs(nb - b.wb) * r.costB;
        b := Book(na, nb, if b.wa == 0.0 && na != 0.0 then b.trips + 1 else b.trips);
      }
    }
    assert Abs(b0.wa - b0.wa) == 0.0 && Abs(b0.wb - b0.wb) == 0.0;
  }

  // ------------------------------------------------------------ a book and its inverse

  /** The same slopes read with the opposite z-score. */
  function Opposite(readings: seq<Option<Reading>>): (r: seq<Option<Reading>>)
    ensures |r| == |readings|
    ensures forall t | 0 <= t < |r| ::
      r[t] == if readings[t].None? then None else Some(Reading(-readings[t].value.z, readings[t].value.beta))
  {
    seq(|readings|, t requires 0 <= t < |readings| =>
      if readings[t].None? then None else Some(Reading(-readings[t].value.z, readings[t].value.beta)))
  }

  lemma LegsNegate(side: real, beta: real)
    ensures Legs(-side, beta).0 == -Legs(side, beta).0 && Legs(-side, beta).1 == -Legs(side, beta).1
  {
  }

  predicate IsOpposite(b: Book, b': Book) {
    b'.wa == -b.wa && b'.wb == -b.wb && b'.trips == b.trips
  }

  lemma {:induction false} InverseHoldsOppositeLegs(r: Rules, readings: seq<Option<Reading>>, t: nat)
    requires t <= |readings| && r.entry > 0.0
    ensures IsOpposite(Held(r, readings, t), Held(r, Opposite(readings), t))
  {
    if t > 0 {
      InverseHoldsOppositeLegs(r, readings, t - 1);
      NextIsOpposite(r, readings[t - 1], Opposite(readings)[t - 1], Held(r, readings, t - 1),
                     Held(r, Opposite(readings), t - 1));
    }
  }

  lemma NextIsOpposite(r: Rules, x: Option<Reading>, x': Option<Reading>, b: Book, b': Book)
    requires r.entry > 0.0 && IsOpposite(b, b')
    requires x' == if x.None? then None else Some(Reading(-x.value.z, x.value.beta))
    ensures IsOpposite(Next(r, x, b), Next(r, x', b'))
  {
    if x.Some? {
      LegsNegate(1.0, x.value.beta);
    }
  }

  /** Together they earn nothing and pay twice. */
  ghost predicate PureCost(ra: seq<real>, rb: seq<real>, r: Rules, readings: seq<Option<Reading>>)
    requires |ra| == |rb| == |readings|
  {
    forall t | 0 <= t < |readings| ::
      NetReturn(ra, rb, r, readings, t) + NetReturn(ra, rb, r, Opposite(readings), t) == -2.0 * Charge(r, readings, t)
  }

  lemma OppositeBooksCancel(r: Rules, b0: Book, b1: Book, c0: Book, c1: Book, x: real, y: real)
    requires IsOpposite(b0, c0) && IsOpposite(b1, c1)
    ensures Earned(b1, x, y) + Earned(c1, x, y) == 0.0
    ensures Turnover(r, c0, c1) == Turnover(r, b0, b1)
  {
  }

  lemma InverseIsPureCost(ra: seq<real>, rb: seq<real>, r: Rules, readings: seq<Option<Reading>>)
    requires |ra| == |rb| == |readings| && r.entry > 0.0
    ensures PureCost(ra, rb, r, readings)
    ensures Held(r, Opposite(readings), |readings|).trips == Held(r, readings, |readings|).trips
  {
    forall t | 0 <= t < |readings|
      ensures NetReturn(ra, rb, r, readings, t) + NetReturn(ra, rb, r, Opposite(readings), t)
           == -2.0 * Charge(r, readings, t)
    {
      InverseHoldsOppositeLegs(r, readings, t);
      InverseHoldsOppositeLegs(r, readings, t + 1);
      OppositeBooksCancel(r, Held(r, readings, t), Held(r, readings, t + 1),
                          Held(r, Opposite(readings), t), Held(r, Opposite(readings), t + 1), ra[t], rb[t]);
    }
    InverseHoldsOppositeLegs(r, readings, |readings|);
  }

  /** It takes a positive entry threshold: at zero or below, a spread of zero is rich both ways and
      both books short it. */
  lemma PureCostIffPositiveEntry(r: Rules)
    ensures r.entry > 0.0 <==>
      forall ra: seq<real>, rb: seq<real>, readings: seq<Option<Reading>> | |ra| == |rb| == |readings| ::
        PureCost(ra, rb, r, readings)
  {
    if r.entry > 0.0 {
      forall ra: seq<real>, rb: seq<real>, readings: seq<Option<Reading>> | |ra| == |rb| == |readings|
        ensures PureCost(ra, rb, r, readings)
      {
        InverseIsPureCost(ra, rb, r, readings);
      }
    } else {
      BothShortAFlatSpread(r);
    }
  }

  lemma BothShortAFlatSpread(r: Rules)
    requires r.entry <= 0.0
    ensures exists ra: seq<real>, rb: seq<real>, readings: seq<Option<Reading>> ::
      |ra| == |rb| == |readings| && !PureCost(ra, rb, r, readings)
  {
    var flat := [Some(Reading(0.0, 0.0))];
    var ra, rb := [1.0], [0.0];
    assert Opposite(flat) == flat;
    assert Legs(-1.0, 0.0) == (-1.0, 0.0);
    assert Held(r, flat, 0) == Book(0.0, 0.0, 0);
    assert Wanted(r, flat[0], (0.0, 0.0)) == (-1.0, 0.0);
    assert Held(r, flat, 1) == Next(r, flat[0], Held(r, flat, 0));
    assert NetReturn(ra, rb, r, flat, 0) == -1.0 - Charge(r, flat, 0);
    assert !PureCost(ra, rb, r, flat);
  }
}
