/** Era blocks and the walk-forward (tools/rule_search.py): rank every candidate on the eras before
    a cut, trade only the winner in the era after it. */
module RuleSearch {
  import opened Prelude
  import opened StableSort

  datatype Row = Row(symbol: string, entryIdx: nat, entryTime: int, net: real, gross: real, bars: int)

  // ------------------------------------------------------------ eras

  function LatestFirst(times: seq<seq<int>>): int
    requires times != [] && forall s | 0 <= s < |times| :: times[s] != []
  {
    var last := times[|times| - 1];
    if |times| == 1 then last[0]
    else
      var rest := LatestFirst(times[..|times| - 1]);
      if rest >= last[0] then rest else last[0]
  }

  function EarliestLast(times: seq<seq<int>>): int
    requires times != [] && forall s | 0 <= s < |times| :: times[s] != []
  {
    var last := times[|times| - 1];
    if |times| == 1 then last[|last| - 1]
    else
      var rest := EarliestLast(times[..|times| - 1]);
      if rest <= last[|last| - 1] then rest else last[|last| - 1]
  }

  function Edge(lo: int, hi: int, blocks: nat, i: nat): real
    requires blocks > 0
  {
    lo as real + (hi - lo) as real / blocks as real * i as real
  }

  /** The edges of `blocks` eras of one length. */
  function BlockEdges(times: seq<seq<int>>, blocks: nat): (edges: seq<real>)
    requires times != [] && blocks > 0 && forall s | 0 <= s < |times| :: times[s] != []
    ensures |edges| == blocks + 1
    ensures forall i | 0 <= i <= blocks :: edges[i] == Edge(LatestFirst(times), EarliestLast(times), blocks, i)
  {
    seq(blocks + 1, i requires 0 <= i <= blocks => Edge(LatestFirst(times), EarliestLast(times), blocks, i))
  }

  lemma {:induction false} LatestFirstIsTheLatest(times: seq<seq<int>>)
    requires times != [] && forall s | 0 <= s < |times| :: times[s] != []
    ensures forall s | 0 <= s < |times| :: times[s][0] <= LatestFirst(times)
    ensures exists s | 0 <= s < |times| :: times[s][0] == LatestFirst(times)
  {
    var n := |times|;
    if n > 1 {
      LatestFirstIsTheLatest(times[..n - 1]);
      var s :| 0 <= s < n - 1 && times[..n - 1][s][0] == LatestFirst(times[..n - 1]);
      assert times[s][0] == LatestFirst(times) || times[n - 1][0] == LatestFirst(times);
    }
    assert n == 1 ==> times[0][0] == LatestFirst(times);
  }

  lemma {:induction false} EarliestLastIsTheEarliest(times: seq<seq<int>>)
    requires times != [] && forall s | 0 <= s < |times| :: times[s] != []
    ensures forall s | 0 <= s < |times| :: EarliestLast(times) <= times[s][|times[s]| - 1]
    ensures exists s | 0 <= s < |times| :: EarliestLast(times) == times[s][|times[s]| - 1]
  {
    var n := |times|;
    if n > 1 {
      EarliestLastIsTheEarliest(times[..n - 1]);
      var s :| 0 <= s < n - 1 && times[..n - 1][s][|times[..n - 1][s]| - 1] == EarliestLast(times[..n - 1]);
      assert times[s][|times[s]| - 1] == EarliestLast(times) || times[n - 1][|times[n - 1]| - 1] == EarliestLast(times);
    }
    assert n == 1 ==> times[0][|times[0]| - 1] == EarliestLast(times);
  }

  /** The eras cover exactly the window every symbol has: they begin where the last symbol to start begins,
      end where the first to stop ends, and are all of one length. */
  lemma ErasSpanTheCommonWindow(times: seq<seq<int>>, blocks: nat)
    requires times != [] && blocks > 0 && forall s | 0 <= s < |times| :: times[s] != []
    ensures var edges := BlockEdges(times, blocks);
      && (forall s | 0 <= s < |times| :: times[s][0] as real <= edges[0])
      && (exists s | 0 <= s < |times| :: times[s][0] as real == edges[0])
      && (forall s | 0 <= s < |times| :: edges[blocks] <= times[s][|times[s]| - 1] as real)
      && (exists s | 0 <= s < |times| :: edges[blocks] == times[s][|times[s]| - 1] as real)
      && forall i | 0 <= i < blocks :: edges[i + 1] - edges[i] == (edges[blocks] - edges[0]) / blocks as real
  {
    var lo, hi := LatestFirst(times), EarliestLast(times);
    LatestFirstIsTheLatest(times);
    EarliestLastIsTheEarliest(times);
    forall i | 0 <= i < blocks
      ensures Edge(lo, hi, blocks, i + 1) - Edge(lo, hi, blocks, i) == (hi - lo) as real / blocks as real
    {
      NextEdge(lo, hi, blocks, i);
    }
    EndEdges(lo, hi, blocks);
  }

  lemma NextEdge(lo: int, hi: int, blocks: nat, i: nat)
    requires blocks > 0
    ensures Edge(lo, hi, blocks, i + 1) - Edge(lo, hi, blocks, i) == (hi - lo) as real / blocks as real
  {
    var step := (hi - lo) as real / blocks as real;
    assert step * (i + 1) as real == step * i as real + step;
  }

  lemma EndEdges(lo: int, hi: int, blocks: nat)
    requires blocks > 0
    ensures Edge(lo, hi, blocks, 0) == lo as real && Edge(lo, hi, blocks, blocks) == hi as real
  {
  }

  /** Era i takes its first instant and not its last, except that the final era takes both. */
  predicate InBlock(t: int, edges: seq<real>, i: nat)
    requires i + 1 < |edges|
  {
    if i == |edges| - 2 then edges[i] <= t as real <= edges[i + 1]
    else edges[i] <= t as real < edges[i + 1]
  }

  ghost predicate Ordered(edges: seq<real>) {
    forall i, j | 0 <= i <= j < |edges| :: edges[i] <= edges[j]
  }

  lemma EdgesSpanTheWindow(lo: int, hi: int, blocks: nat, i: nat, j: nat)
    requires blocks > 0 && lo <= hi && i <= j
    ensures Edge(lo, hi, blocks, 0) == lo as real && Edge(lo, hi, blocks, blocks) == hi as real
    ensures Edge(lo, hi, blocks, i) <= Edge(lo, hi, blocks, j)
  {
  }

  /** Every instant of an ordered span lies in exactly one era. */
  lemma {:induction false} ErasPartition(edges: seq<real>, t: int, n: nat) returns (i: nat)
    requires Ordered(edges) && 1 <= n < |edges| && edges[0] <= t as real
    requires if n == |edges| - 1 then t as real <= edges[n] else t as real < edges[n]
    ensures i < n && InBlock(t, edges, i)
    ensures forall j: nat | j + 1 < |edges| && InBlock(t, edges, j) :: j == i
  {
    if edges[n - 1] <= t as real {
      i := n - 1;
    } else {
      i := ErasPartition(edges, t, n - 1);
    }
  }

  /** Over the common window, era membership is a partition: one era per instant. */
  lemma CommonWindowIsPartitioned(times: seq<seq<int>>, blocks: nat, t: int) returns (i: nat)
    requires times != [] && blocks > 0 && forall s | 0 <= s < |times| :: times[s] != []
    requires LatestFirst(times) <= t <= EarliestLast(times)
    ensures var edges := BlockEdges(times, blocks);
      && i < blocks && InBlock(t, edges, i)
      && forall j: nat | j < blocks && InBlock(t, edges, j) :: j == i
  {
    var lo, hi, edges := LatestFirst(times), EarliestLast(times), BlockEdges(times, blocks);
    EdgesSpanTheWindow(lo, hi, blocks, 0, blocks);
    forall a, b | 0 <= a <= b < |edges| ensures edges[a] <= edges[b] {
      EdgesSpanTheWindow(lo, hi, blocks, a, b);
    }
    i := ErasPartition(edges, t, blocks);
  }

  // ------------------------------------------------------------ rows by era

  function Keep(rows: seq<Row>, p: Row -> bool): seq<Row> {
    if rows == [] then []
    else Keep(rows[..|rows| - 1], p) + if p(rows[|rows| - 1]) then [rows[|rows| - 1]] else []
  }

  lemma {:induction false} KeepHolds(rows: seq<Row>, p: Row -> bool)
    ensures forall r :: r in Keep(rows, p) <==> r in rows && p(r)
  {
    if rows != [] {
      KeepHolds(rows[..|rows| - 1], p);
      assert rows == rows[..|rows| - 1] + [rows[|rows| - 1]];
    }
  }

  /** What fold k may learn from. */
  function Train(rows: seq<Row>, edges: seq<real>, k: nat): seq<Row>
    requires k < |edges|
  {
    Keep(rows, (r: Row) => (r.entryTime as real) < edges[k])
  }

  /** What fold k is judged on. */
  function Test(rows: seq<Row>, edges: seq<real>, k: nat): seq<Row>
    requires k + 1 < |edges|
  {
    Keep(rows, (r: Row) => InBlock(r.entryTime, edges, k))
  }

  // ------------------------------------------------------------ ranking

  /** Python's order on strings. */
  predicate NameLeq(a: string, b: string) {
    if a == [] then true
    else if b == [] then false
    else a[0] < b[0] || (a[0] == b[0] && NameLeq(a[1..], b[1..]))
  }

  lemma {:induction false} NameLeqTotal(a: string, b: string)
    ensures NameLeq(a, b) || NameLeq(b, a)
  {
    if a != [] && b != [] {
      NameLeqTotal(a[1..], b[1..]);
    }
  }

  lemma {:induction false} NameLeqTransitive(a: string, b: string, c: string)
    requires NameLeq(a, b) && NameLeq(b, c)
    ensures NameLeq(a, c)
  {
    if a != [] {
      if a[0] == b[0] == c[0] {
        NameLeqTransitive(a[1..], b[1..], c[1..]);
      }
    }
  }

  datatype Ranked = Ranked(t: real, name: string, trades: nat)

  /** The tuples' order, reversed: a goes before b. */
  predicate Precedes(a: Ranked, b: Ranked) {
    a.t > b.t || (a.t == b.t && NameLeq(b.name, a.name) && (a.name == b.name ==> a.trades >= b.trades))
  }

  lemma NameLeqAntisymmetric(a: string, b: string)
    requires NameLeq(a, b) && NameLeq(b, a)
    ensures a == b
  {
  }

  lemma PrecedesIsPreorder()
    ensures TotalPreorder(Precedes)
  {
    forall a: Ranked, b: Ranked ensures Precedes(a, b) || Precedes(b, a) {
      NameLeqTotal(a.name, b.name);
    }
    forall a: Ranked, b: Ranked, c: Ranked | Precedes(a, b) && Precedes(b, c) ensures Precedes(a, c) {
      if a.t == b.t == c.t {
        NameLeqTransitive(c.name, b.name, a.name);
        if a.name == c.name {
          NameLeqAntisymmetric(a.name, b.name);
        }
      }
    }
  }

  // ------------------------------------------------------------ the walk-forward

  datatype Candidate = Candidate(name: string, rows: seq<Row>)

  ghost predicate UniqueNames(cands: seq<Candidate>) {
    forall i, j | 0 <= i < j < |cands| :: cands[i].name != cands[j].name
  }

  /** The two figures read from a set of trades; what they compute is left uninterpreted. */
  datatype Stats = Stats(t: seq<Row> -> real, expectancy: seq<Row> -> real)

  /** The candidates with enough training trades, in their own order. */
  function Qualifying(cands: seq<Candidate>, edges: seq<real>, k: nat, minTrades: int, s: Stats): seq<Ranked>
    requires k < |edges|
  {
    if cands == [] then []
    else
      var c := cands[|cands| - 1];
      var train := Train(c.rows, edges, k);
      Qualifying(cands[..|cands| - 1], edges, k, minTrades, s)
        + if |train| >= minTrades then [Ranked(s.t(train), c.name, |train|)] else []
  }

  function RowsOf(cands: seq<Candidate>, name: string): seq<Row> {
    if cands == [] then []
    else if cands[|cands| - 1].name == name then cands[|cands| - 1].rows
    else RowsOf(cands[..|cands| - 1], name)
  }

  /** What fold k chose, on what evidence, and what it then traded. */
  datatype Fold =
    | Ungraded(testBlock: nat)
    | Graded(testBlock: nat, selected: string, trainT: real, trainTrades: nat,
             testTrades: nat, testT: Option<real>, testExpectancy: Option<real>)

  function FoldAt(cands: seq<Candidate>, edges: seq<real>, k: nat, minTrades: int, s: Stats): Fold
    requires k + 1 < |edges|
  {
    var ranked := Qualifying(cands, edges, k, minTrades, s);
    if ranked == [] then Ungraded(k + 1)
    else
      SortPermutes(Precedes, ranked);
      var best := Sort(Precedes, ranked)[0];
      var test := Test(RowsOf(cands, best.name), edges, k);
      Graded(k + 1, best.name, best.t, best.trades, |test|,
             if test == [] then None else Some(s.t(test)), if test == [] then None else Some(s.expectancy(test)))
  }

  /** A candidate asked for the t-statistic of no trades at all, which has none to give: its name is
      reached, and the lookup raises. */
  predicate Starved(c: Candidate, edges: seq<real>, k: nat, minTrades: int)
    requires k < |edges|
  {
    minTrades <= 0 && Train(c.rows, edges, k) == []
  }

  /** Some candidate has no training trades to be ranked on in fold k, and is ranked all the same. */
  ghost predicate Raises(cands: seq<Candidate>, edges: seq<real>, k: nat, minTrades: int)
    requires k < |edges|
  {
    exists i: nat | i < |cands| :: Starved(cands[i], edges, k, minTrades)
  }

  /** The folds of test blocks 2, 3 and so on. */
  ghost predicate AreFolds(cands: seq<Candidate>, edges: seq<real>, minTrades: int, s: Stats, folds: seq<Fold>) {
    |folds| < |edges| - 1 && forall j | 0 <= j < |folds| :: folds[j] == FoldAt(cands, edges, j + 1, minTrades, s)
  }

  lemma OneMoreFold(cands: seq<Candidate>, edges: seq<real>, minTrades: int, s: Stats, folds: seq<Fold>, fold: Fold)
    requires AreFolds(cands, edges, minTrades, s, folds) && |folds| + 2 < |edges|
    requires fold == FoldAt(cands, edges, |folds| + 1, minTrades, s)
    ensures AreFolds(cands, edges, minTrades, s, folds + [fold])
  {
  }

  /** None when a lookup raises, which takes a threshold of zero or less and a candidate without training
      trades in some fold. Candidates are keyed by name, so no name comes twice. */
  method WalkForward(cands: seq<Candidate>, edges: seq<real>, minTrades: int, s: Stats)
    returns (folds: Option<seq<Fold>>)
    requires UniqueNames(cands)
    ensures folds.None? <==> exists k: nat | 1 <= k < |edges| - 1 :: Raises(cands, edges, k, minTrades)
    ensures folds.Some? && |edges| < 2 ==> folds.value == []
    ensures folds.Some? && |edges| >= 2 ==>
      |folds.value| == |edges| - 2 && AreFolds(cands, edges, minTrades, s, folds.value)
    // read off the rows: each fold is won before its cut and reported after it
    ensures folds.Some? ==> forall j | 0 <= j < |folds.value| ::
      j + 2 < |edges| && IsFold(cands, edges, j + 1, minTrades, s, folds.value[j])
  {
    if |edges| < 2 {
      return Some([]);
    }
    var done: seq<Fold> := [];
    for k := 1 to |edges| - 1
      invariant |done| == k - 1 && AreFolds(cands, edges, minTrades, s, done)
      invariant forall j: nat | 1 <= j < k :: !Raises(cands, edges, j, minTrades)
    {
      var fold := GradeFold(cands, edges, k, minTrades, s);
      if fold.None? {
        return None;
      }
      OneMoreFold(cands, edges, minTrades, s, done, fold.value);
      done := done + [fold.value];
    }
    FoldsAreOnRows(cands, edges, minTrades, s, done);
    return Some(done);
  }

  /** Choose on the training rows, then grade the choice on the test rows. */
  method GradeFold(cands: seq<Candidate>, edges: seq<real>, k: nat, minTrades: int, s: Stats)
    returns (fold: Option<Fold>)
    requires k + 1 < |edges|
    ensures fold.None? <==> Raises(cands, edges, k, minTrades)
    ensures fold.Some? ==> fold.value == FoldAt(cands, edges, k, minTrades, s)
  {
    var ranking := Rank(cands, edges, k, minTrades, s);
    if ranking.None? {
      return None;
    }
    var ranked := ranking.value;
    if ranked == [] {
      return Some(Ungraded(k + 1));
    }
    SortPermutes(Precedes, ranked);
    var best := Sort(Precedes, ranked)[0];
    var sel := Test(RowsOf(cands, best.name), edges, k);
    var testT, testExpectancy := None, None;
    if sel != [] {
      testT, testExpectancy := Some(s.t(sel)), Some(s.expectancy(sel));
    }
    return Some(Graded(k + 1, best.name, best.t, best.trades, |sel|, testT, testExpectancy));
  }

  method Rank(cands: seq<Candidate>, edges: seq<real>, k: nat, minTrades: int, s: Stats)
    returns (ranking: Option<seq<Ranked>>)
    requires k + 1 < |edges|
    ensures ranking.None? <==> Raises(cands, edges, k, minTrades)
    ensures ranking.Some? ==> ranking.value == Qualifying(cands, edges, k, minTrades, s)
  {
    var ranked: seq<Ranked> := [];
    for i := 0 to |cands|
      invariant ranked == Qualifying(cands[..i], edges, k, minTrades, s)
      invariant forall j: nat | j < i :: !Starved(cands[j], edges, k, minTrades)
    {
      assert cands[..i + 1][..i] == cands[..i];
      var train := Train(cands[i].rows, edges, k);
      if |train| >= minTrades {
        if train == [] {
          return None;
        }
        ranked := ranked + [Ranked(s.t(train), cands[i].name, |train|)];
      }
    }
    assert cands[..|cands|] == cands;
    return Some(ranked);
  }

  // ------------------------------------------------------------ what a fold may know

  /** The same candidates, differing at most in trades entered at or after fold k's cut. */
  ghost predicate SameBeforeCut(a: seq<Candidate>, b: seq<Candidate>, edges: seq<real>, k: nat)
    requires k < |edges|
  {
    |a| == |b| && forall i | 0 <= i < |a| ::
      a[i].name == b[i].name && Train(a[i].rows, edges, k) == Train(b[i].rows, edges, k)
  }

  lemma {:induction false} RankingIgnoresTheFuture(a: seq<Candidate>, b: seq<Candidate>, edges: seq<real>, k: nat,
                                                   minTrades: int, s: Stats)
    requires k < |edges| && SameBeforeCut(a, b, edges, k)
    ensures Qualifying(a, edges, k, minTrades, s) == Qualifying(b, edges, k, minTrades, s)
  {
    if a != [] {
      RankingIgnoresTheFuture(a[..|a| - 1], b[..|b| - 1], edges, k, minTrades, s);
    }
  }

  /** Whatever happens at or after a fold's cut, to any candidate, the fold selects the same candidate
      on the same score. */
  lemma SelectionIgnoresTheFuture(a: seq<Candidate>, b: seq<Candidate>, edges: seq<real>, k: nat, minTrades: int,
                                  s: Stats)
    requires k + 1 < |edges| && SameBeforeCut(a, b, edges, k)
    ensures var x, y := FoldAt(a, edges, k, minTrades, s), FoldAt(b, edges, k, minTrades, s);
      && x.Graded? == y.Graded?
      && (x.Graded? ==> x.selected == y.selected && x.trainT == y.trainT && x.trainTrades == y.trainTrades)
  {
    RankingIgnoresTheFuture(a, b, edges, k, minTrades, s);
  }

  /** Replacing trades at or after the cut is such a change, whatever replaces them. */
  lemma {:induction false} LaterRowsAreInvisible(early: seq<Row>, late: seq<Row>, edges: seq<real>, k: nat)
    requires k < |edges| && forall r | r in late :: edges[k] <= r.entryTime as real
    ensures Train(early + late, edges, k) == Train(early, edges, k)
  {
    if late == [] {
      assert early + late == early;
    } else {
      var front := late[..|late| - 1];
      assert (early + late)[..|early + late| - 1] == early + front;
      assert late[|late| - 1] in late;
      LaterRowsAreInvisible(early, front, edges, k);
    }
  }

  /** No trade is both learned from and judged on. */
  lemma TrainAndTestAreDisjoint(rows: seq<Row>, edges: seq<real>, k: nat, r: Row)
    requires k + 1 < |edges| && r in Train(rows, edges, k)
    ensures r !in Test(rows, edges, k)
  {
    KeepHolds(rows, (r: Row) => (r.entryTime as real) < edges[k]);
    KeepHolds(rows, (r: Row) => InBlock(r.entryTime, edges, k));
  }

  /** Across folds, no trade is judged twice. */
  lemma JudgedOnce(rows: seq<Row>, edges: seq<real>, j: nat, k: nat, r: Row)
    requires Ordered(edges) && j < k && k + 1 < |edges| && r in Test(rows, edges, k)
    ensures r !in Test(rows, edges, j)
  {
    KeepHolds(rows, (r: Row) => InBlock(r.entryTime, edges, j));
    KeepHolds(rows, (r: Row) => InBlock(r.entryTime, edges, k));
    assert edges[j + 1] <= edges[k];
  }

  lemma {:induction false} QualifyingIsAll(cands: seq<Candidate>, edges: seq<real>, k: nat, minTrades: int, s: Stats,
                                           i: nat)
    requires k < |edges| && i < |cands| && |Train(cands[i].rows, edges, k)| >= minTrades
    ensures var train := Train(cands[i].rows, edges, k);
      Ranked(s.t(train), cands[i].name, |train|) in Qualifying(cands, edges, k, minTrades, s)
  {
    if i < |cands| - 1 {
      QualifyingIsAll(cands[..|cands| - 1], edges, k, minTrades, s, i);
    }
  }

  /** The selected candidate has the best training score of all that qualify, names breaking ties. */
  lemma SelectionIsBest(cands: seq<Candidate>, edges: seq<real>, k: nat, minTrades: int, s: Stats, i: nat)
    requires k + 1 < |edges| && i < |cands| && |Train(cands[i].rows, edges, k)| >= minTrades
    ensures var fold := FoldAt(cands, edges, k, minTrades, s);
      var t := s.t(Train(cands[i].rows, edges, k));
      && fold.Graded?
      && (t < fold.trainT || (t == fold.trainT && NameLeq(cands[i].name, fold.selected)))
  {
    var ranked := Qualifying(cands, edges, k, minTrades, s);
    var train := Train(cands[i].rows, edges, k);
    var x := Ranked(s.t(train), cands[i].name, |train|);
    QualifyingIsAll(cands, edges, k, minTrades, s, i);
    SortPermutes(Precedes, ranked);
    PrecedesIsPreorder();
    SortSorts(Precedes, ranked);
    var sorted := Sort(Precedes, ranked);
    assert x in multiset(sorted);
    var j :| 0 <= j < |sorted| && sorted[j] == x;
    NameLeqTotal(x.name, x.name);
    assert Precedes(sorted[0], x);
  }

  lemma {:induction false} RankedIsACandidate(cands: seq<Candidate>, edges: seq<real>, k: nat, minTrades: int, s: Stats,
                                              x: Ranked) returns (i: nat)
    requires k < |edges| && x in Qualifying(cands, edges, k, minTrades, s)
    ensures i < |cands| && |Train(cands[i].rows, edges, k)| >= minTrades
    ensures x == Ranked(s.t(Train(cands[i].rows, edges, k)), cands[i].name, |Train(cands[i].rows, edges, k)|)
  {
    var front := cands[..|cands| - 1];
    if x in Qualifying(front, edges, k, minTrades, s) {
      i := RankedIsACandidate(front, edges, k, minTrades, s, x);
    } else {
      i := |cands| - 1;
    }
  }

  lemma {:induction false} RowsOfIsTheCandidates(cands: seq<Candidate>, i: nat)
    requires UniqueNames(cands) && i < |cands|
    ensures RowsOf(cands, cands[i].name) == cands[i].rows
  {
    if i < |cands| - 1 {
      RowsOfIsTheCandidates(cands[..|cands| - 1], i);
    }
  }

  /** A fold is left ungraded exactly when nobody has enough training trades. What a graded fold reports
      all belongs to one candidate: its training figures to the trades before the cut, its test figures to
      its trades in the era after it. */
  lemma FoldReportsOneCandidate(cands: seq<Candidate>, edges: seq<real>, k: nat, minTrades: int, s: Stats)
    requires UniqueNames(cands) && k + 1 < |edges|
    ensures var fold := FoldAt(cands, edges, k, minTrades, s);
      && (fold.Graded? <==> exists i: nat | i < |cands| :: |Train(cands[i].rows, edges, k)| >= minTrades)
      && (fold.Graded? ==> exists i: nat | i < |cands| :: Reports(fold, cands[i], edges, k, s))
  {
    var fold, ranked := FoldAt(cands, edges, k, minTrades, s), Qualifying(cands, edges, k, minTrades, s);
    if i: nat :| i < |cands| && |Train(cands[i].rows, edges, k)| >= minTrades {
      QualifyingIsAll(cands, edges, k, minTrades, s, i);
    }
    if ranked != [] {
      SortPermutes(Precedes, ranked);
      var best := Sort(Precedes, ranked)[0];
      assert best in multiset(ranked);
      var i := RankedIsACandidate(cands, edges, k, minTrades, s, best);
      RowsOfIsTheCandidates(cands, i);
      assert Reports(fold, cands[i], edges, k, s);
    }
  }

  ghost predicate Reports(fold: Fold, c: Candidate, edges: seq<real>, k: nat, s: Stats)
    requires k + 1 < |edges|
  {
    var train, test := Train(c.rows, edges, k), Test(c.rows, edges, k);
    && fold.Graded? && fold.selected == c.name
    && fold.trainT == s.t(train) && fold.trainTrades == |train|
    && fold.testTrades == |test|
    && (test != [] ==> fold.testT == Some(s.t(test)) && fold.testExpectancy == Some(s.expectancy(test)))
  }

  // ------------------------------------------------------------ a fold, read off the rows

  /** The rows entered before the cut, in their own order. */
  ghost function EnteredBefore(rows: seq<Row>, cut: real): seq<Row> {
    if rows == [] then []
    else
      var r := rows[|rows| - 1];
      EnteredBefore(rows[..|rows| - 1], cut) + if r.entryTime as real < cut then [r] else []
  }

  /** The rows entered in the era after edge k, whose far edge belongs to it only when it is the last. */
  ghost function EnteredIn(rows: seq<Row>, edges: seq<real>, k: nat): seq<Row>
    requires k + 1 < |edges|
  {
    if rows == [] then []
    else
      var r := rows[|rows| - 1];
      var t := r.entryTime as real;
      EnteredIn(rows[..|rows| - 1], edges, k)
        + if edges[k] <= t && (t < edges[k + 1] || (t == edges[k + 1] && k + 2 == |edges|)) then [r] else []
  }

  /** a comes no later than b: a prefix of it, or smaller at the first place they differ. */
  ghost predicate NoLater(a: string, b: string) {
    a <= b || exists k :: DiffersAt(a, b, k)
  }

  ghost predicate DiffersAt(a: string, b: string, k: int) {
    0 <= k < |a| && k < |b| && a[..k] == b[..k] && a[k] < b[k]
  }

  lemma {:induction false} NameLeqIsNoLater(a: string, b: string)
    ensures NameLeq(a, b) <==> NoLater(a, b)
  {
    if a != [] && b != [] && a[0] == b[0] {
      NameLeqIsNoLater(a[1..], b[1..]);
      assert a == [a[0]] + a[1..] && b == [b[0]] + b[1..];
      if k :| DiffersAt(a[1..], b[1..], k) {
        assert a[..k + 1] == [a[0]] + a[1..][..k] && b[..k + 1] == [b[0]] + b[1..][..k];
        assert DiffersAt(a, b, k + 1);
      }
      if k :| DiffersAt(a, b, k) {
        assert a[1..][..k - 1] == a[..k][1..] && b[1..][..k - 1] == b[..k][1..];
        assert DiffersAt(a[1..], b[1..], k - 1);
      }
    } else if a != [] && b != [] && a[0] < b[0] {
      assert DiffersAt(a, b, 0);
    }
  }

  lemma {:induction false} TrainIsBefore(rows: seq<Row>, edges: seq<real>, k: nat)
    requires k < |edges|
    ensures Train(rows, edges, k) == EnteredBefore(rows, edges[k])
  {
    if rows != [] {
      TrainIsBefore(rows[..|rows| - 1], edges, k);
    }
  }

  lemma {:induction false} TestIsIn(rows: seq<Row>, edges: seq<real>, k: nat)
    requires k + 1 < |edges|
    ensures Test(rows, edges, k) == EnteredIn(rows, edges, k)
  {
    if rows != [] {
      TestIsIn(rows[..|rows| - 1], edges, k);
    }
  }

  /** Candidate i has enough rows before the cut to be ranked in fold k. */
  ghost predicate Ranks(cands: seq<Candidate>, edges: seq<real>, k: nat, minTrades: int, i: nat)
    requires k < |edges| && i < |cands|
  {
    |EnteredBefore(cands[i].rows, edges[k])| >= minTrades
  }

  /** No ranked candidate scores above i before the cut, or as high under a later name. */
  ghost predicate Wins(cands: seq<Candidate>, edges: seq<real>, k: nat, minTrades: int, s: Stats, i: nat)
    requires k < |edges| && i < |cands|
  {
    && Ranks(cands, edges, k, minTrades, i)
    && forall j: nat | j < |cands| && Ranks(cands, edges, k, minTrades, j) ::
         var t, best := s.t(EnteredBefore(cands[j].rows, edges[k])), s.t(EnteredBefore(cands[i].rows, edges[k]));
         t < best || (t == best && NoLater(cands[j].name, cands[i].name))
  }

  /** Fold k reports the winner's figures before the cut and in the era after it, or that nobody ranks. */
  ghost predicate IsFold(cands: seq<Candidate>, edges: seq<real>, k: nat, minTrades: int, s: Stats, fold: Fold)
    requires k + 1 < |edges|
  {
    && fold.testBlock == k + 1
    && (fold.Ungraded? ==> forall i: nat | i < |cands| :: !Ranks(cands, edges, k, minTrades, i))
    && (fold.Graded? ==> exists i: nat :: i < |cands| && Wins(cands, edges, k, minTrades, s, i)
                                          && OfCandidate(cands[i], edges, k, s, fold))
  }

  ghost predicate OfCandidate(c: Candidate, edges: seq<real>, k: nat, s: Stats, fold: Fold)
    requires k + 1 < |edges| && fold.Graded?
  {
    var train, test := EnteredBefore(c.rows, edges[k]), EnteredIn(c.rows, edges, k);
    && fold.selected == c.name && fold.trainT == s.t(train) && fold.trainTrades == |train|
    && fold.testTrades == |test|
    && fold.testT == (if test == [] then None else Some(s.t(test)))
    && fold.testExpectancy == if test == [] then None else Some(s.expectancy(test))
  }

  lemma FoldIsOnRows(cands: seq<Candidate>, edges: seq<real>, k: nat, minTrades: int, s: Stats)
    requires UniqueNames(cands) && k + 1 < |edges|
    ensures IsFold(cands, edges, k, minTrades, s, FoldAt(cands, edges, k, minTrades, s))
  {
    var fold := FoldAt(cands, edges, k, minTrades, s);
    FoldReportsOneCandidate(cands, edges, k, minTrades, s);
    forall c: Candidate ensures Train(c.rows, edges, k) == EnteredBefore(c.rows, edges[k]) {
      TrainIsBefore(c.rows, edges, k);
    }
    if fold.Graded? {
      var i: nat :| i < |cands| && Reports(fold, cands[i], edges, k, s);
      TestIsIn(cands[i].rows, edges, k);
      WinnerWins(cands, edges, k, minTrades, s, i);
      assert OfCandidate(cands[i], edges, k, s, fold);
    }
  }

  lemma WinnerWins(cands: seq<Candidate>, edges: seq<real>, k: nat, minTrades: int, s: Stats, i: nat)
    requires UniqueNames(cands) && k + 1 < |edges| && i < |cands|
    requires Reports(FoldAt(cands, edges, k, minTrades, s), cands[i], edges, k, s)
    ensures Wins(cands, edges, k, minTrades, s, i)
  {
    TrainIsBefore(cands[i].rows, edges, k);
    SelectedHasEnough(cands, edges, k, minTrades, s);
    forall j: nat | j < |cands| && Ranks(cands, edges, k, minTrades, j)
      ensures var t, best := s.t(EnteredBefore(cands[j].rows, edges[k])), s.t(EnteredBefore(cands[i].rows, edges[k]));
        t < best || (t == best && NoLater(cands[j].name, cands[i].name))
    {
      TrainIsBefore(cands[j].rows, edges, k);
      SelectionIsBest(cands, edges, k, minTrades, s, j);
      NameLeqIsNoLater(cands[j].name, cands[i].name);
    }
  }

  lemma SelectedHasEnough(cands: seq<Candidate>, edges: seq<real>, k: nat, minTrades: int, s: Stats)
    requires k + 1 < |edges| && FoldAt(cands, edges, k, minTrades, s).Graded?
    ensures FoldAt(cands, edges, k, minTrades, s).trainTrades >= minTrades
  {
    var ranked := Qualifying(cands, edges, k, minTrades, s);
    SortPermutes(Precedes, ranked);
    assert Sort(Precedes, ranked)[0] in multiset(ranked);
    var i := RankedIsACandidate(cands, edges, k, minTrades, s, Sort(Precedes, ranked)[0]);
  }

  lemma FoldsAreOnRows(cands: seq<Candidate>, edges: seq<real>, minTrades: int, s: Stats, folds: seq<Fold>)
    requires UniqueNames(cands) && AreFolds(cands, edges, minTrades, s, folds)
    ensures forall j | 0 <= j < |folds| :: j + 2 < |edges| && IsFold(cands, edges, j + 1, minTrades, s, folds[j])
  {
    forall j | 0 <= j < |folds| ensures j + 2 < |edges| && IsFold(cands, edges, j + 1, minTrades, s, folds[j]) {
      FoldIsOnRows(cands, edges, j + 1, minTrades, s);
    }
  }
}
