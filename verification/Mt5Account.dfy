/** Deals paired into round trips (tools/mt5_account.py). Amounts are exact: the source rounds them
    for display. */
module Mt5Account {
  import opened Prelude
  import opened Ledger
  import opened StableSort

  type Pid = Option<int>

  datatype Cash = Cash(time: int, kind: int, amount: real, comment: string)

  datatype Trade = Trade(positionId: Pid, symbol: string, long: bool, volume: real, openTime: int, closeTime: int,
                         entryPrice: real, exitPrice: real, gross: real, commission: real, swap: real, net: real,
                         dealCount: nat, closeReason: int, magic: int)

  // ------------------------------------------------------------ grouping

  /** Deposits, withdrawals, credits: anything that is not a buy or a sell. */
  predicate IsCash(d: Deal) {
    d.kind >= 2
  }

  predicate IsTrade(d: Deal) {
    d.kind < 2
  }

  function CashOf(d: Deal): Cash {
    Cash(d.time, d.kind, d.profit, d.comment)
  }

  function CashMovements(deals: seq<Deal>): seq<Cash> {
    if deals == [] then []
    else
      var d := deals[|deals| - 1];
      var before := CashMovements(deals[..|deals| - 1]);
      if IsCash(d) then before + [CashOf(d)] else before
  }

  function TradeDeals(deals: seq<Deal>): seq<Deal> {
    Filter(IsTrade, deals)
  }

  function PidOf(d: Deal): Pid {
    d.positionId
  }

  /** One position's deals, in the order the log lists them. */
  function DealsOf(deals: seq<Deal>, pid: Pid): seq<Deal> {
    Group(PidOf, pid, TradeDeals(deals))
  }

  /** The positions in the order they first appear. */
  function Positions(deals: seq<Deal>): (ps: seq<Pid>)
    ensures Distinct(ps)
  {
    if deals == [] then []
    else
      var before, d := Positions(deals[..|deals| - 1]), deals[|deals| - 1];
      if IsCash(d) || PidOf(d) in before then before else before + [PidOf(d)]
  }

  lemma {:induction false} PositionsCover(deals: seq<Deal>, d: Deal)
    requires d in TradeDeals(deals)
    ensures PidOf(d) in Positions(deals)
  {
    var front, last := deals[..|deals| - 1], deals[|deals| - 1];
    if d in TradeDeals(front) {
      PositionsCover(front, d);
    }
  }

  // ------------------------------------------------------------ pairing

  predicate DealOrder(a: Deal, b: Deal) {
    a.timeMsc < b.timeMsc || (a.timeMsc == b.timeMsc && a.ticket <= b.ticket)
  }

  predicate CloseOrder(a: Trade, b: Trade) {
    a.closeTime <= b.closeTime
  }

  predicate Opens(d: Deal) {
    d.entry == ENTRY_IN || d.entry == ENTRY_INOUT
  }

  predicate Closes(d: Deal) {
    d.entry == ENTRY_OUT || d.entry == ENTRY_INOUT || d.entry == ENTRY_OUT_BY
  }

  function Volume(ds: seq<Deal>): real {
    SumBy((d: Deal) => d.volume, ds)
  }

  /** The mean price of several fills by their volumes; without volume, the price given. */
  function Vwap(ds: seq<Deal>, fallback: real): real {
    if Volume(ds) == 0.0 then fallback else SumBy((d: Deal) => d.price * d.volume, ds) / Volume(ds)
  }

  /** Both legs are in the window. */
  predicate Complete(ds: seq<Deal>) {
    Filter(Opens, ds) != [] && Filter(Closes, ds) != []
  }

  function TradeOf(pid: Pid, ds: seq<Deal>): Trade
    requires Complete(ds)
  {
    var entries, exits := Filter(Opens, ds), Filter(Closes, ds);
    var first, last := entries[0], exits[|exits| - 1];
    Trade(pid, first.symbol, first.kind == 0, Volume(entries), first.time, last.time,
          Vwap(entries, first.price), Vwap(exits, last.price),
          SumBy((d: Deal) => d.profit, ds), SumBy((d: Deal) => d.commission, ds), SumBy((d: Deal) => d.swap, ds),
          SumBy(Money, ds), |ds|, last.reason, first.magic)
  }

  /** The completed positions among ps, paired. */
  function Paired(deals: seq<Deal>, ps: seq<Pid>): seq<Trade> {
    if ps == [] then []
    else
      var pid := ps[|ps| - 1];
      var ds := Sort(DealOrder, DealsOf(deals, pid));
      var before := Paired(deals, ps[..|ps| - 1]);
      if Complete(ds) then before + [TradeOf(pid, ds)] else before
  }

  method ClosedTrades(deals: seq<Deal>) returns (trades: seq<Trade>, cash: seq<Cash>)
    ensures cash == CashMovements(deals)
    ensures trades == Sort(CloseOrder, Paired(deals, Positions(deals)))
    // read off the log itself
    ensures AreRoundTrips(deals, trades) && exists at :: AreCash(deals, cash, at)
  {
    var byPosition: map<Pid, seq<Deal>> := map[];
    var order: seq<Pid> := [];               // a dict keeps its keys in insertion order
    cash := [];
    for i := 0 to |deals|
      invariant Sifted(deals[..i], byPosition, order, cash)
    {
      assert deals[..i] + [deals[i]] == deals[..i + 1];
      byPosition, order, cash := SiftDeal(deals[..i], deals[i], byPosition, order, cash);
    }
    assert deals[..|deals|] == deals;
    trades := PairPositions(deals, byPosition, order);
    trades := Sort(CloseOrder, trades);
    ClosedAreRoundTrips(deals, trades);
    ghost var at := CashIsListed(deals);
  }

  /** What the tables hold once `deals` have been read. */
  ghost predicate Sifted(deals: seq<Deal>, byPosition: map<Pid, seq<Deal>>, order: seq<Pid>, cash: seq<Cash>) {
    && cash == CashMovements(deals) && order == Positions(deals)
    && (forall p :: p in byPosition <==> p in order)
    && forall p | p in byPosition :: byPosition[p] == DealsOf(deals, p)
  }

  /** One deal: a cash movement, or another leg of its position. */
  method SiftDeal(ghost deals: seq<Deal>, d: Deal, byPosition0: map<Pid, seq<Deal>>, order0: seq<Pid>, cash0: seq<Cash>)
    returns (byPosition: map<Pid, seq<Deal>>, order: seq<Pid>, cash: seq<Cash>)
    requires Sifted(deals, byPosition0, order0, cash0)
    ensures Sifted(deals + [d], byPosition, order, cash)
  {
    byPosition, order, cash := byPosition0, order0, cash0;
    assert (deals + [d])[..|deals|] == deals;
    DealsOfNext(deals, d);
    if d.kind >= 2 {
      cash := cash + [CashOf(d)];
      return;
    }
    var pid := PidOf(d);
    if pid !in byPosition {
      UnseenIsEmpty(deals, pid);
      order := order + [pid];
      byPosition := byPosition[pid := []];
    }
    byPosition := byPosition[pid := byPosition[pid] + [d]];
  }

  /** Each position's deals put in order and, when both legs are there, made a trade. */
  method PairPositions(ghost deals: seq<Deal>, byPosition: map<Pid, seq<Deal>>, order: seq<Pid>)
    returns (trades: seq<Trade>)
    requires forall p | p in order :: p in byPosition && byPosition[p] == DealsOf(deals, p)
    ensures trades == Paired(deals, order)
  {
    trades := [];
    for k := 0 to |order|
      invariant trades == Paired(deals, order[..k])
    {
      assert order[..k + 1][..k] == order[..k];
      var ds := Sort(DealOrder, byPosition[order[k]]);
      if !Complete(ds) {
        continue;
      }
      trades := trades + [TradeOf(order[k], ds)];
    }
    assert order[..|order|] == order;
  }

  lemma DealsOfNext(deals: seq<Deal>, d: Deal)
    ensures forall p ::
      DealsOf(deals + [d], p) == (if IsTrade(d) && PidOf(d) == p then DealsOf(deals, p) + [d] else DealsOf(deals, p))
  {
  }

  lemma UnseenIsEmpty(deals: seq<Deal>, pid: Pid)
    requires pid !in Positions(deals)
    ensures DealsOf(deals, pid) == []
  {
  }

  // ------------------------------------------------------------ conservation

  function NetOf(t: Trade): real {
    t.net
  }

  /** What sits on positions whose other leg is outside the window. */
  function Unpaired(deals: seq<Deal>, ps: seq<Pid>): real {
    if ps == [] then 0.0
    else
      var ds := DealsOf(deals, ps[|ps| - 1]);
      Unpaired(deals, ps[..|ps| - 1]) + if Complete(Sort(DealOrder, ds)) then 0.0 else SumBy(Money, ds)
  }

  lemma {:induction false} PairingConserves(deals: seq<Deal>, ps: seq<Pid>)
    ensures SumBy(NetOf, Paired(deals, ps)) + Unpaired(deals, ps) == GroupSum(Money, PidOf, ps, TradeDeals(deals))
  {
    if ps != [] {
      var front, pid := ps[..|ps| - 1], ps[|ps| - 1];
      var ds := DealsOf(deals, pid);
      PairingConserves(deals, front);
      SortPermutes(DealOrder, ds);
      SumByPermuted(Money, Sort(DealOrder, ds), ds);
      if Complete(Sort(DealOrder, ds)) {
        SumByAppend(NetOf, Paired(deals, front), TradeOf(pid, Sort(DealOrder, ds)));
      }
    }
  }

  function Amount(c: Cash): real {
    c.amount
  }

  /** What a cash movement's record leaves out: only its profit field is kept. */
  function Charges(d: Deal): real {
    d.commission + d.swap + d.fee
  }

  lemma {:induction false} CashKeepsProfit(deals: seq<Deal>)
    ensures SumBy(Money, Filter(IsCash, deals))
         == SumBy(Amount, CashMovements(deals)) + SumBy(Charges, Filter(IsCash, deals))
  {
    if deals != [] {
      var front, d := deals[..|deals| - 1], deals[|deals| - 1];
      CashKeepsProfit(front);
      if IsCash(d) {
        SumByAppend(Money, Filter(IsCash, front), d);
        SumByAppend(Charges, Filter(IsCash, front), d);
        SumByAppend(Amount, CashMovements(front), CashOf(d));
      }
    }
  }

  /** Everything the account received is in a trade, on an unpaired position, in a cash movement, or
      in the charges of one. */
  lemma DealLogIsConserved(deals: seq<Deal>, trades: seq<Trade>)
    requires trades == Sort(CloseOrder, Paired(deals, Positions(deals)))
    ensures SumBy(Money, deals)
         == SumBy(NetOf, trades) + Unpaired(deals, Positions(deals))
            + SumBy(Amount, CashMovements(deals)) + SumBy(Charges, Filter(IsCash, deals))
  {
    var ps := Positions(deals);
    SortPermutes(CloseOrder, Paired(deals, ps));
    SumByPermuted(NetOf, trades, Paired(deals, ps));
    PairingConserves(deals, ps);
    forall d | d in TradeDeals(deals) ensures PidOf(d) in ps {
      PositionsCover(deals, d);
    }
    GroupsConserve(Money, PidOf, ps, TradeDeals(deals));
    SumSplits(Money, IsTrade, IsCash, deals);
    CashKeepsProfit(deals);
  }

  /** So trades, unpaired positions and recorded cash account for the whole log exactly when cash
      movements carry no commission, swap or fee between them. */
  lemma LogIsAccountedForIff(deals: seq<Deal>, trades: seq<Trade>)
    requires trades == Sort(CloseOrder, Paired(deals, Positions(deals)))
    ensures SumBy(Money, deals)
         == SumBy(NetOf, trades) + Unpaired(deals, Positions(deals)) + SumBy(Amount, CashMovements(deals))
        <==> SumBy(Charges, Filter(IsCash, deals)) == 0.0
  {
    DealLogIsConserved(deals, trades);
  }

  /** A deposit charged a commission is such a log: the cash record keeps 100 of the 99 received. */
  lemma DepositLosesItsCommission()
    ensures var d := Deal(2, None, ENTRY_IN, 0, 0, 0, 0, "", 0.0, 0.0, 100.0, -1.0, 0.0, 0.0, 0, "");
      && Paired([d], Positions([d])) == [] && Unpaired([d], Positions([d])) == 0.0
      && SumBy(Amount, CashMovements([d])) == 100.0 && SumBy(Money, [d]) == 99.0
  {
    var d := Deal(2, None, ENTRY_IN, 0, 0, 0, 0, "", 0.0, 0.0, 100.0, -1.0, 0.0, 0.0, 0, "");
    assert [d][..0] == [];
    assert CashMovements([d]) == [CashOf(d)] && [CashOf(d)][..0] == [];
  }

  lemma {:induction false} PairedPositions(deals: seq<Deal>, ps: seq<Pid>)
    requires Distinct(ps)
    ensures forall t | t in Paired(deals, ps) :: t.positionId in ps
    ensures forall i, j | 0 <= i < j < |Paired(deals, ps)| ::
      Paired(deals, ps)[i].positionId != Paired(deals, ps)[j].positionId
  {
    if ps != [] {
      var front := ps[..|ps| - 1];
      PairedPositions(deals, front);
      assert ps == front + [ps[|ps| - 1]];
      assert forall t | t in Paired(deals, front) :: t.positionId in front;
      assert forall i | 0 <= i < |Paired(deals, front)| :: Paired(deals, front)[i] in Paired(deals, front);
    }
  }

  /** A position gives at most one trade. */
  lemma OneTradePerPosition(deals: seq<Deal>, trades: seq<Trade>, i: nat, j: nat)
    requires trades == Sort(CloseOrder, Paired(deals, Positions(deals))) && i < j < |trades|
    ensures trades[i].positionId != trades[j].positionId
  {
    var paired := Paired(deals, Positions(deals));
    PairedPositions(deals, Positions(deals));
    SortPermutes(CloseOrder, paired);
    if trades[i].positionId == trades[j].positionId {
      TwiceInPermutation(trades, paired, i, j);
    }
  }

  lemma TwiceInPermutation(s: seq<Trade>, t: seq<Trade>, i: nat, j: nat)
    requires multiset(s) == multiset(t) && i < j < |s| && s[i].positionId == s[j].positionId
    ensures exists a, b :: 0 <= a < b < |t| && t[a].positionId == t[b].positionId
  {
    assert s[i] in multiset(t) && s[j] in multiset(t);
    var a :| 0 <= a < |t| && t[a] == s[i];
    if s[i] == s[j] {
      RepeatCountsTwice(s, i, j);
      var b := AnotherPlace(t, a);
      assert t[b].positionId == t[a].positionId;
    } else {
      var b :| 0 <= b < |t| && t[b] == s[j];
    }
  }

  /** An element that occurs twice occurs somewhere else. */
  lemma AnotherPlace(t: seq<Trade>, a: nat) returns (b: nat)
    requires a < |t| && multiset(t)[t[a]] >= 2
    ensures b < |t| && b != a && t[b] == t[a]
  {
    var rest := t[..a] + t[a + 1..];
    assert t == t[..a] + [t[a]] + t[a + 1..];
    assert multiset(t) == multiset(rest) + multiset{t[a]};
    assert t[a] in multiset(rest);
    var k :| 0 <= k < |rest| && rest[k] == t[a];
    b := if k < a then k else k + 1;
  }

  lemma {:induction false} FilterKeepsOrder(p: Deal -> bool, s: seq<Deal>)
    requires Sorted(DealOrder, s)
    ensures Sorted(DealOrder, Filter(p, s))
  {
    if s != [] {
      var front, last := s[..|s| - 1], s[|s| - 1];
      FilterKeepsOrder(p, front);
      forall i | 0 <= i < |Filter(p, front)| ensures DealOrder(Filter(p, front)[i], last) {
        FilterHolds(p, front, Filter(p, front)[i]);
      }
    }
  }

  lemma OpensOnTheEarliest(sorted: seq<Deal>, d: Deal)
    requires Sorted(DealOrder, sorted) && d in sorted && Opens(d)
    ensures var entries := Filter(Opens, sorted); entries != [] && DealOrder(entries[0], d)
  {
    FilterHolds(Opens, sorted, d);
    FilterKeepsOrder(Opens, sorted);
  }

  lemma ClosesOnTheLatest(sorted: seq<Deal>, d: Deal)
    requires Sorted(DealOrder, sorted) && d in sorted && Closes(d)
    ensures var exits := Filter(Closes, sorted); exits != [] && DealOrder(d, exits[|exits| - 1])
  {
    FilterHolds(Closes, sorted, d);
    FilterKeepsOrder(Closes, sorted);
  }

  /** However the log orders them, a trade opens on its position's earliest entry and closes on its
      latest exit. */
  lemma TradeSpansItsDeals(ds: seq<Deal>, d: Deal)
    requires Complete(Sort(DealOrder, ds)) && d in ds
    ensures var entries, exits := Filter(Opens, Sort(DealOrder, ds)), Filter(Closes, Sort(DealOrder, ds));
      && (Opens(d) ==> DealOrder(entries[0], d))
      && (Closes(d) ==> DealOrder(d, exits[|exits| - 1]))
  {
    SortedDeals(ds, d);
    SpansSorted(Sort(DealOrder, ds), d);
  }

  lemma SortedDeals(ds: seq<Deal>, d: Deal)
    ensures Sorted(DealOrder, Sort(DealOrder, ds)) && (d in Sort(DealOrder, ds) <==> d in ds)
  {
    SortSorts(DealOrder, ds);
    SortPermutes(DealOrder, ds);
    assert d in multiset(Sort(DealOrder, ds)) <==> d in multiset(ds);
  }

  lemma SpansSorted(sorted: seq<Deal>, d: Deal)
    requires Sorted(DealOrder, sorted) && d in sorted && Complete(sorted)
    ensures Opens(d) ==> DealOrder(Filter(Opens, sorted)[0], d)
    ensures Closes(d) ==> DealOrder(d, Filter(Closes, sorted)[|Filter(Closes, sorted)| - 1])
  {
    if Opens(d) {
      OpensOnTheEarliest(sorted, d);
    }
    if Closes(d) {
      ClosesOnTheLatest(sorted, d);
    }
  }

  // ------------------------------------------------------------ a trade, read off the log

  /** A buy or a sell on one position. */
  ghost predicate OnPosition(d: Deal, pid: Pid) {
    d.kind < 2 && d.positionId == pid
  }

  ghost predicate Enters(d: Deal) {
    d.entry == 0 || d.entry == 2
  }

  ghost predicate Leaves(d: Deal) {
    d.entry == 1 || d.entry == 2 || d.entry == 3
  }

  /** Deal d of a position is no later than e. */
  ghost predicate NoLaterThan(d: Deal, e: Deal) {
    d.timeMsc < e.timeMsc || (d.timeMsc == e.timeMsc && d.ticket <= e.ticket)
  }

  /** The trade opens as its position's first entering deal says and closes as its last leaving one says. */
  ghost predicate IsSpanned(deals: seq<Deal>, t: Trade, first: Deal, last: Deal) {
    var pid := t.positionId;
    && first in deals && OnPosition(first, pid) && Enters(first)
    && last in deals && OnPosition(last, pid) && Leaves(last)
    && (forall d | d in deals && OnPosition(d, pid) && Enters(d) :: NoLaterThan(first, d))
    && (forall d | d in deals && OnPosition(d, pid) && Leaves(d) :: NoLaterThan(d, last))
    && t.symbol == first.symbol && t.long == (first.kind == 0) && t.openTime == first.time && t.magic == first.magic
    && t.closeTime == last.time && t.closeReason == last.reason
    && Priced(deals, pid, true, t.entryPrice, first.price) && Priced(deals, pid, false, t.exitPrice, last.price)
    && t.volume == Total((d: Deal) => OnPosition(d, pid) && Enters(d), (d: Deal) => d.volume, deals)
  }

  /** px times a side's volume is what that side traded for; on no volume px is the fallback. */
  ghost predicate Priced(deals: seq<Deal>, pid: Pid, entering: bool, px: real, fallback: real) {
    var side := (d: Deal) => OnPosition(d, pid) && if entering then Enters(d) else Leaves(d);
    IsAverage(px, Total(side, (d: Deal) => d.volume, deals), Total(side, (d: Deal) => d.price * d.volume, deals),
              fallback)
  }

  ghost predicate IsAverage(px: real, volume: real, money: real, fallback: real) {
    if volume == 0.0 then px == fallback else px * volume == money
  }

  /** And books every deal of the position, entering, leaving or neither. */
  ghost predicate IsTotalled(deals: seq<Deal>, t: Trade) {
    var mine := (d: Deal) => OnPosition(d, t.positionId);
    && t.gross == Total(mine, (d: Deal) => d.profit, deals)
    && t.commission == Total(mine, (d: Deal) => d.commission, deals)
    && t.swap == Total(mine, (d: Deal) => d.swap, deals)
    && t.net == Total(mine, (d: Deal) => d.profit + d.commission + d.swap + d.fee, deals)
    && t.dealCount as real == Total(mine, (d: Deal) => 1.0, deals)
  }

  ghost predicate IsRoundTrip(deals: seq<Deal>, t: Trade) {
    IsTotalled(deals, t) && exists first, last :: IsSpanned(deals, t, first, last)
  }

  lemma DealsOfAreMine(deals: seq<Deal>, pid: Pid, mine: Deal -> bool)
    requires forall d :: mine(d) == OnPosition(d, pid)
    ensures DealsOf(deals, pid) == Filter(mine, deals)
  {
    FilterTwice((d: Deal) => PidOf(d) == pid, IsTrade, mine, deals);
  }

  /** A sum over a position's sorted deals, or over one side of them, is one over the log. */
  lemma SortedTotal(deals: seq<Deal>, pid: Pid, p: Deal -> bool, both: Deal -> bool, f: Deal -> real)
    requires forall d :: both(d) == (OnPosition(d, pid) && p(d))
    ensures SumBy(f, Filter(p, Sort(DealOrder, DealsOf(deals, pid)))) == Total(both, f, deals)
  {
    var mine, ds := (d: Deal) => OnPosition(d, pid), DealsOf(deals, pid);
    SortPermutes(DealOrder, ds);
    FilterPermuted(p, Sort(DealOrder, ds), ds);
    SumByPermuted(f, Filter(p, Sort(DealOrder, ds)), Filter(p, ds));
    DealsOfAreMine(deals, pid, mine);
    FilterTwice(p, mine, both, deals);
    TotalIsFiltered(both, f, deals);
  }

  lemma WholeTotal(deals: seq<Deal>, pid: Pid, mine: Deal -> bool, f: Deal -> real)
    requires forall d :: mine(d) == OnPosition(d, pid)
    ensures SumBy(f, Sort(DealOrder, DealsOf(deals, pid))) == Total(mine, f, deals)
  {
    var ds := DealsOf(deals, pid);
    SortPermutes(DealOrder, ds);
    SumByPermuted(f, Sort(DealOrder, ds), ds);
    DealsOfAreMine(deals, pid, mine);
    TotalIsFiltered(mine, f, deals);
  }

  lemma TradeIsTotalled(deals: seq<Deal>, pid: Pid)
    requires Complete(Sort(DealOrder, DealsOf(deals, pid)))
    ensures IsTotalled(deals, TradeOf(pid, Sort(DealOrder, DealsOf(deals, pid))))
  {
    var mine := (d: Deal) => OnPosition(d, pid);
    var ds := Sort(DealOrder, DealsOf(deals, pid));
    WholeTotal(deals, pid, mine, (d: Deal) => d.profit);
    WholeTotal(deals, pid, mine, (d: Deal) => d.commission);
    WholeTotal(deals, pid, mine, (d: Deal) => d.swap);
    WholeTotal(deals, pid, mine, (d: Deal) => d.profit + d.commission + d.swap + d.fee);
    SumByCongruent(Money, (d: Deal) => d.profit + d.commission + d.swap + d.fee, ds);
    WholeTotal(deals, pid, mine, (d: Deal) => 1.0);
    SumByConstant((d: Deal) => 1.0, 1.0, ds, |ds|);
  }

  lemma VwapTimesVolume(ds: seq<Deal>, fallback: real, volume: real, money: real)
    requires volume == Volume(ds) && money == SumBy((d: Deal) => d.price * d.volume, ds)
    ensures IsAverage(Vwap(ds, fallback), volume, money, fallback)
  {
  }

  lemma VwapIsPriced(deals: seq<Deal>, pid: Pid, entering: bool, side: Deal -> bool, fallback: real, px: real)
    requires forall d :: side(d) == if entering then Opens(d) else Closes(d)
    requires px == Vwap(Filter(side, Sort(DealOrder, DealsOf(deals, pid))), fallback)
    ensures Priced(deals, pid, entering, px, fallback)
  {
    var both := (d: Deal) => OnPosition(d, pid) && if entering then Enters(d) else Leaves(d);
    var volume, money := Total(both, (d: Deal) => d.volume, deals), Total(both, (d: Deal) => d.price * d.volume, deals);
    SortedTotal(deals, pid, side, both, (d: Deal) => d.volume);
    SortedTotal(deals, pid, side, both, (d: Deal) => d.price * d.volume);
    VwapTimesVolume(Filter(side, Sort(DealOrder, DealsOf(deals, pid))), fallback, volume, money);
  }

  lemma SortedIsMine(deals: seq<Deal>, pid: Pid, d: Deal)
    ensures d in Sort(DealOrder, DealsOf(deals, pid)) <==> d in deals && OnPosition(d, pid)
  {
    var mine := (d: Deal) => OnPosition(d, pid);
    SortedDeals(DealsOf(deals, pid), d);
    DealsOfAreMine(deals, pid, mine);
    FilterHolds(mine, deals, d);
  }

  /** The first entering and the last leaving deal of a position's sorted ones. */
  lemma EndsAreExtremes(deals: seq<Deal>, pid: Pid, first: Deal, last: Deal)
    requires var ds := Sort(DealOrder, DealsOf(deals, pid));
      Complete(ds) && first == Filter(Opens, ds)[0] && last == Filter(Closes, ds)[|Filter(Closes, ds)| - 1]
    ensures first in deals && OnPosition(first, pid) && Enters(first)
    ensures last in deals && OnPosition(last, pid) && Leaves(last)
    ensures forall d | d in deals && OnPosition(d, pid) && Enters(d) :: NoLaterThan(first, d)
    ensures forall d | d in deals && OnPosition(d, pid) && Leaves(d) :: NoLaterThan(d, last)
  {
    var ds := Sort(DealOrder, DealsOf(deals, pid));
    SortSorts(DealOrder, DealsOf(deals, pid));
    FilterHolds(Opens, ds, first);
    FilterHolds(Closes, ds, last);
    SortedIsMine(deals, pid, first);
    SortedIsMine(deals, pid, last);
    forall d | d in deals && OnPosition(d, pid)
      ensures Enters(d) ==> NoLaterThan(first, d)
      ensures Leaves(d) ==> NoLaterThan(d, last)
    {
      SortedIsMine(deals, pid, d);
      if Enters(d) {
        OpensOnTheEarliest(ds, d);
      }
      if Leaves(d) {
        ClosesOnTheLatest(ds, d);
      }
    }
  }

  lemma TradeIsRoundTrip(deals: seq<Deal>, pid: Pid)
    requires Complete(Sort(DealOrder, DealsOf(deals, pid)))
    ensures IsRoundTrip(deals, TradeOf(pid, Sort(DealOrder, DealsOf(deals, pid))))
  {
    var ds := Sort(DealOrder, DealsOf(deals, pid));
    var entries, exits := Filter(Opens, ds), Filter(Closes, ds);
    var first, last := entries[0], exits[|exits| - 1];
    TradeIsTotalled(deals, pid);
    EndsAreExtremes(deals, pid, first, last);
    VwapIsPriced(deals, pid, true, Opens, first.price, Vwap(entries, first.price));
    VwapIsPriced(deals, pid, false, Closes, last.price, Vwap(exits, last.price));
    SortedTotal(deals, pid, Opens, (d: Deal) => OnPosition(d, pid) && Enters(d), (d: Deal) => d.volume);
    assert IsSpanned(deals, TradeOf(pid, ds), first, last);
  }

  /** Both legs are in the log. */
  ghost predicate HasBothLegs(deals: seq<Deal>, pid: Pid) {
    && (exists d :: d in deals && OnPosition(d, pid) && Enters(d))
    && exists d :: d in deals && OnPosition(d, pid) && Leaves(d)
  }

  lemma CompleteHasBothLegs(deals: seq<Deal>, pid: Pid)
    ensures Complete(Sort(DealOrder, DealsOf(deals, pid))) <==> HasBothLegs(deals, pid)
  {
    var ds := Sort(DealOrder, DealsOf(deals, pid));
    if Complete(ds) {
      EndsAreExtremes(deals, pid, Filter(Opens, ds)[0], Filter(Closes, ds)[|Filter(Closes, ds)| - 1]);
    }
    if HasBothLegs(deals, pid) {
      var d :| d in deals && OnPosition(d, pid) && Enters(d);
      var e :| e in deals && OnPosition(e, pid) && Leaves(e);
      SortedIsMine(deals, pid, d);
      SortedIsMine(deals, pid, e);
      FilterHolds(Opens, ds, d);
      FilterHolds(Closes, ds, e);
    }
  }

  lemma {:induction false} PairedAre(deals: seq<Deal>, ps: seq<Pid>, t: Trade)
    ensures t in Paired(deals, ps) <==>
      t.positionId in ps && HasBothLegs(deals, t.positionId)
      && t == TradeIn(deals, t.positionId)
  {
    if ps != [] {
      var pid := ps[|ps| - 1];
      PairedAre(deals, ps[..|ps| - 1], t);
      CompleteHasBothLegs(deals, pid);
      assert ps == ps[..|ps| - 1] + [pid];
    }
  }

  /** The trade of a position with both legs in the log. */
  function TradeIn(deals: seq<Deal>, pid: Pid): (t: Trade)
    ensures t.positionId == pid
  {
    var ds := Sort(DealOrder, DealsOf(deals, pid));
    if Complete(ds) then TradeOf(pid, ds)
    else Trade(pid, "", false, 0.0, 0, 0, 0.0, 0.0, 0.0, 0.0, 0.0, 0.0, 0, 0, 0)
  }

  /** The round trips of a log: one for each position with both legs in it and for no other, each what the log says,
      in the order they closed. */
  ghost predicate AreRoundTrips(deals: seq<Deal>, trades: seq<Trade>) {
    && (forall t | t in trades :: HasBothLegs(deals, t.positionId) && IsRoundTrip(deals, t))
    && (forall pid | HasBothLegs(deals, pid) :: exists t :: t in trades && t.positionId == pid)
    && (forall i, j | 0 <= i < j < |trades| ::
          trades[i].positionId != trades[j].positionId && trades[i].closeTime <= trades[j].closeTime)
  }

  lemma ClosedAreRoundTrips(deals: seq<Deal>, trades: seq<Trade>)
    requires trades == Sort(CloseOrder, Paired(deals, Positions(deals)))
    ensures AreRoundTrips(deals, trades)
  {
    var ps := Positions(deals);
    SortPermutes(CloseOrder, Paired(deals, ps));
    SortSorts(CloseOrder, Paired(deals, ps));
    forall t ensures t in trades <==> t in Paired(deals, ps) {
      assert t in multiset(trades) <==> t in multiset(Paired(deals, ps));
    }
    forall t | t in trades ensures HasBothLegs(deals, t.positionId) && IsRoundTrip(deals, t) {
      PairedAre(deals, ps, t);
      CompleteHasBothLegs(deals, t.positionId);
      TradeIsRoundTrip(deals, t.positionId);
    }
    forall pid | HasBothLegs(deals, pid) ensures exists t :: t in trades && t.positionId == pid {
      var d :| d in deals && OnPosition(d, pid) && Enters(d);
      FilterHolds(IsTrade, deals, d);
      PositionsCover(deals, d);
      PairedAre(deals, ps, TradeIn(deals, pid));
    }
    forall i, j | 0 <= i < j < |trades| ensures trades[i].positionId != trades[j].positionId {
      OneTradePerPosition(deals, trades, i, j);
    }
  }

  // ------------------------------------------------------------ cash, read off the log

  ghost predicate IsCashOf(c: Cash, d: Deal) {
    d.kind >= 2 && c.time == d.time && c.kind == d.kind && c.amount == d.profit && c.comment == d.comment
  }

  /** The cash list is the log's other deals, all of them and in order, each with its time, kind, profit and
      comment. */
  ghost predicate AreCash(deals: seq<Deal>, cash: seq<Cash>, at: seq<nat>) {
    && |at| == |cash|
    && (forall i, j | 0 <= i < j < |at| :: at[i] < at[j])
    && (forall k: nat | k < |deals| && deals[k].kind >= 2 :: k in at)
    && forall i | 0 <= i < |at| :: at[i] < |deals| && IsCashOf(cash[i], deals[at[i]])
  }

  lemma OtherDeal(deals: seq<Deal>, d: Deal, cash: seq<Cash>, at: seq<nat>)
    requires AreCash(deals, cash, at) && d.kind < 2
    ensures AreCash(deals + [d], cash, at)
  {
  }

  lemma OneMoreCash(deals: seq<Deal>, d: Deal, cash: seq<Cash>, at: seq<nat>)
    requires AreCash(deals, cash, at) && d.kind >= 2
    ensures AreCash(deals + [d], cash + [CashOf(d)], at + [|deals|])
  {
  }

  lemma {:induction false} CashIsListed(deals: seq<Deal>) returns (at: seq<nat>)
    ensures AreCash(deals, CashMovements(deals), at)
  {
    if deals == [] {
      at := [];
    } else {
      var front, d := deals[..|deals| - 1], deals[|deals| - 1];
      at := CashIsListed(front);
      assert deals == front + [d];
      if d.kind >= 2 {
        OneMoreCash(front, d, CashMovements(front), at);
        at := at + [|front|];
      } else {
        OtherDeal(front, d, CashMovements(front), at);
      }
    }
  }
}
