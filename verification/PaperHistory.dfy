/** What the paper trader reads back from the venue's history (tools/mt5_paper.py): today's realised
    profit, the net of each position closed today, and the losing streak that ends them. */
module PaperHistory {
  import opened Prelude
  import opened Ledger
  import opened StableSort

  const MAGIC: int := 770315

  /** A history query either answers or raises VenueUnreadable. */
  datatype Answer<T> = Readable(value: T) | Unreadable

  function Net(d: Deal): real {
    d.profit + d.commission + d.swap
  }

  function Tagged(deals: seq<Deal>, magic: int): seq<Deal> {
    Filter((d: Deal) => d.magic == magic, deals)
  }

  /** The daily loss figure; a history that cannot be read is not a day without losses. */
  function RealisedToday(history: Option<seq<Deal>>): Answer<real> {
    match history
    case None => Unreadable
    case Some(deals) => Readable(SumBy(Net, Tagged(deals, MAGIC)))
  }

  // ------------------------------------------------------------ positions

  predicate Numbered(d: Deal) {
    d.positionId.Some?
  }

  function NumberOf(d: Deal): int {
    if d.positionId.Some? then d.positionId.value else 0
  }

  /** The tool's own deals that name a position. */
  function Owned(deals: seq<Deal>, magic: int): seq<Deal> {
    Filter(Numbered, Tagged(deals, magic))
  }

  function NetOf(owned: seq<Deal>, pid: int): real {
    SumBy(Net, Group(NumberOf, pid, owned))
  }

  /** A position is closed once it has an exit deal. */
  predicate Finished(owned: seq<Deal>, pid: int) {
    exists d | d in owned :: NumberOf(d) == pid && d.entry == ENTRY_OUT
  }

  /** The latest exit, never before the epoch. */
  function ClosedAt(owned: seq<Deal>, pid: int): int {
    if owned == [] then 0
    else
      var before, d := ClosedAt(owned[..|owned| - 1], pid), owned[|owned| - 1];
      if NumberOf(d) == pid && d.entry == ENTRY_OUT && d.time > before then d.time else before
  }

  predicate ClosedOrder(owned: seq<Deal>, p: int, q: int) {
    ClosedAt(owned, p) <= ClosedAt(owned, q)
  }

  /** `order` lists exactly the finished positions, each once, oldest close first. */
  ghost predicate ClosingOrder(owned: seq<Deal>, order: seq<int>) {
    && Distinct(order)
    && (forall p :: p in order <==> Finished(owned, p))
    && forall i, j | 0 <= i < j < |order| :: ClosedOrder(owned, order[i], order[j])
  }

  function Nets(owned: seq<Deal>, order: seq<int>): (r: seq<real>)
    ensures |r| == |order| && forall k | 0 <= k < |r| :: r[k] == NetOf(owned, order[k])
  {
    seq(|order|, k requires 0 <= k < |order| => NetOf(owned, order[k]))
  }

  function Get<V>(m: map<int, V>, k: int, default_: V): V {
    if k in m then m[k] else default_
  }

  ghost predicate NetsTable(owned: seq<Deal>, nets: map<int, real>) {
    forall p :: Get(nets, p, 0.0) == NetOf(owned, p)
  }

  ghost predicate ClosesTable(owned: seq<Deal>, closedAt: map<int, int>) {
    forall p :: Get(closedAt, p, 0) == ClosedAt(owned, p)
  }

  ghost predicate FinishedTable(owned: seq<Deal>, finished: set<int>) {
    forall p :: p in finished <==> Finished(owned, p)
  }

  /** What the three tables hold once `owned` has been read. */
  ghost predicate Tabulates(owned: seq<Deal>, nets: map<int, real>, closedAt: map<int, int>, finished: set<int>) {
    && NetsTable(owned, nets) && ClosesTable(owned, closedAt) && FinishedTable(owned, finished)
    && (forall p | p in finished :: p in nets && p in closedAt)
  }

  // ------------------------------------------------------------ the same, read off the deals

  /** What these deals booked under one magic number, on any position. */
  ghost function BookedBy(deals: seq<Deal>, magic: int): real {
    if deals == [] then 0.0
    else
      var d := deals[|deals| - 1];
      BookedBy(deals[..|deals| - 1], magic) + if d.magic == magic then d.profit + d.commission + d.swap else 0.0
  }

  /** What they booked on one position. */
  ghost function BookedOn(deals: seq<Deal>, magic: int, pid: int): real {
    if deals == [] then 0.0
    else
      var d := deals[|deals| - 1];
      BookedOn(deals[..|deals| - 1], magic, pid)
        + if d.magic == magic && d.positionId == Some(pid) then d.profit + d.commission + d.swap else 0.0
  }

  ghost predicate IsExit(d: Deal, magic: int, pid: int) {
    d.magic == magic && d.positionId == Some(pid) && d.entry == 1
  }

  /** t is the time of the position's last exit, or the epoch when every exit precedes it. */
  ghost predicate LastExit(deals: seq<Deal>, magic: int, pid: int, t: int) {
    && t >= 0 && (forall d | d in deals && IsExit(d, magic, pid) :: d.time <= t)
    && (t == 0 || exists d | d in deals && IsExit(d, magic, pid) :: d.time == t)
  }

  /** Exactly the positions with an exit, each once, oldest last exit first. */
  ghost predicate OldestFirst(deals: seq<Deal>, magic: int, order: seq<int>) {
    && Distinct(order)
    && (forall p :: p in order <==> exists d :: d in deals && IsExit(d, magic, p))
    && forall i, j, t, u | 0 <= i < j < |order| && LastExit(deals, magic, order[i], t)
                           && LastExit(deals, magic, order[j], u) :: t <= u
  }

  lemma {:induction false} BookedByIsTagged(deals: seq<Deal>, magic: int)
    ensures SumBy(Net, Tagged(deals, magic)) == BookedBy(deals, magic)
  {
    if deals != [] {
      BookedByIsTagged(deals[..|deals| - 1], magic);
    }
  }

  /** What a deal adds to one position of one magic number. */
  function Adds(d: Deal, magic: int, pid: int): real {
    if d.magic == magic && d.positionId == Some(pid) then Net(d) else 0.0
  }

  lemma NetOfNext(deals: seq<Deal>, d: Deal, magic: int, pid: int)
    ensures NetOf(Owned(deals + [d], magic), pid) == NetOf(Owned(deals, magic), pid) + Adds(d, magic, pid)
  {
    OwnedNext(deals, d, magic);
    NetNext(Owned(deals, magic), d, pid);
  }

  lemma BookedOnNext(deals: seq<Deal>, d: Deal, magic: int, pid: int)
    ensures BookedOn(deals + [d], magic, pid) == BookedOn(deals, magic, pid) + Adds(d, magic, pid)
  {
    assert (deals + [d])[..|deals|] == deals;
  }

  lemma {:induction false} BookedOnIsNet(deals: seq<Deal>, magic: int, pid: int)
    ensures NetOf(Owned(deals, magic), pid) == BookedOn(deals, magic, pid)
  {
    if deals == [] {
      assert Owned(deals, magic) == [];
    } else {
      var front, d := deals[..|deals| - 1], deals[|deals| - 1];
      BookedOnIsNet(front, magic, pid);
      NetOfNext(front, d, magic, pid);
      BookedOnNext(front, d, magic, pid);
      assert front + [d] == deals;
    }
  }

  lemma OwnedExit(deals: seq<Deal>, magic: int, pid: int, d: Deal)
    ensures d in Owned(deals, magic) && NumberOf(d) == pid && d.entry == ENTRY_OUT
       <==> d in deals && IsExit(d, magic, pid)
  {
    FilterHolds(Numbered, Tagged(deals, magic), d);
    FilterHolds((d: Deal) => d.magic == magic, deals, d);
  }

  lemma FinishedHasAnExit(deals: seq<Deal>, magic: int, pid: int)
    ensures Finished(Owned(deals, magic), pid) <==> exists d :: d in deals && IsExit(d, magic, pid)
  {
    forall d
      ensures d in Owned(deals, magic) && NumberOf(d) == pid && d.entry == ENTRY_OUT
         <==> d in deals && IsExit(d, magic, pid)
    {
      OwnedExit(deals, magic, pid, d);
    }
  }

  lemma {:induction false} ClosedAtIsTheLast(owned: seq<Deal>, pid: int)
    ensures ClosedAt(owned, pid) >= 0
    ensures forall d | d in owned && NumberOf(d) == pid && d.entry == ENTRY_OUT :: d.time <= ClosedAt(owned, pid)
    ensures ClosedAt(owned, pid) == 0
      || exists d | d in owned && NumberOf(d) == pid && d.entry == ENTRY_OUT :: d.time == ClosedAt(owned, pid)
  {
    if owned != [] {
      var front, last := owned[..|owned| - 1], owned[|owned| - 1];
      assert owned == front + [last];
      ClosedAtIsTheLast(front, pid);
    }
  }

  lemma ClosedAtIsLastExit(deals: seq<Deal>, magic: int, pid: int, t: int)
    ensures LastExit(deals, magic, pid, t) <==> t == ClosedAt(Owned(deals, magic), pid)
  {
    ClosedAtIsTheLast(Owned(deals, magic), pid);
    forall d
      ensures d in Owned(deals, magic) && NumberOf(d) == pid && d.entry == ENTRY_OUT
         <==> d in deals && IsExit(d, magic, pid)
    {
      OwnedExit(deals, magic, pid, d);
    }
  }

  lemma ClosingIsOldestFirst(deals: seq<Deal>, magic: int, order: seq<int>)
    requires ClosingOrder(Owned(deals, magic), order)
    ensures OldestFirst(deals, magic, order)
    ensures Nets(Owned(deals, magic), order) == BookedOver(deals, magic, order)
  {
    forall p ensures p in order <==> exists d :: d in deals && IsExit(d, magic, p) {
      FinishedHasAnExit(deals, magic, p);
    }
    forall i, j, t, u | 0 <= i < j < |order| && LastExit(deals, magic, order[i], t)
                        && LastExit(deals, magic, order[j], u)
      ensures t <= u
    {
      ClosedAtIsLastExit(deals, magic, order[i], t);
      ClosedAtIsLastExit(deals, magic, order[j], u);
      assert ClosedOrder(Owned(deals, magic), order[i], order[j]);
    }
    forall k | 0 <= k < |order| ensures NetOf(Owned(deals, magic), order[k]) == BookedOn(deals, magic, order[k]) {
      BookedOnIsNet(deals, magic, order[k]);
    }
  }

  ghost function BookedOver(deals: seq<Deal>, magic: int, order: seq<int>): (r: seq<real>)
    ensures |r| == |order| && forall k | 0 <= k < |r| :: r[k] == BookedOn(deals, magic, order[k])
  {
    seq(|order|, k requires 0 <= k < |order| => BookedOn(deals, magic, order[k]))
  }

  /** The nets of closed positions, oldest close first. Positions closed in the same second come in
      whatever order the set of them is enumerated. */
  method ClosedOutcomes(history: Option<seq<Deal>>, magic: int) returns (outcomes: Answer<seq<real>>, order: seq<int>)
    ensures history.None? <==> outcomes.Unreadable?
    ensures history.Some? ==>
      && ClosingOrder(Owned(history.value, magic), order)
      && outcomes == Readable(Nets(Owned(history.value, magic), order))
      // read off the deals: what was booked on each position with an exit, oldest last exit first
      && OldestFirst(history.value, magic, order) && outcomes == Readable(BookedOver(history.value, magic, order))
  {
    if history.None? {
      return Unreadable, [];
    }
    var nets, closedAt, finished := ReadTables(history.value, magic);
    var listed := Enumerate(finished);
    order := ByClose(closedAt, listed);
    ByCloseOrders(closedAt, listed);
    ByCloseIsClosingOrder(Owned(history.value, magic), nets, closedAt, finished, order);
    ClosingIsOldestFirst(history.value, magic, order);
    return Readable(LookUp(nets, order)), order;
  }

  function ByClose(closedAt: map<int, int>, listed: seq<int>): seq<int> {
    Sort((p: int, q: int) => Get(closedAt, p, 0) <= Get(closedAt, q, 0), listed)
  }

  function LookUp(nets: map<int, real>, order: seq<int>): (r: seq<real>)
    ensures |r| == |order| && forall k | 0 <= k < |r| :: r[k] == Get(nets, order[k], 0.0)
  {
    seq(|order|, k requires 0 <= k < |order| => Get(nets, order[k], 0.0))
  }

  lemma ByCloseOrders(closedAt: map<int, int>, listed: seq<int>)
    requires Distinct(listed)
    ensures var order := ByClose(closedAt, listed);
      && Distinct(order)
      && (forall p :: p in order <==> p in listed)
      && forall i, j | 0 <= i < j < |order| :: Get(closedAt, order[i], 0) <= Get(closedAt, order[j], 0)
  {
    var earlier := (p: int, q: int) => Get(closedAt, p, 0) <= Get(closedAt, q, 0);
    SortPermutes(earlier, listed);
    SortSorts(earlier, listed);
    SameElements(listed, ByClose(closedAt, listed));
  }

  lemma ByCloseIsClosingOrder(owned: seq<Deal>, nets: map<int, real>, closedAt: map<int, int>, finished: set<int>,
                              order: seq<int>)
    requires Tabulates(owned, nets, closedAt, finished) && Distinct(order)
    requires forall p :: p in order <==> p in finished
    requires forall i, j | 0 <= i < j < |order| :: Get(closedAt, order[i], 0) <= Get(closedAt, order[j], 0)
    ensures ClosingOrder(owned, order) && LookUp(nets, order) == Nets(owned, order)
  {
  }

  /** One pass over the deals. */
  method ReadTables(deals: seq<Deal>, magic: int)
    returns (nets: map<int, real>, closedAt: map<int, int>, finished: set<int>)
    ensures Tabulates(Owned(deals, magic), nets, closedAt, finished)
  {
    nets, closedAt, finished := map[], map[], {};
    for i := 0 to |deals|
      invariant Tabulates(Owned(deals[..i], magic), nets, closedAt, finished)
    {
      var d := deals[i];
      OwnedNext(deals[..i], d, magic);
      assert deals[..i] + [d] == deals[..i + 1];
      if d.magic != magic || d.positionId.None? {
        continue;
      }
      nets, closedAt, finished := PostDeal(Owned(deals[..i], magic), d, nets, closedAt, finished);
    }
    assert deals[..|deals|] == deals;
  }

  /** Post one of the tool's deals to the three tables. */
  method PostDeal(ghost owned: seq<Deal>, d: Deal, nets0: map<int, real>, closedAt0: map<int, int>, finished0: set<int>)
    returns (nets: map<int, real>, closedAt: map<int, int>, finished: set<int>)
    requires Numbered(d) && Tabulates(owned, nets0, closedAt0, finished0)
    ensures Tabulates(owned + [d], nets, closedAt, finished)
  {
    nets, closedAt, finished := nets0, closedAt0, finished0;
    var pid := d.positionId.value;
    NetsPosted(owned, d, nets);
    nets := nets[pid := Get(nets, pid, 0.0) + (d.profit + d.commission + d.swap)];
    ClosePosted(owned, d, closedAt);
    FinishPosted(owned, d, finished);
    if d.entry == ENTRY_OUT {
      finished := finished + {pid};
      var before := Get(closedAt, pid, 0);
      closedAt := closedAt[pid := if d.time > before then d.time else before];
    }
  }

  lemma NetsPosted(owned: seq<Deal>, d: Deal, nets: map<int, real>)
    requires Numbered(d) && NetsTable(owned, nets)
    ensures NetsTable(owned + [d], nets[d.positionId.value := Get(nets, d.positionId.value, 0.0) + Net(d)])
  {
    var posted := nets[d.positionId.value := Get(nets, d.positionId.value, 0.0) + Net(d)];
    forall p ensures Get(posted, p, 0.0) == NetOf(owned + [d], p) {
      NetNext(owned, d, p);
    }
  }

  lemma NetNext(owned: seq<Deal>, d: Deal, p: int)
    ensures NetOf(owned + [d], p) == if NumberOf(d) == p then NetOf(owned, p) + Net(d) else NetOf(owned, p)
  {
  }

  lemma ClosePosted(owned: seq<Deal>, d: Deal, closedAt: map<int, int>)
    requires Numbered(d) && ClosesTable(owned, closedAt)
    ensures var pid, before := d.positionId.value, Get(closedAt, d.positionId.value, 0);
      ClosesTable(owned + [d],
        if d.entry == ENTRY_OUT then closedAt[pid := if d.time > before then d.time else before] else closedAt)
  {
    var pid, before := d.positionId.value, Get(closedAt, d.positionId.value, 0);
    var posted := if d.entry == ENTRY_OUT
                  then closedAt[pid := if d.time > before then d.time else before] else closedAt;
    forall p ensures Get(posted, p, 0) == ClosedAt(owned + [d], p) {
      CloseNext(owned, d, p);
    }
  }

  lemma CloseNext(owned: seq<Deal>, d: Deal, p: int)
    ensures ClosedAt(owned + [d], p) == if NumberOf(d) == p && d.entry == ENTRY_OUT && d.time > ClosedAt(owned, p)
                                        then d.time else ClosedAt(owned, p)
  {
  }

  lemma FinishPosted(owned: seq<Deal>, d: Deal, finished: set<int>)
    requires Numbered(d) && FinishedTable(owned, finished)
    ensures FinishedTable(owned + [d], if d.entry == ENTRY_OUT then finished + {d.positionId.value} else finished)
  {
  }

  /** A set's elements in some order. */
  method Enumerate(s: set<int>) returns (r: seq<int>)
    ensures Distinct(r)
    ensures forall p :: p in r <==> p in s
  {
    r := [];
    var rest := s;
    while rest != {}
      invariant Distinct(r)
      invariant forall p :: p in r ==> p in s && p !in rest
      invariant forall p :: p in rest ==> p in s
      invariant forall p :: p in s ==> p in r || p in rest
      decreases |rest|
    {
      HasElement(rest);
      var p :| p in rest;
      r, rest := r + [p], rest - {p};
    }
  }

  lemma HasElement(s: set<int>)
    requires s != {}
    ensures exists p :: p in s
  {
    if forall p :: p !in s {
      assert false;
    }
  }

  lemma SameElements(s: seq<int>, t: seq<int>)
    requires Distinct(s) && multiset(s) == multiset(t)
    ensures Distinct(t) && forall p :: p in s <==> p in t
  {
    forall p ensures p in s <==> p in t {
      assert p in s <==> p in multiset(s);
      assert p in t <==> p in multiset(t);
    }
    forall i, j | 0 <= i < j < |t| ensures t[i] != t[j] {
      if t[i] == t[j] {
        RepeatCountsTwice(t, i, j);
        DistinctCountsOnce(s, t[i]);
      }
    }
  }

  lemma {:induction false} DistinctCountsOnce(s: seq<int>, p: int)
    requires Distinct(s)
    ensures multiset(s)[p] <= 1
  {
    if s != [] {
      var front, last := s[..|s| - 1], s[|s| - 1];
      assert s == front + [last];
      DistinctCountsOnce(front, p);
      if p == last {
        assert p !in front;
        assert multiset(front)[p] == 0;
      }
    }
  }

  lemma OwnedNext(deals: seq<Deal>, d: Deal, magic: int)
    ensures Owned(deals + [d], magic)
         == if d.magic == magic && Numbered(d) then Owned(deals, magic) + [d] else Owned(deals, magic)
  {
  }

  // ------------------------------------------------------------ the two figures agree

  /** Positions touched today but not closed. */
  ghost predicate OpenOrder(owned: seq<Deal>, open: seq<int>) {
    Distinct(open) && forall p :: p in open <==> (exists d | d in owned :: NumberOf(d) == p) && !Finished(owned, p)
  }

  /** Today's realised profit is the closed positions' nets, plus what is booked on positions still
      open and on deals that name no position. */
  lemma RealisedIsOutcomesPlusOpen(deals: seq<Deal>, order: seq<int>, open: seq<int>)
    requires ClosingOrder(Owned(deals, MAGIC), order) && OpenOrder(Owned(deals, MAGIC), open)
    ensures RealisedToday(Some(deals))
         == Readable(Sum(Nets(Owned(deals, MAGIC), order)) + Sum(Nets(Owned(deals, MAGIC), open))
                     + SumBy(Net, Filter((d: Deal) => !Numbered(d), Tagged(deals, MAGIC))))
  {
    OwnedIsOutcomesPlusOpen(Owned(deals, MAGIC), order, open);
    SumSplits(Net, Numbered, (d: Deal) => !Numbered(d), Tagged(deals, MAGIC));
  }

  lemma OwnedIsOutcomesPlusOpen(owned: seq<Deal>, order: seq<int>, open: seq<int>)
    requires ClosingOrder(owned, order) && OpenOrder(owned, open)
    ensures SumBy(Net, owned) == Sum(Nets(owned, order)) + Sum(Nets(owned, open))
  {
    var keys := order + open;
    TogetherDistinct(owned, order, open);
    forall d | d in owned ensures NumberOf(d) in keys {
      assert NumberOf(d) in order || NumberOf(d) in open;
    }
    GroupsConserve(Net, NumberOf, keys, owned);
    GroupSumConcat(owned, order, open);
    GroupSumIsNets(owned, order);
    GroupSumIsNets(owned, open);
  }

  lemma TogetherDistinct(owned: seq<Deal>, order: seq<int>, open: seq<int>)
    requires ClosingOrder(owned, order) && OpenOrder(owned, open)
    ensures Distinct(order + open)
  {
    var keys := order + open;
    forall i, j | 0 <= i < j < |keys| ensures keys[i] != keys[j] {
      if i < |order| <= j {
        assert order[i] in order && open[j - |order|] in open;
      }
    }
  }

  lemma {:induction false} GroupSumIsNets(owned: seq<Deal>, keys: seq<int>)
    ensures GroupSum(Net, NumberOf, keys, owned) == Sum(Nets(owned, keys))
  {
    if keys != [] {
      GroupSumIsNets(owned, keys[..|keys| - 1]);
      assert Nets(owned, keys)[..|keys| - 1] == Nets(owned, keys[..|keys| - 1]);
    }
  }

  lemma {:induction false} GroupSumConcat(owned: seq<Deal>, a: seq<int>, b: seq<int>)
    ensures GroupSum(Net, NumberOf, a + b, owned)
         == GroupSum(Net, NumberOf, a, owned) + GroupSum(Net, NumberOf, b, owned)
  {
    if b == [] {
      assert a + b == a;
    } else {
      assert (a + b)[..|a + b| - 1] == a + b[..|b| - 1];
      GroupSumConcat(owned, a, b[..|b| - 1]);
    }
  }

  // ------------------------------------------------------------ the losing streak

  /** n is the longest run of losses ending the sequence; a break-even ends the run. */
  ghost predicate IsStreak(outcomes: seq<real>, n: nat) {
    && n <= |outcomes|
    && (forall k | |outcomes| - n <= k < |outcomes| :: outcomes[k] < 0.0)
    && (n < |outcomes| ==> outcomes[|outcomes| - n - 1] >= 0.0)
  }

  /** Counts back from the end to the last outcome that was not a loss. */
  method ConsecutiveLosses(outcomes: seq<real>) returns (n: nat)
    ensures IsStreak(outcomes, n)
  {
    n := 0;
    while n < |outcomes|
      invariant n <= |outcomes|
      invariant forall k | |outcomes| - n <= k < |outcomes| :: outcomes[k] < 0.0
    {
      if outcomes[|outcomes| - n - 1] >= 0.0 {
        break;
      }
      n := n + 1;
    }
  }

  /** The streak reaches a cap exactly when the last `cap` closed positions all lost money. */
  lemma StreakReachesIff(outcomes: seq<real>, n: nat, cap: nat)
    requires IsStreak(outcomes, n)
    ensures n >= cap <==> cap <= |outcomes| && forall k | |outcomes| - cap <= k < |outcomes| :: outcomes[k] < 0.0
  {
  }
}
