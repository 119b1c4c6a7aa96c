/** The stable sort behind Python's `sorted` and `list.sort`. numpy's `argsort` is the same
    on up to sixteen keys, where its default kind is an insertion sort. */
module StableSort {
  import opened Prelude

  ghost predicate TotalPreorder<T(!new)>(leq: (T, T) -> bool) {
    && (forall x, y :: leq(x, y) || leq(y, x))
    && (forall x, y, z :: leq(x, y) && leq(y, z) ==> leq(x, z))
  }

  ghost predicate Sorted<T>(leq: (T, T) -> bool, s: seq<T>) {
    forall i, j | 0 <= i < j < |s| :: leq(s[i], s[j])
  }

  /** Insert x behind every element it does not strictly precede. */
  function Insert<T>(leq: (T, T) -> bool, x: T, s: seq<T>): seq<T> {
    if s == [] then [x]
    else if leq(s[|s| - 1], x) then s + [x]
    else Insert(leq, x, s[..|s| - 1]) + [s[|s| - 1]]
  }

  function Sort<T>(leq: (T, T) -> bool, s: seq<T>): seq<T> {
    if s == [] then [] else Insert(leq, s[|s| - 1], Sort(leq, s[..|s| - 1]))
  }

  lemma {:induction false} InsertPermutes<T>(leq: (T, T) -> bool, x: T, s: seq<T>)
    ensures multiset(Insert(leq, x, s)) == multiset(s) + multiset{x}
  {
    if s != [] {
      assert s == s[..|s| - 1] + [s[|s| - 1]];
      InsertPermutes(leq, x, s[..|s| - 1]);
    }
  }

  lemma {:induction false} SortPermutes<T>(leq: (T, T) -> bool, s: seq<T>)
    ensures multiset(Sort(leq, s)) == multiset(s)
    ensures |Sort(leq, s)| == |s|
  {
    if s != [] {
      var front, x := s[..|s| - 1], s[|s| - 1];
      assert s == front + [x];
      SortPermutes(leq, front);
      InsertPermutes(leq, x, Sort(leq, front));
    }
    assert |multiset(Sort(leq, s))| == |multiset(s)|;
  }

  lemma {:induction false} InsertSorts<T(!new)>(leq: (T, T) -> bool, x: T, s: seq<T>)
    requires TotalPreorder(leq) && Sorted(leq, s)
    ensures Sorted(leq, Insert(leq, x, s))
  {
    if s != [] && !leq(s[|s| - 1], x) {
      var front, last := s[..|s| - 1], s[|s| - 1];
      InsertSorts(leq, x, front);
      var r := Insert(leq, x, front);
      forall i | 0 <= i < |r| ensures leq(r[i], last) {
        InsertPermutes(leq, x, front);
        assert r[i] in multiset(r);
        assert r[i] == x || r[i] in multiset(front);
      }
    }
  }

  lemma {:induction false} SortSorts<T(!new)>(leq: (T, T) -> bool, s: seq<T>)
    requires TotalPreorder(leq)
    ensures Sorted(leq, Sort(leq, s))
  {
    if s != [] {
      SortSorts(leq, s[..|s| - 1]);
      InsertSorts(leq, s[|s| - 1], Sort(leq, s[..|s| - 1]));
    }
  }

  lemma {:induction false} InsertCongruent<T>(leq: (T, T) -> bool, leq': (T, T) -> bool, x: T, s: seq<T>)
    requires forall k | 0 <= k < |s| :: leq(s[k], x) == leq'(s[k], x)
    ensures Insert(leq, x, s) == Insert(leq', x, s)
  {
    if s != [] {
      InsertCongruent(leq, leq', x, s[..|s| - 1]);
    }
  }

  /** The sort asks only whether an earlier element may stay before a later one: two orders that agree there
      sort s the same way, ties included. */
  lemma {:induction false} SortCongruent<T>(leq: (T, T) -> bool, leq': (T, T) -> bool, s: seq<T>)
    requires forall i, j | 0 <= i < j < |s| :: leq(s[i], s[j]) == leq'(s[i], s[j])
    ensures Sort(leq, s) == Sort(leq', s)
  {
    if s != [] {
      var front, x := s[..|s| - 1], s[|s| - 1];
      SortCongruent(leq, leq', front);
      var r := Sort(leq, front);
      forall k | 0 <= k < |r| ensures leq(r[k], x) == leq'(r[k], x) {
        SortPermutes(leq, front);
        assert r[k] in multiset(front);
        var i :| 0 <= i < |front| && front[i] == r[k];
        assert s[i] == r[k];
      }
      InsertCongruent(leq, leq', x, r);
    }
  }

  // ------------------------------------------------------------ ranking by a key

  function KeyAt(keys: seq<real>, i: nat): real {
    if i < |keys| then keys[i] else 0.0
  }

  predicate KeyOrder(keys: seq<real>, i: nat, j: nat) {
    KeyAt(keys, i) <= KeyAt(keys, j)
  }

  /** Indices of keys in ascending key order, equal keys in index order. */
  function ArgSort(keys: seq<real>): (r: seq<nat>)
    ensures |r| == |keys| && forall i | 0 <= i < |r| :: r[i] < |keys|
  {
    var leq := (i: nat, j: nat) => KeyOrder(keys, i, j);
    SortPermutes(leq, Indices(|keys|));
    PermutationFacts(Sort(leq, Indices(|keys|)), |keys|);
    Sort(leq, Indices(|keys|))
  }

  lemma ArgSortRanks(keys: seq<real>)
    ensures IsPermutation(ArgSort(keys), |keys|)
    ensures forall i, j | 0 <= i < j < |keys| :: ArgSort(keys)[i] != ArgSort(keys)[j]
    ensures forall i, j | 0 <= i < j < |keys| :: keys[ArgSort(keys)[i]] <= keys[ArgSort(keys)[j]]
  {
    var leq := (i: nat, j: nat) => KeyOrder(keys, i, j);
    SortPermutes(leq, Indices(|keys|));
    SortSorts(leq, Indices(|keys|));
    PermutationFacts(ArgSort(keys), |keys|);
  }

  ghost predicate IsPermutation(order: seq<nat>, n: nat) {
    multiset(order) == multiset(Indices(n))
  }

  /** A permutation of 0..n-1 stays in range and repeats nothing. */
  lemma PermutationFacts(order: seq<nat>, n: nat)
    requires IsPermutation(order, n)
    ensures |order| == n
    ensures forall i | 0 <= i < n :: order[i] < n
    ensures forall i, j | 0 <= i < j < n :: order[i] != order[j]
    ensures forall v | 0 <= v < n :: v in order
  {
    var all := Indices(n);
    assert |multiset(order)| == |multiset(all)|;
    forall i | 0 <= i < n ensures order[i] < n {
      assert order[i] in multiset(all);
    }
    forall i, j | 0 <= i < j < n ensures order[i] != order[j] {
      if order[i] == order[j] {
        RepeatCountsTwice(order, i, j);
        IndicesOnce(n, order[i]);
      }
    }
    forall v | 0 <= v < n ensures v in order {
      assert all[v] == v;
      assert v in multiset(all);
    }
  }

  lemma RepeatCountsTwice<T>(s: seq<T>, i: nat, j: nat)
    requires i < j < |s| && s[i] == s[j]
    ensures multiset(s)[s[i]] >= 2
  {
    assert s == s[..i] + [s[i]] + s[i + 1..j] + [s[j]] + s[j + 1..];
  }

  lemma {:induction false} IndicesOnce(n: nat, v: nat)
    ensures multiset(Indices(n))[v] == if v < n then 1 else 0
  {
    if n > 0 {
      assert Indices(n) == Indices(n - 1) + [n - 1];
      IndicesOnce(n - 1, v);
    }
  }

  /** The items holding the k smallest ranks. */
  function RankSet(order: seq<nat>, k: nat): set<nat>
    requires k <= |order|
  {
    set r | 0 <= r < k :: order[r]
  }

  lemma {:induction false} PrefixSize(order: seq<nat>, k: nat, n: nat)
    requires k <= |order| && IsPermutation(order, n)
    ensures |RankSet(order, k)| == k
  {
    PermutationFacts(order, n);
    if k > 0 {
      PrefixSize(order, k - 1, n);
      assert RankSet(order, k) == RankSet(order, k - 1) + {order[k - 1]};
    }
  }

  /** By key, and by index between equal keys. */
  predicate IndexOrder(keys: seq<real>, i: nat, j: nat) {
    KeyAt(keys, i) < KeyAt(keys, j) || (KeyAt(keys, i) == KeyAt(keys, j) && i <= j)
  }

  lemma IndexBreaksTies(keys: seq<real>)
    ensures ArgSort(keys) == Sort((i: nat, j: nat) => IndexOrder(keys, i, j), Indices(|keys|))
  {
    SortCongruent((i: nat, j: nat) => KeyOrder(keys, i, j),
                  (i: nat, j: nat) => IndexOrder(keys, i, j),
                  Indices(|keys|));
  }

  /** The ranking is stable: equal keys keep the order of their indices. */
  lemma ArgSortIsStable(keys: seq<real>, i: nat, j: nat)
    requires i < j < |keys| && keys[ArgSort(keys)[i]] == keys[ArgSort(keys)[j]]
    ensures ArgSort(keys)[i] < ArgSort(keys)[j]
  {
    var byIndex := (i: nat, j: nat) => IndexOrder(keys, i, j);
    IndexBreaksTies(keys);
    SortSorts(byIndex, Indices(|keys|));
    assert byIndex(ArgSort(keys)[i], ArgSort(keys)[j]);
    ArgSortRanks(keys);
  }

  /** What ranks below index s, by comparing keys alone. */
  ghost function Outranked(keys: seq<real>, s: nat): set<nat>
    requires s < |keys|
  {
    set u: nat | u < |keys| && (keys[u] < keys[s] || (keys[u] == keys[s] && u < s))
  }

  /** The rank of an index is how many it outranks. */
  lemma RankIsACount(keys: seq<real>, r: nat)
    requires r < |keys|
    ensures |Outranked(keys, ArgSort(keys)[r])| == r
  {
    var order := ArgSort(keys);
    ArgSortRanks(keys);
    PermutationFacts(order, |keys|);
    forall q: nat | q < |keys| ensures order[q] in Outranked(keys, order[r]) <==> q < r {
      OutrankedIsEarlier(keys, q, r);
    }
    forall u | u in Outranked(keys, order[r]) ensures u in RankSet(order, r) {
      assert u in order;
    }
    assert Outranked(keys, order[r]) == RankSet(order, r);
    PrefixSize(order, r, |keys|);
  }

  lemma OutrankedIsEarlier(keys: seq<real>, q: nat, r: nat)
    requires q < |keys| && r < |keys|
    ensures ArgSort(keys)[q] in Outranked(keys, ArgSort(keys)[r]) <==> q < r
  {
    ArgSortRanks(keys);
    if q < r && keys[ArgSort(keys)[q]] == keys[ArgSort(keys)[r]] {
      ArgSortIsStable(keys, q, r);
    } else if r < q && keys[ArgSort(keys)[q]] == keys[ArgSort(keys)[r]] {
      ArgSortIsStable(keys, r, q);
    }
  }

  /** Adding one amount to every key leaves the ranking alone, ties included. */
  lemma ArgSortShift(keys: seq<real>, shifted: seq<real>, d: real)
    requires |keys| == |shifted| && forall i | 0 <= i < |keys| :: shifted[i] == keys[i] + d
    ensures ArgSort(shifted) == ArgSort(keys)
  {
    SortCongruent((i: nat, j: nat) => KeyOrder(keys, i, j),
                  (i: nat, j: nat) => KeyOrder(shifted, i, j),
                  Indices(|keys|));
  }
}
