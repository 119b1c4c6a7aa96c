/** Deals as the venue's history lists them, and how a sum over deals splits by group. */
module Ledger {
  import opened Prelude

  const ENTRY_IN: int := 0
  const ENTRY_OUT: int := 1
  const ENTRY_INOUT: int := 2
  const ENTRY_OUT_BY: int := 3

  datatype Deal = Deal(kind: int, positionId: Option<int>, entry: int, magic: int, time: int, timeMsc: int,
                       ticket: int, symbol: string, volume: real, price: real, profit: real, commission: real,
                       swap: real, fee: real, reason: int, comment: string)

  function Filter<T>(p: T -> bool, s: seq<T>): seq<T> {
    if s == [] then []
    else if p(s[|s| - 1]) then Filter(p, s[..|s| - 1]) + [s[|s| - 1]]
    else Filter(p, s[..|s| - 1])
  }

  lemma {:induction false} FilterHolds<T>(p: T -> bool, s: seq<T>, x: T)
    ensures x in Filter(p, s) <==> x in s && p(x)
  {
    if s != [] {
      assert s == s[..|s| - 1] + [s[|s| - 1]];
      FilterHolds(p, s[..|s| - 1], x);
    }
  }

  lemma {:induction false} FilterTwice<T>(p: T -> bool, q: T -> bool, both: T -> bool, s: seq<T>)
    requires forall x :: both(x) == (p(x) && q(x))
    ensures Filter(p, Filter(q, s)) == Filter(both, s)
  {
    if s != [] {
      var last := s[|s| - 1];
      FilterTwice(p, q, both, s[..|s| - 1]);
      if q(last) {
        assert Filter(q, s)[..|Filter(q, s)| - 1] == Filter(q, s[..|s| - 1]);
      }
    }
  }

  lemma {:induction false} SumSplits<T>(f: T -> real, p: T -> bool, q: T -> bool, s: seq<T>)
    requires forall x :: q(x) == !p(x)
    ensures SumBy(f, s) == SumBy(f, Filter(p, s)) + SumBy(f, Filter(q, s))
  {
    if s != [] {
      var last := s[|s| - 1];
      SumSplits(f, p, q, s[..|s| - 1]);
      SumByConcat(f, Filter(p, s[..|s| - 1]), [last]);
      SumByConcat(f, Filter(q, s[..|s| - 1]), [last]);
      assert SumBy(f, [last]) == f(last);
    }
  }

  ghost predicate Distinct<K>(keys: seq<K>) {
    forall i, j | 0 <= i < j < |keys| :: keys[i] != keys[j]
  }

  function Group<T, K(==)>(key: T -> K, k: K, s: seq<T>): seq<T> {
    Filter((x: T) => key(x) == k, s)
  }

  /** The sum of the groups' sums, group by group. */
  function GroupSum<T, K(==)>(f: T -> real, key: T -> K, keys: seq<K>, s: seq<T>): real {
    if keys == [] then 0.0
    else GroupSum(f, key, keys[..|keys| - 1], s) + SumBy(f, Group(key, keys[|keys| - 1], s))
  }

  lemma {:induction false} GroupSumOfRest<T(!new), K>(f: T -> real, key: T -> K, keys: seq<K>, k: K, s: seq<T>)
    requires k !in keys
    ensures GroupSum(f, key, keys, Filter((x: T) => key(x) != k, s)) == GroupSum(f, key, keys, s)
  {
    if keys != [] {
      var last := keys[|keys| - 1];
      assert last in keys;
      GroupSumOfRest(f, key, keys[..|keys| - 1], k, s);
      FilterTwice((x: T) => key(x) == last, (x: T) => key(x) != k, (x: T) => key(x) == last, s);
    }
  }

  /** Splitting by a key loses nothing and counts nothing twice. */
  lemma {:induction false} GroupsConserve<T(!new), K>(f: T -> real, key: T -> K, keys: seq<K>, s: seq<T>)
    requires Distinct(keys) && forall x | x in s :: key(x) in keys
    ensures GroupSum(f, key, keys, s) == SumBy(f, s)
  {
    HeadIsIn(s);
    if keys != [] {
      var front, k := keys[..|keys| - 1], keys[|keys| - 1];
      var rest := Filter((x: T) => key(x) != k, s);
      forall x | x in rest ensures key(x) in front {
        FilterHolds((x: T) => key(x) != k, s, x);
        assert keys == front + [k];
      }
      assert SumBy(f, rest) == GroupSum(f, key, front, s) by {
        GroupsConserve(f, key, front, rest);
        GroupSumOfRest(f, key, front, k, s);
      }
      assert SumBy(f, s) == SumBy(f, Group(key, k, s)) + SumBy(f, rest) by {
        SumSplits(f, (x: T) => key(x) == k, (x: T) => key(x) != k, s);
      }
    }
  }

  /** Everything a deal did to the balance. */
  function Money(d: Deal): real {
    d.profit + d.commission + d.swap + d.fee
  }

  /** The sum of f over the elements that p picks, in one pass. */
  ghost function Total<T>(p: T -> bool, f: T -> real, s: seq<T>): real {
    if s == [] then 0.0
    else Total(p, f, s[..|s| - 1]) + if p(s[|s| - 1]) then f(s[|s| - 1]) else 0.0
  }

  lemma {:induction false} TotalIsFiltered<T>(p: T -> bool, f: T -> real, s: seq<T>)
    ensures Total(p, f, s) == SumBy(f, Filter(p, s))
  {
    if s != [] {
      TotalIsFiltered(p, f, s[..|s| - 1]);
    }
  }

  lemma {:induction false} FilterCounts<T>(p: T -> bool, s: seq<T>, x: T)
    ensures multiset(Filter(p, s))[x] == if p(x) then multiset(s)[x] else 0
  {
    if s != [] {
      var front, last := s[..|s| - 1], s[|s| - 1];
      assert s == front + [last];
      FilterCounts(p, front, x);
    }
  }

  lemma FilterPermuted<T(!new)>(p: T -> bool, s: seq<T>, t: seq<T>)
    requires multiset(s) == multiset(t)
    ensures multiset(Filter(p, s)) == multiset(Filter(p, t))
  {
    forall x ensures multiset(Filter(p, s))[x] == multiset(Filter(p, t))[x] {
      FilterCounts(p, s, x);
      FilterCounts(p, t, x);
    }
  }
}
