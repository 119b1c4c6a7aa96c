/** Vocabulary shared by every module: optional values, real arithmetic helpers,
    sums over sequences and extremes over index windows. */
module Prelude {

  datatype Option<+T> = None | Some(value: T)

  function Abs(x: real): real {
    if x < 0.0 then -x else x
  }

  function Min(x: real, y: real): real {
    if x <= y then x else y
  }

  function Max(x: real, y: real): real {
    if x >= y then x else y
  }

  lemma QuotientIs(x: real, y: real, q: real)
    requires y != 0.0 && x == q * y
    ensures x / y == q
  {
  }

  /** t is a whole number of periods. */
  predicate OnTheBeat(t: nat, period: nat)
    requires period > 0
  {
    if t < period then t == 0 else OnTheBeat(t - period, period)
  }

  lemma {:induction false} BeatIsRemainder(t: nat, period: nat)
    requires period > 0
    ensures OnTheBeat(t, period) <==> t % period == 0
  {
    if t >= period {
      BeatIsRemainder(t - period, period);
      WholePeriods(t, period, t / period);
    }
  }

  lemma WholePeriods(t: nat, period: nat, q: nat)
    requires period > 0 && q == t / period && t >= period
    ensures (t - period) % period == t % period
  {
    assert t - period == (q - 1) * period + t % period;
    RemainderIs(t - period, period, q - 1, t % period);
  }

  lemma RemainderIs(x: int, period: nat, q: int, r: int)
    requires 0 <= r < period && x == q * period + r
    ensures x % period == r
  {
    var q', r' := x / period, x % period;
    assert (q - q') * period == r' - r;
    if q > q' {
      AtLeast(q - q', period);
    } else if q < q' {
      AtLeast(q' - q, period);
    }
  }

  lemma AtLeast(k: int, period: nat)
    requires k >= 1
    ensures k * period >= period
  {
  }

  lemma HeadIsIn<T>(s: seq<T>)
    ensures s == [] || s[0] in s
  {
  }

  /** A loop that moves the head of `rest` onto `done` keeps their concatenation. */
  lemma MoveHead<T>(done: seq<T>, x: T, rest: seq<T>)
    ensures done + ([x] + rest) == (done + [x]) + rest
  {
  }

  /** The sum of f over the elements of s, taken from the front as a loop takes it. */
  function SumBy<T>(f: T -> real, s: seq<T>): real {
    if s == [] then 0.0 else SumBy(f, s[..|s| - 1]) + f(s[|s| - 1])
  }

  function Sum(s: seq<real>): real {
    SumBy((x: real) => x, s)
  }

  lemma SumByAppend<T>(f: T -> real, s: seq<T>, x: T)
    ensures SumBy(f, s + [x]) == SumBy(f, s) + f(x)
  {
  }

  lemma {:induction false} SumByConcat<T>(f: T -> real, s: seq<T>, t: seq<T>)
    ensures SumBy(f, s + t) == SumBy(f, s) + SumBy(f, t)
  {
    if t == [] {
      assert s + t == s;
    } else {
      assert (s + t)[..|s + t| - 1] == s + t[..|t| - 1];
      SumByConcat(f, s, t[..|t| - 1]);
    }
  }

  /** A sum over a sequence cut in three. */
  lemma SumByThree<T>(f: T -> real, s: seq<T>, a: seq<T>, b: seq<T>, c: seq<T>)
    requires s == (a + b) + c
    ensures SumBy(f, s) == SumBy(f, a) + SumBy(f, b) + SumBy(f, c)
  {
    SumByConcat(f, a + b, c);
    SumByConcat(f, a, b);
  }

  lemma CutInThree<T>(s: seq<T>, lo: nat, hi: nat)
    requires lo <= hi <= |s|
    ensures s == (s[0..lo] + s[lo..hi]) + s[hi..|s|]
  {
  }

  /** Order does not matter to a sum: sequences with the same elements have equal sums. */
  lemma {:induction false} SumByPermuted<T>(f: T -> real, s: seq<T>, t: seq<T>)
    requires multiset(s) == multiset(t)
    ensures SumBy(f, s) == SumBy(f, t)
    decreases |s|
  {
    if s == [] {
      assert |multiset(t)| == 0;
    } else {
      var x := s[|s| - 1];
      assert s == s[..|s| - 1] + [x];
      assert x in multiset(t);
      var k :| 0 <= k < |t| && t[k] == x;
      var rest := t[..k] + t[k + 1..];
      assert t == t[..k] + [x] + t[k + 1..];
      assert multiset(s[..|s| - 1]) == multiset(s) - multiset{x};
      assert multiset(rest) == multiset(t) - multiset{x};
      SumByPermuted(f, s[..|s| - 1], rest);
      SumByConcat(f, t[..k] + [x], t[k + 1..]);
      SumByConcat(f, t[..k], [x]);
      SumByConcat(f, t[..k], t[k + 1..]);
      assert SumBy(f, [x]) == f(x);
    }
  }

  /** Two functions that agree on the elements of s have the same sum over s. */
  lemma {:induction false} SumByCongruent<T>(f: T -> real, g: T -> real, s: seq<T>)
    requires forall k | 0 <= k < |s| :: f(s[k]) == g(s[k])
    ensures SumBy(f, s) == SumBy(g, s)
  {
    if s != [] {
      SumByCongruent(f, g, s[..|s| - 1]);
    }
  }

  lemma {:induction false} SumByAdds<T>(f: T -> real, g: T -> real, sum: T -> real, s: seq<T>)
    requires forall k | 0 <= k < |s| :: sum(s[k]) == f(s[k]) + g(s[k])
    ensures SumBy(sum, s) == SumBy(f, s) + SumBy(g, s)
  {
    if s != [] {
      SumByAdds(f, g, sum, s[..|s| - 1]);
    }
  }

  lemma {:induction false} SumByScales<T>(f: T -> real, g: T -> real, c: real, s: seq<T>, total: real)
    requires forall k | 0 <= k < |s| :: f(s[k]) == c * g(s[k])
    requires total == SumBy(g, s)
    ensures SumBy(f, s) == c * total
  {
    if s != [] {
      var front, last := s[..|s| - 1], s[|s| - 1];
      SumByScales(f, g, c, front, total - g(last));
      Distribute(c, total - g(last), g(last));
    }
  }

  lemma Distribute(c: real, x: real, y: real)
    ensures c * (x + y) == c * x + c * y
  {
  }

  lemma {:induction false} SumByConstant<T>(f: T -> real, c: real, s: seq<T>, n: nat)
    requires |s| == n && forall k | 0 <= k < n :: f(s[k]) == c
    ensures SumBy(f, s) == n as real * c
  {
    if n > 0 {
      SumByConstant(f, c, s[..n - 1], n - 1);
      assert n as real * c == (n - 1) as real * c + c;
    }
  }

  /** The largest of s[lo..hi], both ends included. */
  function MaxOver(s: seq<real>, lo: nat, hi: nat): real
    requires lo <= hi < |s|
    decreases hi
  {
    if lo == hi then s[lo] else Max(MaxOver(s, lo, hi - 1), s[hi])
  }

  /** The smallest of s[lo..hi], both ends included. */
  function MinOver(s: seq<real>, lo: nat, hi: nat): real
    requires lo <= hi < |s|
    decreases hi
  {
    if lo == hi then s[lo] else Min(MinOver(s, lo, hi - 1), s[hi])
  }

  lemma {:induction false} MaxOverIsTheMaximum(s: seq<real>, lo: nat, hi: nat)
    requires lo <= hi < |s|
    ensures forall k | lo <= k <= hi :: s[k] <= MaxOver(s, lo, hi)
    ensures exists k | lo <= k <= hi :: s[k] == MaxOver(s, lo, hi)
    decreases hi
  {
    if lo < hi {
      MaxOverIsTheMaximum(s, lo, hi - 1);
    }
    assert s[hi] == MaxOver(s, lo, hi) || (lo < hi && MaxOver(s, lo, hi) == MaxOver(s, lo, hi - 1));
  }

  lemma {:induction false} MinOverIsTheMinimum(s: seq<real>, lo: nat, hi: nat)
    requires lo <= hi < |s|
    ensures forall k | lo <= k <= hi :: MinOver(s, lo, hi) <= s[k]
    ensures exists k | lo <= k <= hi :: s[k] == MinOver(s, lo, hi)
    decreases hi
  {
    if lo < hi {
      MinOverIsTheMinimum(s, lo, hi - 1);
    }
    assert s[hi] == MinOver(s, lo, hi) || (lo < hi && MinOver(s, lo, hi) == MinOver(s, lo, hi - 1));
  }

  /** The indices 0, 1, ..., n - 1. */
  function Indices(n: nat): (s: seq<nat>)
    ensures |s| == n && forall k | 0 <= k < n :: s[k] == k
  {
    seq(n, k => k)
  }
}
