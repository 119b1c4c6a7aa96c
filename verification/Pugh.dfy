/** Pugh's bar labels and the complete family of label sequences (tools/pugh_search.py). */
module Pugh {
  import opened Prelude

  const BULL: int := 0
  const BEAR: int := 1
  const OUTSIDE: int := 2
  const INSIDE: int := 3

  ghost predicate Bars(h: seq<real>, l: seq<real>) {
    |h| == |l| > 0
  }

  /** The label of bar t against the bar before it; the first bar has none. */
  function Label(h: seq<real>, l: seq<real>, t: nat): (r: int)
    requires Bars(h, l) && t < |h|
    ensures t > 0 ==> 0 <= r < 4
  {
    if t == 0 then -1
    else
      var higherHigh, lowerLow := h[t] > h[t - 1], l[t] < l[t - 1];
      if higherHigh && lowerLow then OUTSIDE
      else if higherHigh then BULL
      else if lowerLow then BEAR
      else INSIDE
  }

  function States(h: seq<real>, l: seq<real>): (st: seq<int>)
    requires Bars(h, l)
    ensures |st| == |h| && forall t | 0 <= t < |h| :: st[t] == Label(h, l, t)
  {
    seq(|h|, t requires 0 <= t < |h| => Label(h, l, t))
  }

  /** The last |shape| bars up to t carry exactly these labels. */
  predicate Fires(h: seq<real>, l: seq<real>, shape: seq<int>, t: nat)
    requires Bars(h, l) && t < |h|
  {
    t >= |shape| && forall j | 0 <= j < |shape| :: Label(h, l, t - |shape| + 1 + j) == shape[j]
  }

  /** Bar u against the bar before it: 0 has the higher high alone, 1 the lower low alone, 2 both, 3 neither. */
  ghost predicate Looks(h: seq<real>, l: seq<real>, u: nat, kind: int)
    requires Bars(h, l) && 1 <= u < |h|
  {
    && 0 <= kind < 4
    && ((kind == 0 || kind == 2) <==> h[u] > h[u - 1])
    && ((kind == 1 || kind == 2) <==> l[u] < l[u - 1])
  }

  /** The bars up to t look, one after the other, as the shape says. */
  ghost predicate HasShape(h: seq<real>, l: seq<real>, shape: seq<int>, t: nat)
    requires Bars(h, l) && t < |h|
  {
    t >= |shape| && forall j | 0 <= j < |shape| :: Looks(h, l, t - |shape| + 1 + j, shape[j])
  }

  lemma FiresIffShape(h: seq<real>, l: seq<real>, shape: seq<int>, t: nat)
    requires Bars(h, l) && t < |h|
    ensures Fires(h, l, shape, t) <==> HasShape(h, l, shape, t)
  {
    if t >= |shape| {
      forall j | 0 <= j < |shape|
        ensures Label(h, l, t - |shape| + 1 + j) == shape[j] <==> Looks(h, l, t - |shape| + 1 + j, shape[j])
      {
        LabelIffLooks(h, l, t - |shape| + 1 + j, shape[j]);
      }
    }
  }

  lemma LabelIffLooks(h: seq<real>, l: seq<real>, u: nat, kind: int)
    requires Bars(h, l) && 1 <= u < |h|
    ensures Label(h, l, u) == kind <==> Looks(h, l, u, kind)
  {
  }

  /** The shifted-array narrowing: one pass over the labels per position of the shape. */
  method MakeSequence(h: seq<real>, l: seq<real>, shape: seq<int>, short: bool) returns (sig: seq<real>)
    requires Bars(h, l) && |shape| > 0
    ensures |sig| == |h|
    ensures forall t | 0 <= t < |h| ::
      sig[t] == if !Fires(h, l, shape, t) then 0.0 else if short then -1.0 else 1.0
    // on the highs and lows themselves
    ensures forall t | 0 <= t < |h| ::
      sig[t] == if !HasShape(h, l, shape, t) then 0.0 else if short then -1.0 else 1.0
  {
    forall t | 0 <= t < |h| ensures Fires(h, l, shape, t) <==> HasShape(h, l, shape, t) {
      FiresIffShape(h, l, shape, t);
    }
    var st := States(h, l);
    var n, k := |st|, |shape|;
    if n <= k {
      return seq(n, _ => 0.0);
    }
    var match_ := new bool[n](t => t >= k);
    for j := 0 to k
      invariant Narrowed(h, l, shape, j, match_)
    {
      NarrowBy(h, l, st, shape, j, match_);
    }
    forall t | 0 <= t < n ensures Fits(h, l, shape, k, t) <==> Fires(h, l, shape, t) {
      FitsIffFires(h, l, shape, k, t);
    }
    sig := seq(n, t requires 0 <= t < n reads match_ => if !match_[t] then 0.0 else if short then -1.0 else 1.0);
  }

  /** The first j labels of the window ending at t are the shape's. */
  predicate Fits(h: seq<real>, l: seq<real>, shape: seq<int>, j: nat, t: nat)
    requires Bars(h, l) && j <= |shape| && t < |h|
  {
    t >= |shape| &&
    (j == 0 || (Fits(h, l, shape, j - 1, t) && Label(h, l, t - |shape| + j) == shape[j - 1]))
  }

  lemma {:induction false} FitsIffFires(h: seq<real>, l: seq<real>, shape: seq<int>, j: nat, t: nat)
    requires Bars(h, l) && j <= |shape| && t < |h|
    ensures Fits(h, l, shape, j, t)
       <==> t >= |shape| && forall u | 0 <= u < j :: Label(h, l, t - |shape| + 1 + u) == shape[u]
  {
    if j > 0 {
      FitsIffFires(h, l, shape, j - 1, t);
      if t >= |shape| {
        assert Label(h, l, t - |shape| + j) == Label(h, l, t - |shape| + 1 + (j - 1));
      }
    }
  }

  /** The bars still matching after the first j positions of the shape. */
  ghost predicate Narrowed(h: seq<real>, l: seq<real>, shape: seq<int>, j: nat, match_: array<bool>)
    requires Bars(h, l) && j <= |shape|
    reads match_
  {
    match_.Length == |h| && forall t | 0 <= t < |h| :: match_[t] <==> Fits(h, l, shape, j, t)
  }

  /** The loop body: keep the bars whose label j places into the window is the shape's j-th. */
  method NarrowBy(h: seq<real>, l: seq<real>, st: seq<int>, shape: seq<int>, j: nat, match_: array<bool>)
    requires Bars(h, l) && st == States(h, l) && j < |shape| && Narrowed(h, l, shape, j, match_)
    modifies match_
    ensures Narrowed(h, l, shape, j + 1, match_)
  {
    var n, k := |st|, |shape|;
    var off := k - 1 - j;
    var shifted := seq(n, t requires 0 <= t < n => if t >= off then st[t - off] else -1);
    NarrowInPlace(match_, shifted, shape[j]);
  }

  /** match &= shifted == want, element by element. */
  method NarrowInPlace(match_: array<bool>, shifted: seq<int>, want: int)
    requires match_.Length == |shifted|
    modifies match_
    ensures forall t | 0 <= t < match_.Length :: match_[t] == (old(match_[t]) && shifted[t] == want)
  {
    for t := 0 to match_.Length
      invariant forall u | 0 <= u < match_.Length ::
        match_[u] == if u < t then old(match_[u]) && shifted[u] == want else old(match_[u])
    {
      match_[t] := match_[t] && shifted[t] == want;
    }
  }

  // ------------------------------------------------------------ the complete family

  function FamilySize(k: nat): nat {
    if k == 0 then 1 else 4 * FamilySize(k - 1)
  }

  /** The i-th shape of length k, the last label varying fastest. */
  function Shape(k: nat, i: nat): (s: seq<int>)
    ensures |s| == k && forall j | 0 <= j < k :: 0 <= s[j] < 4
  {
    if k == 0 then [] else Shape(k - 1, i / 4) + [i % 4]
  }

  /** Where a shape sits in that order. */
  function Position(s: seq<int>): int {
    if s == [] then 0 else 4 * Position(s[..|s| - 1]) + s[|s| - 1]
  }

  lemma {:induction false} PositionOfShape(k: nat, i: nat)
    requires i < FamilySize(k)
    ensures Position(Shape(k, i)) == i
  {
    if k > 0 {
      PositionOfShape(k - 1, i / 4);
      assert Shape(k, i)[..k - 1] == Shape(k - 1, i / 4);
    }
  }

  lemma {:induction false} ShapeAtPosition(s: seq<int>)
    requires forall j | 0 <= j < |s| :: 0 <= s[j] < 4
    ensures 0 <= Position(s) < FamilySize(|s|) && Shape(|s|, Position(s)) == s
  {
    if s != [] {
      var front := s[..|s| - 1];
      ShapeAtPosition(front);
      assert (4 * Position(front) + s[|s| - 1]) / 4 == Position(front);
      assert s == front + [s[|s| - 1]];
    }
  }

  /** The labels of the k bars ending at t. */
  function Window(h: seq<real>, l: seq<real>, k: nat, t: nat): (w: seq<int>)
    requires Bars(h, l) && k <= t < |h|
    ensures |w| == k && forall j | 0 <= j < k :: w[j] == Label(h, l, t - k + 1 + j)
    ensures forall j | 0 <= j < k :: 0 <= w[j] < 4
  {
    seq(k, j requires 0 <= j < k => Label(h, l, t - k + 1 + j))
  }

  lemma FiresIffWindow(h: seq<real>, l: seq<real>, shape: seq<int>, t: nat)
    requires Bars(h, l) && |shape| <= t < |h|
    ensures Fires(h, l, shape, t) <==> shape == Window(h, l, |shape|, t)
  {
  }

  /** At every bar from k on, exactly one of the 4^k shapes fires; before that none does. */
  lemma ExactlyOneFires(h: seq<real>, l: seq<real>, k: nat, t: nat, i: nat)
    requires Bars(h, l) && t < |h| && i < FamilySize(k)
    ensures Fires(h, l, Shape(k, i), t) <==> t >= k && i == Position(Window(h, l, k, t))
    ensures t >= k ==> 0 <= Position(Window(h, l, k, t)) < FamilySize(k)
  {
    if t >= k {
      var w := Window(h, l, k, t);
      ShapeAtPosition(w);
      PositionOfShape(k, i);
      FiresIffWindow(h, l, Shape(k, i), t);
    }
  }

  /** How many of the first n bars fire one shape. */
  function FireCount(h: seq<real>, l: seq<real>, shape: seq<int>, n: nat): nat
    requires Bars(h, l) && n <= |h|
  {
    if n == 0 then 0 else FireCount(h, l, shape, n - 1) + if Fires(h, l, shape, n - 1) then 1 else 0
  }

  /** Summed over the first m shapes of the family. */
  function TotalFires(h: seq<real>, l: seq<real>, k: nat, m: nat, n: nat): nat
    requires Bars(h, l) && n <= |h|
  {
    if m == 0 then 0 else TotalFires(h, l, k, m - 1, n) + FireCount(h, l, Shape(k, m - 1), n)
  }

  lemma {:induction false} OneBarAddsAtMostOne(h: seq<real>, l: seq<real>, k: nat, m: nat, n: nat)
    requires Bars(h, l) && n < |h| && m <= FamilySize(k)
    ensures TotalFires(h, l, k, m, n + 1)
         == TotalFires(h, l, k, m, n) + if n >= k && Position(Window(h, l, k, n)) < m then 1 else 0
  {
    if m > 0 {
      OneBarAddsAtMostOne(h, l, k, m - 1, n);
      ExactlyOneFires(h, l, k, n, m - 1);
    } else if n >= k {
      ShapeAtPosition(Window(h, l, k, n));
    }
  }

  /** The whole family of 4^k shapes fires once per bar that has a full window: n - k times in all. */
  lemma FamilyFiresOncePerBar(h: seq<real>, l: seq<real>, k: nat, n: nat)
    requires Bars(h, l) && n <= |h|
    ensures TotalFires(h, l, k, FamilySize(k), n) == if n >= k then n - k else 0
  {
    FiresOncePerBar(h, l, k, FamilySize(k), n);
  }

  lemma {:induction false} FiresOncePerBar(h: seq<real>, l: seq<real>, k: nat, m: nat, n: nat)
    requires Bars(h, l) && n <= |h| && m == FamilySize(k)
    ensures TotalFires(h, l, k, m, n) == if n >= k then n - k else 0
    decreases n
  {
    if n == 0 {
      NoBarsNoFires(h, l, k, m);
    } else {
      FiresOncePerBar(h, l, k, m, n - 1);
      OneBarAddsOne(h, l, k, m, n - 1);
    }
  }

  lemma OneBarAddsOne(h: seq<real>, l: seq<real>, k: nat, m: nat, n: nat)
    requires Bars(h, l) && n < |h| && m == FamilySize(k)
    ensures TotalFires(h, l, k, m, n + 1) == TotalFires(h, l, k, m, n) + if n >= k then 1 else 0
  {
    OneBarAddsAtMostOne(h, l, k, m, n);
    if n >= k {
      ShapeAtPosition(Window(h, l, k, n));
    }
  }

  lemma {:induction false} NoBarsNoFires(h: seq<real>, l: seq<real>, k: nat, m: nat)
    requires Bars(h, l)
    ensures TotalFires(h, l, k, m, 0) == 0
  {
    if m > 0 {
      NoBarsNoFires(h, l, k, m - 1);
    }
  }
}
