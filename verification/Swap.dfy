/** Server midnights crossed by a position, with one weekday billed three times (tools/swap.py). */
module Swap {
  import opened Prelude

  const SECONDS_PER_DAY: int := 86400

  /** Epoch day 0 was a Thursday; the broker's weekday count starts on Sunday. */
  function Bill(day: int, tripleDow: Option<int>): nat {
    if tripleDow == Some((day + 4) % 7) then 3 else 1
  }

  function BillOver(first: int, last: int, tripleDow: Option<int>): nat
    decreases last - first
  {
    if last < first then 0 else BillOver(first, last - 1, tripleDow) + Bill(last, tripleDow)
  }

  function Nights(tEntry: int, tExit: int, tripleDow: Option<int>): nat {
    if tExit <= tEntry then 0
    else BillOver(tEntry / SECONDS_PER_DAY + 1, tExit / SECONDS_PER_DAY, tripleDow)
  }

  method NightsBetween(tEntry: int, tExit: int, tripleDow: Option<int>) returns (nights: nat)
    ensures nights == Nights(tEntry, tExit, tripleDow)
  {
    if tExit <= tEntry {
      return 0;
    }
    var first := tEntry / SECONDS_PER_DAY + 1;
    var last := tExit / SECONDS_PER_DAY;
    nights := 0;
    var day := first;
    while day < last + 1
      invariant first <= day
      invariant first <= last + 1 ==> day <= last + 1
      invariant nights == BillOver(first, day - 1, tripleDow)
    {
      var dow := (day + 4) % 7;
      nights := nights + if Some(dow) == tripleDow then 3 else 1;
      day := day + 1;
    }
  }

  lemma {:induction false} BillOverSplits(first: int, mid: int, last: int, tripleDow: Option<int>)
    requires first - 1 <= mid <= last
    ensures BillOver(first, last, tripleDow) == BillOver(first, mid, tripleDow) + BillOver(mid + 1, last, tripleDow)
    decreases last - mid
  {
    if mid < last {
      BillOverSplits(first, mid, last - 1, tripleDow);
    }
  }

  /** A holding split anywhere is billed exactly what the whole is. */
  lemma NightsAdd(a: int, b: int, c: int, tripleDow: Option<int>)
    requires a <= b <= c
    ensures Nights(a, c, tripleDow) == Nights(a, b, tripleDow) + Nights(b, c, tripleDow)
  {
    if a < b < c {
      BillOverSplits(a / SECONDS_PER_DAY + 1, b / SECONDS_PER_DAY, c / SECONDS_PER_DAY, tripleDow);
    }
  }

  /** Two holdings one after the other are never billed for more than the span around them. */
  lemma NightsOfTwo(a: int, b: int, c: int, d: int, tripleDow: Option<int>)
    requires a <= b <= c <= d
    ensures Nights(a, b, tripleDow) + Nights(c, d, tripleDow) <= Nights(a, d, tripleDow)
  {
    NightsAdd(a, b, d, tripleDow);
    NightsAdd(b, c, d, tripleDow);
  }

  // ------------------------------------------------------------ constant time

  /** Triple-billed days up to and including `day`, less a constant. */
  function TripleDaysTo(day: int, tripleDow: Option<int>): int {
    match tripleDow
    case Some(dow) => if 0 <= dow < 7 then (day + 4 - dow) / 7 else 0
    case None => 0
  }

  lemma {:induction false} BillOverClosedForm(first: int, last: int, tripleDow: Option<int>)
    requires first <= last + 1
    ensures BillOver(first, last, tripleDow)
         == (last - first + 1) + 2 * (TripleDaysTo(last, tripleDow) - TripleDaysTo(first - 1, tripleDow))
    decreases last - first
  {
    if first <= last {
      BillOverClosedForm(first, last - 1, tripleDow);
      TripleDaysNext(last, tripleDow);
    }
  }

  lemma TripleDaysNext(day: int, tripleDow: Option<int>)
    ensures Bill(day, tripleDow) == 1 + 2 * (TripleDaysTo(day, tripleDow) - TripleDaysTo(day - 1, tripleDow))
  {
  }

  /** The day-by-day loop equals two floor divisions. */
  lemma NightsClosedForm(a: int, b: int, tripleDow: Option<int>)
    requires a <= b
    ensures var dayA, dayB := a / 86400, b / 86400;
      Nights(a, b, tripleDow)
      == (dayB - dayA) + 2 * (TripleDaysTo(dayB, tripleDow) - TripleDaysTo(dayA, tripleDow))
  {
    if a < b {
      BillOverClosedForm(a / SECONDS_PER_DAY + 1, b / SECONDS_PER_DAY, tripleDow);
    }
  }

  /** Seven days bill nine nights when the triple day is a weekday the calendar has, else seven. */
  lemma WeekBillsNine(t: int, tripleDow: Option<int>)
    ensures Nights(t, t + 604800, tripleDow)
         == if tripleDow.Some? && 0 <= tripleDow.value < 7 then 9 else 7
  {
    NightsClosedForm(t, t + 7 * SECONDS_PER_DAY, tripleDow);
    assert (t + 7 * SECONDS_PER_DAY) / SECONDS_PER_DAY == t / SECONDS_PER_DAY + 7;
  }
}
