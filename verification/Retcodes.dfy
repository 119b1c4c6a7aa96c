/** What a send's return code means, in the terms a caller acts on (tools/mt5_retcodes.py). */
module Retcodes {
  import opened Prelude

  datatype Cls = Done | RefusedRequest | RefusedVenueState | Moot | NoAnswer | Unclassified

  datatype Retry = Never | AfterChange | AfterWait | Now | UnknownRetry

  datatype Tri = Yes | No | Unknown

  datatype Purpose = Open | Close | Modify

  /** `transmitted`: did the request reach the server. `booked`: did it create something there. */
  datatype Verdict = Verdict(code: Option<int>, cls: Cls, retry: Retry, transmitted: Tri, booked: Tri)
  {
    predicate IsTerminal() {
      cls == Done || cls == RefusedRequest || cls == RefusedVenueState || cls == Moot
    }

    predicate SafeToResend() {
      booked == No
    }
  }

  const DONE: int := 10009
  const INVALID_STOPS: int := 10016
  const TRADE_DISABLED: int := 10017
  const MARKET_CLOSED: int := 10018
  const NO_CHANGES: int := 10025
  const UNSUPPORTED_FILLING: int := 10030
  const NO_CONNECTION: int := 10031

  /** The codes this account has been answered with and explained. */
  function Table(code: int): Option<Verdict> {
    if code == DONE then Some(Verdict(Some(code), Done, Never, Yes, Yes))
    else if code == INVALID_STOPS then Some(Verdict(Some(code), RefusedVenueState, AfterWait, Yes, No))
    else if code == TRADE_DISABLED then Some(Verdict(Some(code), RefusedVenueState, Never, Yes, No))
    else if code == MARKET_CLOSED then Some(Verdict(Some(code), RefusedVenueState, AfterWait, Yes, No))
    else if code == NO_CHANGES then Some(Verdict(Some(code), Moot, Never, Yes, No))
    else if code == UNSUPPORTED_FILLING then Some(Verdict(Some(code), RefusedRequest, AfterChange, Yes, No))
    else if code == NO_CONNECTION then Some(Verdict(Some(code), NoAnswer, Now, Unknown, Unknown))
    else None
  }

  /** `code` is None when the result carries no return code at all. */
  function Classify(code: Option<int>, sendFailed: bool, action: Purpose): Verdict {
    if sendFailed || code.None? then Verdict(None, NoAnswer, UnknownRetry, Unknown, Unknown)
    else
      match Table(code.value)
      case None => Verdict(code, Unclassified, Never, Yes, Unknown)
      case Some(v) => if v.cls == NoAnswer && action == Open then v.(retry := UnknownRetry) else v
  }

  /** Reading a recorded row: a send recorded unknown stays unknown, and a row that does not say what the
      send was for is read as a close's. */
  function ClassifyRow(code: Option<int>, recordedUnknown: bool, action: Option<Purpose>): Verdict {
    if recordedUnknown then Verdict(code, NoAnswer, UnknownRetry, Unknown, Unknown)
    else Classify(code, false, if action.Some? then action.value else Close)
  }

  predicate RefusedOutright(code: int) {
    code in {10016, 10017, 10018, 10025, 10030}
  }

  /** A resend is safe on exactly the five codes known to have booked nothing, whatever the send was
      for; one code is known to have booked, and on every other answer nobody knows. */
  lemma BookedIsDecidedByTheTable(code: Option<int>, sendFailed: bool, action: Purpose)
    ensures var v := Classify(code, sendFailed, action);
      && (v.SafeToResend() <==> (!sendFailed && code.Some? && RefusedOutright(code.value)))
      && (v.booked == Yes <==> !sendFailed && code == Some(10009))
      && (v.booked == Unknown <==> !v.IsTerminal())
  {
  }

  /** What to do next is read off the code as well: wait on two of them, change the request on one, leave it on
      every other answer the venue gave, and never say anything of an answer that did not come. */
  lemma RetryIsDecidedByTheTable(code: Option<int>, sendFailed: bool, action: Purpose)
    ensures var v := Classify(code, sendFailed, action);
      var answered := !sendFailed && code.Some? && code.value != 10031;
      && (v.retry == AfterWait <==> answered && code.value in {10016, 10018})
      && (v.retry == AfterChange <==> answered && code.value == 10030)
      && (v.retry == Never <==> answered && code.value !in {10016, 10018, 10030})
      && (v.cls == NoAnswer <==> !answered) && (v.transmitted == Yes <==> answered)
      && (v.cls == Moot <==> answered && code.value == 10025)
  {
  }

  /** An open is never told to resend now; any other action is, exactly when the connection was lost.
      That is the only thing the action changes. */
  lemma OnlyClosesRetryNow(code: Option<int>, sendFailed: bool, action: Purpose)
    ensures Classify(code, sendFailed, action).retry == Now
       <==> action != Open && !sendFailed && code == Some(10031)
    ensures var v := Classify(code, sendFailed, action);
      Classify(code, sendFailed, Close) == v
      || (action == Open && code == Some(10031) && Classify(code, sendFailed, Close) == v.(retry := Now))
  {
  }

  /** Reading an open's row back gives the verdict the live send had, except on a lost connection when
      the row does not say it was an open, as the order log's rows do not: the row then licenses an
      immediate resend of the open. What was booked is read back right every time. */
  lemma RecordedOpenAgreesIff(code: Option<int>, sendFailed: bool, action: Option<Purpose>)
    requires (sendFailed ==> code.None?) && (action.None? || action == Some(Open))
    ensures ClassifyRow(code, sendFailed, action) == Classify(code, sendFailed, Open)
      <==> (code != Some(10031) || action.Some?)
    ensures code == Some(10031) && action.None? ==> ClassifyRow(code, sendFailed, action).retry == Now
    ensures ClassifyRow(code, sendFailed, action).booked == Classify(code, sendFailed, Open).booked
  {
  }
}
