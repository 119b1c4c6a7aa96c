/** The seam between the paper trader and the risk engine (tools/risk_gate.py). The engine is an
    oracle: any function of the portfolio it is shown and the order proposed. */
module RiskGate {
  import opened Prelude

  datatype Ruling = Approve | Veto | Halt

  /** What the engine is shown. A figure that could not be read stays None. */
  datatype Portfolio = Portfolio(openPositions: Option<nat>, openSymbols: seq<string>, realisedToday: Option<real>,
                                 consecutiveLosses: Option<nat>)

  datatype Proposal = Proposal(symbol: string, isBuy: bool, volume: real, entryPrice: real,
                               stopLoss: Option<real>, takeProfit: Option<real>, riskAmount: Option<real>,
                               spreadPoints: Option<real>)

  type Engine = (Portfolio, Proposal) -> Ruling

  datatype Decision = Decision(approved: bool, halt: bool)

  /** Refuses what it cannot rule on. */
  function Rule(engine: Option<Engine>, portfolio: Portfolio, proposal: Proposal): Decision {
    if engine.None? then Decision(false, false)
    else
      var ruling := engine.value(portfolio, proposal);
      Decision(ruling == Approve, ruling == Halt)
  }

  // ------------------------------------------------------------ limits every gate configures

  /** An entry without a stop is never approved. */
  ghost predicate NeedsStop(engine: Engine) {
    forall p, o | engine(p, o) == Approve :: o.stopLoss.Some?
  }

  /** Nor is one on a symbol already open. */
  ghost predicate OnePerSymbol(engine: Engine) {
    forall p, o | engine(p, o) == Approve :: o.symbol !in p.openSymbols
  }

  /** Nor one at or past the position limit, or with the count unknown. */
  ghost predicate KeepsUnder(engine: Engine, limit: nat) {
    forall p, o | engine(p, o) == Approve :: p.openPositions.Some? && p.openPositions.value < limit
  }

  class Gate {
    const engine: Option<Engine>
    var openPositions: Option<nat>
    var openSymbols: seq<string>
    var realisedToday: Option<real>
    var consecutiveLosses: Option<nat>

    constructor (engine: Option<Engine>)
      ensures this.engine == engine
      ensures Seen() == Portfolio(None, [], None, None)
    {
      this.engine := engine;
      openPositions, openSymbols := None, [];
      realisedToday, consecutiveLosses := None, None;
    }

    /** The portfolio the engine would be shown now. */
    function Seen(): Portfolio
      reads this
    {
      Portfolio(openPositions, openSymbols, realisedToday, consecutiveLosses)
    }

    /** Take the venue's answers. Missing positions leave the last ones standing; the other two
        figures are overwritten even by a gap. */
    method Observe(positions: Option<seq<string>>, realised: Option<real>, losses: Option<nat>)
      modifies this
      ensures Seen() == Portfolio(if positions.Some? then Some(|positions.value|) else old(openPositions),
                                  if positions.Some? then positions.value else old(openSymbols), realised, losses)
    {
      if positions.Some? {
        openPositions := Some(|positions.value|);
        openSymbols := positions.value;
      }
      realisedToday := realised;
      consecutiveLosses := losses;
    }

    /** Rule on one opening order. */
    function Open(proposal: Proposal): Decision
      reads this
    {
      Rule(engine, Seen(), proposal)
    }

    /** An order of this session was filled. */
    method RecordSent(symbol: string)
      modifies this
      ensures openPositions == Some((if old(openPositions).Some? then old(openPositions).value else 0) + 1)
      ensures openSymbols == old(openSymbols) + [symbol]
      ensures realisedToday == old(realisedToday) && consecutiveLosses == old(consecutiveLosses)
    {
      openPositions := Some((if openPositions.Some? then openPositions.value else 0) + 1);
      openSymbols := openSymbols + [symbol];
    }
  }

  /** A closing order is recorded and never refused, whatever the engine says or fails to say. */
  function RecordClose(engine: Option<Engine>, proposal: Proposal): (d: Decision)
    ensures d.approved && !d.halt
  {
    var evaluated := Rule(engine, Portfolio(None, [], None, None), proposal);
    if evaluated.approved then evaluated else Decision(true, false)
  }
}
