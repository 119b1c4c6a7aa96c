# Verification model of the trading research tools

A Dafny model of the kernel under `tools/`: the three trade simulators, the indicator machines, the portfolio
books, the selection procedures, and the pass that sends orders and accounts for what came back. One module per
source file, plus `Prelude` (sums, extremes, optional values), `Atr` (the average true range), `StableSort`
(Python's stable sort and a ranking by key), `LeastSquares` (the hedge ratio against the best fit), `BarWalk` (what the simulators share), `Ledger` (sums over grouped
deals), `SimulatorRefinement` (the three simulators against each other), `DeMarkCases` (two series) and `BookCap`
(what the order pass promises about the book).

`dafny verify dfyconfig.toml` checks the whole project.

## How the model is built

- Loops are methods with loop invariants, proved equal to a specification that has no loop state; the claims are
  then lemmas about that specification. Where the source rewrites arrays in place (the supertrend bands, the
  parabolic SAR, the shape matcher) so does the model. `RiskGate.Gate` is a class whose fields the pass overwrites.
- Prices, returns and money are exact reals; times are integers; a NaN, a missing value or Python's None is
  `None`. A series is a sequence indexed by bar.
- The specification is chosen to be different from the loop wherever the source allows it: DeMark setups and
  signals are defined bar by bar with no machine state, Benjamini-Hochberg by counting without sorting, the
  efficiency ratio by its window, a supertrend band by the extreme of the raw bands since its last reset.
- Every main method also promises its result in terms of its inputs alone, through ghost predicates that nothing
  executable uses: trades by the price arrays (`IsRun`), bands and directions by the bars (`IsSar`, `IsRead`), books
  by the signal (`KeepsBooks`, `KeepsLegs`), a pass by what the venue and the engine say (`IsPass`), trades by the
  deal log (`AreRoundTrips`). A slip in a function that a loop and its specification share shows there. For the
  reference and the exit simulator the promise is complete: one list of trades satisfies it, and it is the one
  returned.
- The venue is adversarial. It may raise, return nothing or return any code, and it may book anything its answer
  leaves open, to an opening order and to an escape alike; `World.Honest` says only that a known refusal did nothing
  and a known DONE did what was asked. The risk engine is any function of the portfolio it is shown and the order
  proposed; where a claim needs the limits every gate configures, `RiskGate` states them.

## What the proofs found

- Supertrend: the ratchet is not unconditional. A close beyond either band, the trend's own included, puts both
  bands back to their raw values (`UpTrendBandCanRetreat`, `BandRetreatsOnlyOnOwnSideCross`).
- DeMark: the cancellation of a countdown by an opposing setup is described but not coded
  (`OpposingSetupDoesNotCancel`), and a signal can come 12 bars after its setup (`SignalTwelveBarsAfterItsSetup`).
- Parabolic SAR: on a flip bar the band is the old extreme and may lie inside that bar (`FlipBandCanBeInsideTheBar`,
  `FlipBandIsInsideTheBarIff`).
- The simulators differ in two corners: an empty holding window counts 0 bars in one and 1 in the other, and a
  target multiple of 0 is a target at entry in one and no target in the other (`ExitRefinesReference`,
  `ZeroTargetRunsAgreeIff`).
- `simulate_exit`: a trail asked for without a stop raises on the entry bar, unless that bar meets the target or
  breaks even (`RaisesIff`).
- `portfolio` removes the dollar leg exactly when 2 * n_legs <= symbols (`BookIsDollarNeutralIff`).
- `pair_pnl`: a rule and its inverse are pure cost exactly when the entry threshold is positive
  (`PureCostIffPositiveEntry`).
- `closed_trades`: a cash movement keeps its profit and drops its commission, swap and fee
  (`DepositLosesItsCommission`, `LogIsAccountedForIff`).
- `cycle`: an open answered 10031 is logged REJECTED while its booking is unknown, so its slot is given away
  (`LostConnectionPassesTheCap`) and a repeat of its symbol can be opened as well (`RepeatAfterALostConnection`,
  `DoubledIff`); a recorded open that lost its connection reads back as retryable now (`RecordedOpenAgreesIff`).
  A position closed by the escape order stays in the gate's count for the pass (`BookIsCapped`).
- `place`: a bracket re-anchored at distances of half a point or less can round onto the fill (`RepairIsSaneIff`).

## Model

| member | source | states |
|---|---|---|
| BarWalk.FirstTouchIsFirst | tools/rule_backtest.py:232-243 | the exit bar of a bracket is the first held bar reaching the stop or the target, and no earlier held bar reaches either |
| BarWalk.FirstTouchIsCausal | tools/rule_backtest.py:232-243 | a touch found with fewer bars in hand is the touch found with more |
| BarWalk.EntriesAreDisjoint | tools/rule_backtest.py:216-256 | flat before the next entry: a position is closed on a bar before the next is entered |
| BarWalk.EntriesAreComplete | tools/rule_backtest.py:219-256 | a bar that can be entered is entered exactly when no open position covers it |
| BarWalk.EntriesAreCausal | tools/rule_backtest.py:216-256 | the entries of a shorter history are a prefix of those of a longer one |
| Atr.AtrIsWindowMean | tools/rule_backtest.py:143-151 | where it is defined the ATR is the mean of the last n true ranges, and not negative |
| Atr.TrueRangeIsTheSpan | tools/rule_backtest.py:145-146 | a true range is the width of the smallest interval holding the bar and the close before it |
| RuleBacktest.Simulate | tools/rule_backtest.py:196-257 | for every market, parameters and financing the walk returns the one list of trades the price arrays call for: side, levels, first touch, loss first, time-out, net and nights read off the arrays, never two positions at once, none missing |
| RuleBacktest.RunIffOnPrices | tools/rule_backtest.py:214-257 | a list is the run exactly when every trade in it is as the prices say and together they fill the calendar |
| RuleBacktest.BookedOnce | tools/rule_backtest.py:224-255 | the prices leave one trade for an entry bar: exit bar, price, reason and money are determined |
| RuleBacktest.TakeTrade | tools/rule_backtest.py:224-256 | one entry: levels, exit, gross, net of spread and financing, bars held, nights billed |
| RuleBacktest.HoldPosition | tools/rule_backtest.py:231-245 | the held-bar loop exits at the first touch, loss first on a tie, else at the last held close; `bars` is 0 when the window is empty |
| RuleBacktest.RunIsOfEntries | tools/rule_backtest.py:216-257 | the trades are exactly those of the bars the entry plan enters, in order |
| RuleBacktest.NoLookahead | tools/rule_backtest.py:216-257 | a run over the first n bars enters the same bars as the full run, and every trade it closes before its last bar is the full run's trade exactly, financing included |
| RuleBacktest.TradesAreDisjoint | tools/rule_backtest.py:256 | no two trades of a run overlap |
| RuleBacktest.TradesFillTheCalendar | tools/rule_backtest.py:219-256 | a takeable signal goes unentered exactly when an earlier trade is still open on it |
| RuleBacktest.NightsNeverExceedTheSpan | tools/rule_backtest.py:248-256 | the nights billed over all trades never exceed the nights of the whole span |
| Swap.NightsBetween | tools/swap.py:108-124 | the day loop bills the midnights in (entry, exit], the triple day three times |
| Swap.NightsAdd | tools/swap.py:108-124 | billing is additive over a <= b <= c |
| Swap.NightsOfTwo | tools/swap.py:108-124 | two holdings in sequence are billed no more than the span that contains them |
| Swap.NightsClosedForm | tools/swap.py:108-124 | the loop equals a constant-time floor-division formula |
| Swap.WeekBillsNine | tools/swap.py:108-124 | any seven days bill nine nights when the triple day is a real weekday, seven otherwise |
| ExitSearch.SimulateExit | tools/exit_search.py:45-122 | the walk returns the one list of trades the price arrays call for by a rule without state, and raises exactly when they call for none |
| ExitSearch.RunIffOnPrices | tools/exit_search.py:69-122 | a list is the run exactly when every trade in it is as the prices say and together they fill the calendar |
| ExitSearch.StateIsStanding | tools/exit_search.py:77-111 | the stop the loop carries is state-free: the opening stop, or entry once some held bar reached the trigger, or a trail behind the extreme of the bars held, whichever is tightest |
| ExitSearch.RaisesIff | tools/exit_search.py:76-111 | a position raises exactly when a trail is asked for, there is no opening stop, and the entry bar neither meets the target nor breaks even |
| ExitSearch.DeadlineIsKept | tools/exit_search.py:112-116 | with hold_bars k no trade is held longer; a time exit is on the close of the k-th bar, and a time-out comes before it, at the end of the window |
| ExitSearch.HoldPosition | tools/exit_search.py:76-116 | the held-bar loop closes a position as the specification does, raise included |
| ExitSearch.HoldBar | tools/exit_search.py:87-114 | one bar: stop, target, profit exit, breakeven, trail, time exit, in the source's order |
| ExitSearch.StopIsExplained | tools/exit_search.py:77-111 | running-extreme invariant, with or without an opening stop: an unmoved stop is its opening level or a trail behind an extreme that had not reached the breakeven trigger; a moved one gives up nothing past entry |
| ExitSearch.StopRetreatsIff | tools/exit_search.py:105-111 | the exact condition under which one bar moves the stop against the position |
| ExitSearch.StopPastEntryIsHit | tools/exit_search.py:77-93 | a stop opened on the profitable side is hit on the entry bar itself, whose range holds its open |
| ExitSearch.StopOnlyRatchets | tools/exit_search.py:77-111 | once there is a stop, set at entry or by the breakeven move, it never moves against the position from bar to bar, for any parameters and any mix of trail and breakeven |
| ExitSearch.BreakEvenNeverCosts | tools/exit_search.py:105-111 | a breakeven move lowers a stop only where the same bar's trail restores it, for any parameters |
| ExitSearch.RunCarriesStates | tools/exit_search.py:87-114 | the states of the ratchet invariant are those the run itself carries up to the exit bar |
| ExitSearch.RunStopsOnlyRatchet | tools/exit_search.py:69-122 | the ratchet on every held bar of every position of a run, for any parameters; a negative stop distance needs the entry bar to hold its open |
| ExitSearch.TradesKeepPromises | tools/exit_search.py:91-120 | every trade of every run: a stop exit books at least minus its distance, a breakeven exit no loss, a target exit exactly its distance, a profit exit exactly the spread; net is gross less spread |
| ExitSearch.OnlyAnUnsetStopRaises | tools/exit_search.py:76-111 | a run can raise only when a trail is asked for without a stop |
| GrossBound.BracketR | tools/gross_bound.py:41-79 | the walk returns the multiples and the tie count of the specification under the chosen fixed rule, whose outcomes are those the price arrays call for |
| GrossBound.RunIsOnPrices | tools/gross_bound.py:52-79 | under any tie oracle: each outcome is on the first bar to reach a level, a tie when that bar reaches both, its multiple times the risk is the money made, and the positions fill the calendar |
| GrossBound.HoldPosition | tools/gross_bound.py:60-75 | the held-bar loop under the chosen rule |
| GrossBound.TieRuleMovesNoTrade | tools/gross_bound.py:52-79 | for any two tie oracles: same entries, exits, ties and tie count, and equal multiples off the ties |
| GrossBound.EachMultipleIsBracketedIff | tools/gross_bound.py:41-79 | each multiple under any oracle lies between the two fixed rules exactly when a target is worth at least a stop, or the position met no tie |
| GrossBound.TotalsAreBracketed | tools/gross_bound.py:141-146 | any oracle's total exceeds the loss rule's by (sl+tp)/sl per tie it wins; the win rule's by that per tie |
| SimulatorRefinement.ClosesAgreeIff | tools/exit_search.py:77-116 | with bracket parameters the exit simulator closes a position where, at what price and for the reason the reference does, exactly unless a zero target multiple took a profit in the reference |
| SimulatorRefinement.ExitTradesMatchIff | tools/exit_search.py:69-122 | from any bar, the exit simulator books the reference trade by trade exactly when tp_atr is not 0 or the reference took no profit; with an empty window it counts 1 bar against 0 |
| SimulatorRefinement.ExitRefinesReference | tools/exit_search.py:69-122 | for all parameters, the two runs are identical exactly when moreover max_hold >= 1 or there are no trades |
| SimulatorRefinement.ZeroTargetRunsAgreeIff | tools/exit_search.py:80-82 | at tp_atr 0, over bars that hold their opens, two whole runs agree exactly when every bar that can be entered stops its own position out |
| SimulatorRefinement.GrossRefinesReference | tools/gross_bound.py:52-79 | with ties booked as losses, the multiples are the reference's gross over the risk taken, over the same bars |
| ParabolicSar.Sar | tools/book_rules_search.py:56-88 | the in-place loop writes, at every bar, the band that follows from the band before and the bars of its trend; short inputs give NaN throughout |
| ParabolicSar.SarBar | tools/book_rules_search.py:73-87 | one bar of the machine from the variables of the bar before |
| ParabolicSar.BandStepFollows | tools/book_rules_search.py:72-87 | off a turn the band goes from the last one towards the trend's exact extreme, by acc + step per new extreme up to the cap, and no nearer than the two bars before; the trend turns exactly when the bar trades through it |
| ParabolicSar.TrendStartIsTheLastFlip | tools/book_rules_search.py:77-84 | the start of a trend is the last bar that turned it |
| ParabolicSar.ExtremeAndAcceleration | tools/book_rules_search.py:68-86 | `ep` is the exact extreme since the flip and af = min(acc + step * new extremes, cap) |
| ParabolicSar.BandNeverPassesExtreme | tools/book_rules_search.py:72-87 | the band never passes the extreme point, on any run |
| ParabolicSar.BandClearsTheBar | tools/book_rules_search.py:75-87 | off a flip the band lies beyond the bar's range and the two before it |
| ParabolicSar.BandIsMonotone | tools/book_rules_search.py:72-87 | past the flip bar the band moves only with its trend |
| ParabolicSar.FlipBandIsOldExtreme | tools/book_rules_search.py:77-84 | on a flip bar the band is the exact extreme of the trend it ends |
| ParabolicSar.FlipBandIsInsideTheBarIff | tools/book_rules_search.py:77-84 | the flip bar's band lies inside that bar exactly when the bar also reached the extreme of the trend it ends: its high at least the trend's highest high, or its low at most the trend's lowest low |
| ParabolicSar.FlipBandCanBeInsideTheBar | tools/book_rules_search.py:77-84 | it does on a second bar that takes out both ends of the first, under the default parameters |
| DeMark.Sequential | tools/demark_search.py:62-124 | the mutable machine returns exactly the bars that end nine-bar runs and the bars that end thirteen-counts, read off the prices |
| DeMark.SetupEndsNine | tools/demark_search.py:82-91 | a setup is a bar that ends an unbroken run of nine, eighteen, ... closes beyond the one four bars before |
| DeMark.SignalIsThirteenth | tools/demark_search.py:93-123 | a signal is the thirteenth bar since the latest setup to close at or beyond the one two bars before, after some bar reached back three, with every close within the setup's nine bars |
| DeMark.MachineBar | tools/demark_search.py:80-123 | one bar keeps the relation between the machine's variables and the definitions |
| DeMark.SetupBar | tools/demark_search.py:82-91 | the setup count, and a fresh setup recycling the countdown |
| DeMark.CountdownBar | tools/demark_search.py:93-123 | cancellation, arming and counting; a signal fires exactly where defined |
| Prelude.MaxOverIsTheMaximum | tools/demark_search.py:88 | the window maximum bounds the window and is attained in it |
| Prelude.MinOverIsTheMinimum | tools/demark_search.py:89 | the window minimum bounds the window and is attained in it |
| DeMark.SetupsAreEveryNinth | tools/demark_search.py:82-91 | setups are every ninth bar of an unbroken run |
| DeMark.SetupsAreNineApart | tools/demark_search.py:82-91 | two setups are at least nine bars apart |
| DeMark.SignalFollowsItsSetup | tools/demark_search.py:93-123 | a signal comes at least twelve bars after its latest setup, with exactly thirteen counted bars and no cancelling close between |
| DeMark.SetupBetweenSignals | tools/demark_search.py:88-123 | a setup completes strictly between any two signals |
| DeMark.SellMirrorsBuy | tools/demark_search.py:62-124 | the sell machine is the buy machine on negated prices with highs and lows exchanged |
| DeMarkCases.SignalTwelveBarsAfterItsSetup | tools/demark_search.py:93-123 | a signal exactly twelve bars after its setup, the setup bar being counted |
| DeMarkCases.OpposingSetupDoesNotCancel | tools/demark_search.py:93-123 | a sell setup that completes between a buy setup and its signal cancels nothing |
| Supertrend.Direction | tools/supertrend_search.py:95-148 | the in-place bands and direction give, at every bar, the direction the closes and the raw bands call for, NaN warm-up and gaps included |
| Supertrend.RatchetBar | tools/supertrend_search.py:131-147 | one bar: turn on a cross of the previous bands, otherwise hold the trend's own band |
| Supertrend.StateFollows | tools/supertrend_search.py:129-147 | the direction after each bar, without the rewritten bands: up past the ceiling, down past the floor, both extremes of the raw bands since the last reset |
| Supertrend.BandsStraddleTheBar | tools/supertrend_search.py:91-93 | the raw bands are centred on the middle of the bar and two multiples of the ATR apart |
| Supertrend.SignalIsTheTurn | tools/supertrend_search.py:159-169 | a signal is the direction just turned to, or its opposite when inverted, and zero without a turn |
| Supertrend.BandsAreExtremesSinceReset | tools/supertrend_search.py:129-148 | since the last reset an up trend's lower band is the maximum of the raw lower bands and its upper band is raw; mirrored for a down trend |
| Supertrend.DirectionTurnsOnlyOnOpposingBand | tools/supertrend_search.py:136-141 | the direction changes exactly on a cross of the opposing closed-form band |
| Supertrend.BandRetreatsOnlyOnOwnSideCross | tools/supertrend_search.py:136-147 | inside a trend its band retreats exactly on a close beyond the trend's own side with a worse raw band |
| Supertrend.UpTrendBandCanRetreat | tools/supertrend_search.py:79-82 | the documented "may only rise" fails on three bars of prices, bands and ATR computed as coded: the lower band falls from 8 to 5 inside an up trend |
| Supertrend.QuietBarsKeepDirection | tools/supertrend_search.py:159-169 | without a signal in between the direction stands |
| Supertrend.SignalsAlternate | tools/supertrend_search.py:159-169 | consecutive flip signals have opposite signs |
| Pugh.MakeSequence | tools/pugh_search.py:106-132 | the shifted-array narrowing fires exactly where the last bars' highs and lows look, one after the other, as the shape says |
| Pugh.NarrowBy | tools/pugh_search.py:124-128 | one narrowing pass checks one more label of the window |
| Pugh.NarrowInPlace | tools/pugh_search.py:128 | the in-place conjunction, element by element |
| Pugh.PositionOfShape | tools/pugh_search.py:144-147 | a shape's index in product order is recovered from the shape |
| Pugh.ShapeAtPosition | tools/pugh_search.py:144-147 | every label sequence is in the family, at the index its labels spell |
| Pugh.ExactlyOneFires | tools/pugh_search.py:73-148 | at every bar with a full window exactly one of the 4^k shapes fires, and none before |
| Pugh.FamilyFiresOncePerBar | tools/pugh_search.py:135-148 | the whole family fires n - k times in n bars |
| Regime.ConvolvedIsTravelled | tools/regime_search.py:91-97 | the front of the full convolution is the per-window sum of absolute moves |
| Regime.RatioIsEfficiency | tools/regime_search.py:78-103 | net over total of the window, within [0, 1], and 1 exactly on monotone windows |
| Regime.RatioIsDefined | tools/regime_search.py:88-102 | NaN exactly before the window fills and where it never moved |
| Regime.RatioIsCausal | tools/regime_search.py:91-103 | nothing after t is read |
| CrossSearch.Portfolio | tools/cross_search.py:107-129 | the loop returns, bar by bar, what flat books earn that take the signal's legs every hold bars, less the turnover they pay |
| CrossSearch.Rebalance | tools/cross_search.py:119-127 | on a due bar with every signal finite the book takes the fresh weights and pays for the change; otherwise it stands and pays nothing |
| CrossSearch.WeightByRank | tools/cross_search.py:122-125 | a symbol's weight depends only on its rank: short below n_legs, long in the last n_legs, shorts written second |
| CrossSearch.WeightsAreLegs | tools/cross_search.py:122-125 | a weight by comparing keys alone: -sign/n when fewer than n symbols rank below, else sign/n when fewer than n rank above, else nothing |
| CrossSearch.LegsAreTheExtremes | tools/cross_search.py:122-125 | for 2 * n_legs <= symbols: sign/n on n symbols with keys no smaller than any other's, its negation on n with keys no larger, nothing elsewhere |
| CrossSearch.NetReturnIsBar | tools/cross_search.py:115-128 | each bar's return from the books before and after it |
| CrossSearch.MomentumIsWindowSum | tools/cross_search.py:132-150 | the difference of prefix sums is the sum of the k returns before t |
| CrossSearch.MomentumIsCausal | tools/cross_search.py:144-149 | the signal at t reads nothing at or after t |
| CrossSearch.RebalancedWeightsSum | tools/cross_search.py:122-125 | fresh weights sum to the net number of legs times one leg |
| CrossSearch.BookWeightsSum | tools/cross_search.py:116-128 | the held book is dollar-neutral until its first rebalance and carries the net legs afterwards |
| CrossSearch.WeightsIgnoreCommonMove | tools/cross_search.py:107-150 | adding d[t] to every symbol changes no signal comparison, ranking, rebalance or weight |
| CrossSearch.CommonMoveIsEarnedAlone | tools/cross_search.py:107-150 | costs included, the net return moves by what the held weights earn on the common move |
| CrossSearch.BookIsDollarNeutralIff | tools/cross_search.py:13-17 | the book is blind to a common dollar move exactly when 2 * n_legs <= symbols (or the move is nil, or nothing is held yet) |
| CrossSearch.OppositeSignInverts | tools/cross_search.py:124-125 | flipping `sign` negates the leg |
| CrossSearch.RulePlusInverseIsCost | tools/cross_search.py:115-128 | a book and its inverse sum, bar by bar, to minus twice the turnover cost |
| CrossSearch.UnchangedRankingIsFree | tools/cross_search.py:122-127 | rebalancing into the same ranking costs nothing |
| PairsSearch.SpreadZ | tools/pairs_search.py:87-113 | the loop returns the last spread scored against the window before it, at best-fit slopes refitted on schedule or while there is none |
| LeastSquares.RatioFitsBest | tools/pairs_search.py:73-84 | the closed formula is the one slope that, with some intercept, leaves no larger squared errors than any other line, and is NaN exactly when the regressor never moves |
| PairsSearch.ReadBar | tools/pairs_search.py:101-112 | one bar: refit when due or while there is no slope, then the z-score of the latest spread |
| PairsSearch.ReadingIsCausal | tools/pairs_search.py:91-112 | the reading at t is blind to prices from t on |
| PairsSearch.PairPnl | tools/pairs_search.py:116-150 | net returns and round trips of the legs the readings call for: sold when rich, bought when cheap, gross one, flat inside the exit band, else held |
| PairsSearch.WantedFollows | tools/pairs_search.py:132-143 | one reading's legs, by sign and size |
| PairsSearch.Trade | tools/pairs_search.py:131-148 | one bar's change of legs and its charge; legs left alone cost nothing |
| PairsSearch.InverseIsPureCost | tools/pairs_search.py:127-150 | under the opposite z-score the two books sum to minus twice the turnover cost, with equal trip counts |
| PairsSearch.PureCostIffPositiveEntry | tools/pairs_search.py:136-143 | that identity holds for every series exactly when the entry threshold is positive |
| Kaufman.InverseIsPureCost | tools/kaufman_replication.py:149-153 | a signal and its negation sum, bar by bar, to minus twice the turnover cost |
| Kaufman.HeldPositionEarns | tools/kaufman_replication.py:149-153 | a position held over many bars earns every return after the bar it is asked on and pays for one change |
| Kaufman.BreakoutSignal | tools/kaufman_replication.py:110-129 | the running maximum over breakout indices gathers, at every bar, the side of the last n-bar closing extreme, read off the closes, or nothing before the first |
| Kaufman.MaximumAccumulate | tools/kaufman_replication.py:127-128 | the in-place running maximum holds the bar of the last breakout |
| Kaufman.ReversalCrossesTwice | tools/kaufman_replication.py:110-153 | once in, always in: a book on this signal pays one crossing on the first breakout, two exactly on a breakout of the opposite side, and otherwise none |
| Patterns.BenjaminiHochberg | tools/patterns.py:227-241 | for any q survivors are the ranks up to the last that clears its own bar; for q >= 0 item i survives exactly when p[i] * n <= q * k, where k, the number of survivors, is the largest count with as many p-values clearing its bar |
| Patterns.OrderStatistic | tools/patterns.py:232 | the r-th smallest p-value is at most x exactly when at least r of them are |
| Patterns.StepUpIsLargestSupported | tools/patterns.py:235-237 | the last passing rank is the largest supported count |
| Patterns.StepUpIsLevelTest | tools/patterns.py:238-240 | ties never straddle the cut |
| Patterns.CutIsExact | tools/patterns.py:227-241 | with k survivors exactly k p-values are at most q*k/n |
| Patterns.SurvivalIsMonotone | tools/patterns.py:227-241 | raising q or lowering p-values loses no survivor |
| Patterns.SurvivalIsEquivariant | tools/patterns.py:227-241 | permuting the hypotheses permutes the verdicts |
| StableSort.SortSorts | tools/patterns.py:232 | the stable sort sorts under any total preorder |
| StableSort.SortPermutes | tools/patterns.py:232 | and keeps the same elements |
| StableSort.ArgSortIsStable | tools/cross_search.py:122 | equal keys keep the order of their indices |
| StableSort.RankIsACount | tools/cross_search.py:122 | an index's rank is the number of indices it outranks |
| StableSort.ArgSortShift | tools/cross_search.py:122 | a ranking does not move when every key moves by one amount, ties included |
| RuleSearch.ErasSpanTheCommonWindow | tools/rule_search.py:358-363 | the edges begin at the latest first bar of any symbol, end at the earliest last bar, each attained by a symbol, and are equally spaced |
| RuleSearch.ErasPartition | tools/rule_search.py:366-369 | over ordered edges every instant lies in exactly one era |
| RuleSearch.CommonWindowIsPartitioned | tools/rule_search.py:358-369 | the eras partition the window every symbol covers |
| RuleSearch.WalkForward | tools/rule_search.py:396-427 | for any threshold and any number of edges: each fold is won on the rows before its cut and reported on the rows of the era after it, or the lookup raises, exactly when the threshold is zero or less and some candidate has no training trades in some fold |
| RuleSearch.FoldIsOnRows | tools/rule_search.py:406-427 | a fold is the winner's figures on exactly the rows before the cut and exactly the rows of the test era, the winner having no better rival, nor an equal one of a later name; or nobody ranks |
| RuleSearch.FoldReportsOneCandidate | tools/rule_search.py:406-427 | a fold is graded exactly when some candidate has enough training trades, and all it reports is one candidate's: training figures from before the cut, test figures from the era after it |
| RuleSearch.Rank | tools/rule_search.py:408-412 | the candidates with enough training trades and no others, or the raise on a candidate without any |
| RuleSearch.SelectionIsBest | tools/rule_search.py:417-418 | the selected candidate has the best training score among those that qualify, later names winning ties |
| RuleSearch.NameLeqIsNoLater | tools/rule_search.py:417 | the tie rule is the order of names: a prefix, or smaller at the first difference |
| RuleSearch.SelectionIgnoresTheFuture | tools/rule_search.py:406-418 | candidates that agree before the cut give the same selection and the same training score |
| RuleSearch.LaterRowsAreInvisible | tools/rule_search.py:410 | trades at or after the cut, of any kind, leave the training rows alone |
| RuleSearch.TrainAndTestAreDisjoint | tools/rule_search.py:410-421 | no trade is both trained on and graded |
| RuleSearch.JudgedOnce | tools/rule_search.py:419-421 | no trade is graded in two folds |
| Ledger.GroupsConserve | tools/mt5_account.py:136-149 | splitting deals by position loses nothing and counts nothing twice |
| Mt5Account.ClosedTrades | tools/mt5_account.py:130-197 | one round trip for each position with both legs in the log, as the log says, in the order they closed; and the other deals as cash |
| Mt5Account.TradeIsRoundTrip | tools/mt5_account.py:152-190 | a trade opens as its first entering deal says, closes as its last leaving one says, is priced by volume on each side, and books every deal of its position |
| Mt5Account.CashIsListed | tools/mt5_account.py:138-148 | the cash list is the deals of kind 2 and above, all and in order |
| Mt5Account.SiftDeal | tools/mt5_account.py:138-149 | one deal filed as cash or under its position |
| Mt5Account.PairPositions | tools/mt5_account.py:151-194 | each position with both legs becomes one trade |
| Mt5Account.DealLogIsConserved | tools/mt5_account.py:130-197 | trades, unpaired positions, recorded cash and the charges of cash movements add up to the whole log |
| Mt5Account.LogIsAccountedForIff | tools/mt5_account.py:141-148 | the first three alone account for the log exactly when cash movements carry no charges in sum |
| Mt5Account.DepositLosesItsCommission | tools/mt5_account.py:141-148 | they do not on a deposit charged a commission |
| Mt5Account.OneTradePerPosition | tools/mt5_account.py:151-196 | no position gives two trades |
| Mt5Account.TradeSpansItsDeals | tools/mt5_account.py:153-159 | a trade opens on its position's earliest entry deal and closes on its latest exit deal, whatever the log's order |
| PaperHistory.ClosedOutcomes | tools/mt5_paper.py:293-328 | what was booked on exactly the positions of this tool with an exit deal, oldest last exit first; an unreadable history raises |
| PaperHistory.ClosingIsOldestFirst | tools/mt5_paper.py:312-328 | the tables' order and nets read off the deals |
| PaperHistory.BookedByIsTagged | tools/mt5_paper.py:290 | today's figure is profit, commission and swap over the deals of the tool's number |
| PaperHistory.ReadTables | tools/mt5_paper.py:312-326 | one pass fills the net, close-time and finished tables |
| PaperHistory.PostDeal | tools/mt5_paper.py:322-326 | one deal posted to the three tables |
| PaperHistory.ConsecutiveLosses | tools/mt5_paper.py:331-344 | the longest run of losses ending the sequence; a break-even ends it |
| PaperHistory.StreakReachesIff | tools/mt5_paper.py:331-344 | the streak reaches a cap exactly when the last cap outcomes are all losses |
| PaperHistory.RealisedIsOutcomesPlusOpen | tools/mt5_paper.py:274-328 | today's realised figure is the closed outcomes plus what is booked on unfinished positions and unnumbered deals |
| Retcodes.BookedIsDecidedByTheTable | tools/mt5_retcodes.py:133-227 | a resend is safe on exactly five codes, one code is known booked, and every non-terminal answer is unknown |
| Retcodes.RetryIsDecidedByTheTable | tools/mt5_retcodes.py:133-227 | wait on 10016 and 10018, change on 10030, never on any other answer, unknown or now on none |
| Retcodes.OnlyClosesRetryNow | tools/mt5_retcodes.py:189-227 | an open is never told to retry now; the action changes nothing else |
| Retcodes.RecordedOpenAgreesIff | tools/mt5_retcodes.py:230-251 | a recorded open reads back as the live verdict except on a lost connection without a recorded action, where the row licenses a resend |
| RiskGate.Gate.constructor | tools/risk_gate.py:201-207 | a gate starts having seen nothing |
| RiskGate.Gate.Observe | tools/risk_gate.py:244-264 | missing positions leave the last book standing; a missing figure overwrites |
| RiskGate.Gate.RecordSent | tools/mt5_paper.py:947-949 | a sent order counts in the gate's book at once |
| RiskGate.RecordClose | tools/risk_gate.py:343-400 | a close is recorded and never refused |
| Mt5Paper.OrderGoesOutIff | tools/mt5_paper.py:432-616 | an opening order goes out exactly when symbol, quote, ATR and size can be had, the run is live and the engine approves that very order shown that book; a dry run stops exactly one step short; what is logged is what the venue answered |
| Mt5Paper.Cycle | tools/mt5_paper.py:861-954 | what is needed and unreadable raises before anything is proposed; otherwise the pass, in full, over the whole book, today's figure and the streak, with the gate's book equal to the start plus what was sent |
| Mt5Paper.CycledIsPass | tools/mt5_paper.py:861-954 | stopped, paused, or every symbol decided in turn to the end of the list or the first halt |
| Mt5Paper.NextIsDecided | tools/mt5_paper.py:910-928 | an order goes out, of either side, exactly when nothing stands before the engine and the engine approves that order shown that book, live; each reason not to is given only when it holds |
| Mt5Paper.ShownIsTheBook | tools/mt5_paper.py:890-949 | the book an engine is shown is what was open, then what was sent in order, counted |
| Mt5Paper.RunPass | tools/mt5_paper.py:865-954 | halt at the loss limit, pause at the streak cap, else the symbol loop |
| Mt5Paper.Walk | tools/mt5_paper.py:910-954 | the symbol loop stops at the first halt |
| Mt5Paper.Visit | tools/mt5_paper.py:911-949 | one symbol: cap, open, history, signal, order, and the gate's book kept current |
| BookCap.BookIsCapped | tools/mt5_paper.py:861-954 | against any venue a pass leaves the book, plus the positions it escaped, within max(open at start, max_positions) plus the unaccounted sends; the gate's count overstates the book by the escapes exactly, up to unaccounted sends and unsettled escapes |
| BookCap.PassStaysUnder | tools/mt5_paper.py:911-913 | a pass that starts at the cap leaves the book as it is, any other within the cap plus its own unaccounted sends |
| BookCap.SessionIsCapped | tools/mt5_paper.py:861-954 | over any number of passes, positions closing in between, the book stays within max(open at start, max_positions + the most one pass leaves unaccounted): the excess does not add up |
| BookCap.WithinLimitIff | tools/mt5_paper.py:861-954 | a limit holds against every venue giving these answers exactly when open, sent and unaccounted, less escaped, fit in it together |
| BookCap.NothingIsSentUnapproved | tools/mt5_paper.py:501-560 | every opening send is live, on a symbol not open, under the cap, and approved by the engine for that order and that book |
| BookCap.StoppedMeansSilent | tools/mt5_paper.py:865-909 | after the loss limit or under the streak pause nothing is sent |
| BookCap.HaltIsLast | tools/mt5_paper.py:910-954 | a halt ends the pass; otherwise every symbol gets one record |
| BookCap.EachRecordIsItsSymbols | tools/mt5_paper.py:910-928 | records follow the symbols in order |
| BookCap.NothingFollowsASend | tools/risk_gate.py:214-222 | under the one-position-per-symbol limit no order goes out on a symbol after a recorded send on it, however often it is listed |
| BookCap.SymbolsStayDistinct | tools/mt5_paper.py:914-949 | no symbol is sent twice or while open, repeated listings allowed |
| BookCap.DoubledIff | tools/mt5_paper.py:914-949 | two listed places can end with two positions on one symbol exactly when the first was a send nobody can account for and the second may leave a position |
| BookCap.RepeatAfterALostConnection | tools/mt5_paper.py:614-616 | it happens, under every limit a gate configures: a symbol listed twice, answered 10031 and then filled |
| BookCap.RejectedIsUnaccountedIff | tools/mt5_paper.py:614-616 | a send logged REJECTED leaves its booking open exactly when its code is not one of the five known refusals |
| BookCap.LostConnectionPassesTheCap | tools/mt5_paper.py:614-616 | under every limit a gate configures, a bracketed open answered 10031 is logged REJECTED, frees its slot, and the book can pass the cap |
| BookCap.BracketIsSaneOrEscaped | tools/mt5_paper.py:622-712 | rounding included: a bracket left alone is sane; a moved one is at the ATR distances from the fill, to half a point, and sane when both exceed it; one closed or stranded is inverted |
| BookCap.RepairFollowsTheVenue | tools/mt5_paper.py:622-712 | only a bracket inverted as sent is touched: moved exactly on 10009 or 10025, else escaped exactly on the venue's own 10009, else stranded with its code |
| BookCap.RepairIsSaneIff | tools/mt5_paper.py:634-654 | half a point is the exact limit: a re-anchored bracket is sane under every rounding to the digits exactly when both distances exceed it |

## Left out

- Floating point: rounding, overflow and the display rounding of trades. Comparisons are exact. The rounding of bracket levels to the symbol's digits is any function (`World.round`), taken to move a level by at most half a point where that matters.
- `log`, the t-statistics, power figures and the expectancy report: kept as parameters (`Stats`) or not modelled; the standard deviation is an uninterpreted function (`Fit.std`).
- `sma`, `wilder_rsi`, `foreign_returns`, log returns and every other series a rule computes before a modelled function reads it: inputs, and so is the ATR of a walk, of which `Atr` models the series. A non-finite ATR is None.
- The signal rules (`RULES`, `build_*_candidates` other than the shape family): inputs, one expression each; `collect_trades` tags each reference trade with its symbol and entry time.
- numpy's `argsort` is taken to be stable. Its default is, on up to sixteen keys; the book ranks seven.
- `lot_for_risk`, `filling_for`, the spread in points and the risk amount: inputs to one order (`World`).
- The risk engine, the order management system and the broker adapters: the engine is any function of what it is shown; it keeps no state of its own and does not read a clock. The account figures (equity, margin) it is also shown are fixed for a pass and so part of that function.
- Orders placed without a gate, or with one standing for an approval made upstream: `place` is modelled with a `Gate`, which is all `cycle` passes it.
- An exception raised by the bracket-modify send, which the source does not catch, and the fields of an order record that no later step reads.
- The query window of a history (server clock, day start): the deals it returned are the input.
- Local-time rendering of close times: trades are sorted by epoch time.
- The enumeration order of a Python set: positions closed in the same second come in any order.
- The fold counts and means `walk_forward` reports beside its folds.
- `close_own`, the wind-down and the watchdog; all `main` functions, printing, files, the database, the network.
- GrossBound.BracketR: max_hold >= 1 and sl_atr != 0, because the source leaves its loop variable unbound on an empty window and divides by zero at a zero stop.
- Patterns.SurvivalIsMonotone: q >= 0, a level; for q < 0 the step-up bar falls as the rank rises and only the rank rule of BenjaminiHochberg is claimed.
- BookCap.BracketIsSaneOrEscaped: an order filled at a reported price of 0 is treated, as in the source, as having no fill to check.
- ExitSearch.StopOnlyRatchets: a negative sl_atr on an entry bar that does not hold its own open is not claimed; StopRetreatsIff gives the exact condition on one bar there.
