# Verification of the trading desk and its satellites

This project models the parts of the paper-trading platform whose behaviour depends on long
histories, and proves what holds of them over every input, every interleaving or every history:

* the paper trading desk: FIFO netting of fills, stop and target exits, the gates of a cycle, the
  circuit breaker, the stored mirror, restarts from it, and what the ledger says of every close
  (`TradingDesk`, `Desk*`, `Orchestrator`);
* the human-in-the-loop order lifecycle shared by the API and the trading loop (`Orders`,
  `OrderTrails`, `OrderBridge`), and its composition with the desk cycle (`DeskOrders`);
* the alert dispatcher: byte-range claims by several workers over one growing file, and anti-flood
  grouping (`AlertClaims`, `AlertOverlap`, `AlertGrouping`, `AlertDispatch`);
* the backtest engine, walk-forward windows, Monte Carlo and drawdown (`Backtest`, `BacktestCosts`,
  `BacktestTrades`, `WalkForward`, `MonteCarlo`, `Drawdown`);
* the volume profile, pivots and support/resistance clusters (`VolumeProfile`, `SupportResistance`);
* the two rate limiters (`RateLimit`) and refresh-token families (`Sessions`, `SessionUse`, `SessionTable`).

Each stateful component has two layers. A specification layer gives every operation as a function on
values, and the theorems about whole histories are proved there. An imperative layer has the
source's own objects, fields and loops, and each method is proved to move its object exactly as the
specification function says, so the theorems hold of the objects. The dispatcher is the one
exception: its interleavings are steps of the protocol model, and the object is proved for a pass no
other worker disturbs, which is one run of that protocol (`PassIsProtocolRun`). What an operation
must do is also stated in terms of its inputs and its record alone, without naming the function
(`DeskLedger`, `DeskGates`, `OrderTrails`, `BacktestTrades`, `SessionUse`, and single lemmas
elsewhere), so a function and the method equal to it cannot be wrong together. `Lists.dfy` holds the
shared facts about sums, filters and stable sorting.

Money, prices and quantities are exact reals; `EPS` is the source's 1e-9. `dafny verify
dfyconfig.toml` checks everything.

## What the proofs found

Places where the code does not do what its documentation, or a reader, would expect, each with the
lemmas that prove it.

* The dispatcher's header promises that exactly one worker wins each batch
  (src/notifications/dispatcher.py:11-13). A worker that reads the file size before another worker
  claims past it takes the shrink branch and moves the cursor back, and a line is routed twice
  (`StaleSizeRepeatsLine`). Over all histories, shrink branch included, no byte is claimed twice if and
  only if no claim is won while the cursor is behind bytes already claimed (`ClaimedOnceIff`); under the
  same condition every complete line has one winner and is routed at most once
  (`LinesOnceNeverBehind`). Never taking the shrink branch is one way to meet the condition
  (`NeverResetsNeverBehind`), and reading size and cursor as one snapshot makes that branch dead code
  (`SnapshotNeverResets`).
* An approval that lands between the last poll and the timeout is kept, but the loop was told no: the
  order stays approved and is never executed (`LateApprovalStranded`). `StrandedIff` says exactly which
  steps of the other processes do this, poll by poll.
* Nothing under `src/` calls `reset_daily`, and a cooldown does not clear the daily percentage, so the
  "daily" loss is the total over all closes ever booked (`TotalNeverFades`). After a cooldown the next
  close trips the breaker again, even if it is a win, exactly when that total is still at the limit
  (`RetripsIff`, `WinningCloseTrips`).
* After a restart, lots that share an opening time are netted in whatever order the database returns
  them (`RestartOrderIrrelevantIff`).
* A BUY whose residue opens under the id of a lot it did not net overwrites that lot: the cash then never
  adds up again, and it adds up in exactly the histories in which this never happens (`CashIdentityIff`,
  `FillBasisIff`; `UnnamedFillsLoseCash` is a history of two fills). Ids can repeat on three routes: an
  execution result without the key falls back to "UNKNOWN" (src/orchestration/squad_orchestrator.py:537),
  the shipped execution agent always sets the key but passes on a missing id as none
  (src/agents/execution_agent.py:53), and a paper order's id has only eight hexadecimal digits
  (src/core/exchange_client.py:230).
* The share of a fill's fee that belongs to a dropped SELL residue is never booked (`FillFeeSplit`).
* The forced close at the end of a backtest moves the capital but adds no point to the equity curve, so
  the reported drawdown can miss it: `ForcedCloseMissedIff` says exactly when, and `ForcedCloseHidden` is
  a run that loses half its capital and reports no drawdown.
* In exact arithmetic every Monte Carlo percentile is the same number: shuffling trades cannot change
  the compounded result, only the drawdown (`Simulate`).
* A walk-forward window yields no out-of-sample trade for any strategy when fewer than 50 candles precede
  its segment (the slice start turns negative and wraps around) or when its segment has fewer than 10
  candles (`TestTradesInSegment`); a strategy that always buys trades in exactly the other windows
  (`TestTradesIff`). The rejection message asks for `min_windows * (window_size + test_size)` candles; what
  is really needed is `window_size + min_windows * test_size` (`Validate`).
* On a histogram that is unimodal around its point of control, no set of bins holds 70% of the volume with
  fewer bins than the value area (`ValueAreaOptimal`). `BimodalCounterexample` is a histogram on which a
  smaller set does; in general, whether one does is decided by the fullest bins alone
  (`ValueAreaOptimalIff`).
* The one-pass drawdown is the all-pairs one if and only if no fall to a negative point is deeper than
  what the pass returned (`OnePassIsAllPairsIff`). Nonnegative equity guarantees it
  (`OnePassIsAllPairs`); `NegativeEquityDiffers` is a curve that fails.
* A session's absolute expiry does not bound a login: each rotation starts a new one and ignores the idle
  window, so a family rotated once per lifetime is accepted for as long as it is rotated
  (`RotationOutlives`). What does bound it is the last rotation: a family not rotated again is refused
  past the greatest absolute expiry of its sessions (`UnrotatedExpires`).

## Model

| member | source | states |
|---|---|---|
| DeskCycle.FifoPlan | src/orchestration/squad_orchestrator.py:584-606 | For any book and any positive fill: the plan takes a prefix of the opposite same-symbol lots in opening order, closes all but the last in full, reaches a residue only after closing every one exactly, and closed quantity plus residue is the fill quantity up to EPS either way |
| DeskCycle.FifoBook | src/orchestration/squad_orchestrator.py:608-646 | The book after a fill is, lot by lot in place, what each lot's match says, followed by the BUY residue; nothing else moves |
| DeskCycle.FifoEvents | src/orchestration/squad_orchestrator.py:608-654 | The ledger gains one close per match, in FIFO order, a dropped residue on the last one only, and the no-inventory record only for a SELL that met nothing |
| DeskCycle.OthersUntouched | src/orchestration/squad_orchestrator.py:586-590 | Lots of another symbol or of the fill's own side come through netting unchanged |
| DeskCycle.NettingKeeps | src/orchestration/squad_orchestrator.py:608-626 | Settling any plan keeps the whole desk invariant, adds no lot id, and when a residue is left has removed every opposite lot |
| DeskCycle.MatchOrOpenKeeps | src/orchestration/squad_orchestrator.py:565-654 | A fill closes at most as many lots as it met, never grows the book when it met an opposite lot, and a SELL never adds a lot |
| DeskCycle.ExitsRemoveTriggered | src/orchestration/squad_orchestrator.py:656-670 | The stop/target check removes exactly the triggered lots of the symbol and leaves all others in place and in order |
| DeskCycle.CycleKeeps | src/orchestration/squad_orchestrator.py:297-479 | One whole cycle from any healthy desk: invariant kept, closes at most the lots it started with, book never past max(previous size, slot cap), entry notional conserved when the order id is not one of an open lot, nothing at all when the breaker blocks, loss counter below 3 plus the closes |
| DeskLedger.QueueIsFifo | src/orchestration/squad_orchestrator.py:584-592 | The lots a fill meets are those of its symbol on the other side, oldest first, lots of one age in book order |
| DeskLedger.FifoCloses | src/orchestration/squad_orchestrator.py:594-654 | Everything a fill writes to the ledger, in closed form over the prefix sums of its queue: how many lots it meets, and for each the close of that very lot at its own entry price and side and at the price of the fill, for the whole lot or what was left of the fill, both fees in proportion to what was taken, the unsold rest on the last close; the no-inventory record only when no lot was met |
| DeskLedger.FillProceeds | src/orchestration/squad_orchestrator.py:613-633 | The proceeds of a fill are its price times the quantity it closed |
| DeskLedger.FifoLeaves | src/orchestration/squad_orchestrator.py:608-646 | The lots of the book after a fill, none missing and none besides: those it did not meet, a met one cut down in quantity and fee and otherwise as it was, and the lot it opened |
| DeskLedger.ExitCloses | src/orchestration/squad_orchestrator.py:656-734 | A stop/target check writes one close per lot of the symbol whose level was reached, in book order, whole, without fees, at the stop if both were reached |
| DeskLedger.RunTrue | src/orchestration/squad_orchestrator.py:565-716 | Over every history: each open lot is one a logged BUY opened, at that price and with its levels unchanged, and each close is of such a lot at its entry price, made by the last fill logged before it at that price, or a stop or target exit at the level the lot was opened with |
| DeskLedger.EmptyRunTrue | src/orchestration/squad_orchestrator.py:565-716 | The same from an empty desk |
| DeskLedger.PctOfCost | src/orchestration/squad_orchestrator.py:708-712 | The percentage fed to the breaker, times what the closed quantity cost, is a hundred times the result of the close; it is zero for a quantity that cost nothing |
| DeskGates.TradesIff | src/orchestration/squad_orchestrator.py:297-454 | Exactly when a cycle reaches execution: no trip less than a day old, usable data, not paused, confidence of at least 0.6, the risk agent approves the base plus what was realised before and by this cycle's exits less the lots still open, something to close or a purchase with a free slot, and human approval |
| DeskGates.RefusalIff | src/orchestration/squad_orchestrator.py:306-454 | Every refusal names the first gate that fails, and each gate has its exact condition |
| DeskGates.IdleCycle | src/orchestration/squad_orchestrator.py:306-338 | A blocked cycle, or one on stub data that may not be traded on, writes nothing and fires no stop |
| DeskGates.CycleRecords | src/orchestration/squad_orchestrator.py:297-479 | Everything one cycle writes, in order: the exits its price triggers, refused or not, and then, only when it executes, its fill and the closes that fill makes among the lots that remain |
| DeskGates.RunLogs | src/orchestration/squad_orchestrator.py:438-547 | Over every history the fills in the ledger are those of the cycles that passed every gate and executed, one each and in order, at the executed price where there is one and for the quantity that spends the signal's share of the capital at its own price |
| DeskGates.CycleOpens | src/orchestration/squad_orchestrator.py:503-646 | A cycle opens a lot if and only if it executes a purchase of more than everything in hand on the other side; the lot has the signal's own stop and target and the quantity beyond what was in hand |
| DeskRuns.StepSafe | src/orchestration/squad_orchestrator.py:297-479 | Every cycle, daily reset or restart keeps the reachable-state invariant |
| DeskRuns.RunSafe | src/orchestration/squad_orchestrator.py:30-138 | Over every history of cycles, daily resets and restarts: distinct ids, every lot above EPS, long-only, at most the slot cap, table and breaker row equal to memory, untripped counter below 3, any counter at most 2 plus the slot cap |
| DeskRuns.EmptyRunSafe | src/orchestration/squad_orchestrator.py:144-189 | The same from a desk that starts empty |
| DeskRuns.CooldownFreezes | src/orchestration/squad_orchestrator.py:77-86 | Any number of cycles started inside the cooldown leave the entire desk unchanged |
| DeskRuns.RunBasisIff | src/orchestration/squad_orchestrator.py:628-646 | Over every history of a long-only priced desk, open plus closed entry notional never exceeds what was opened, and equals it if and only if no fill collides with a lot it does not net |
| DeskRuns.CashIdentityIff | src/orchestration/squad_orchestrator.py:481-501 | In every reachable state, with any mix of partial closes, exits and restarts: available capital is initial capital minus notional opened plus close proceeds minus fees booked, if and only if no fill ever collided |
| DeskRuns.CashIdentity | src/orchestration/squad_orchestrator.py:481-501 | In particular in every history in which no fill comes under the id of an open lot |
| DeskRuns.UnnamedFillsLoseCash | src/orchestration/squad_orchestrator.py:535-546 | Two executions without an order id after which the cash does not add up |
| DeskRuns.LongRealized | src/core/ledger.py:181-223 | For a long-only ledger the P&L column sums to proceeds minus entry cost minus fees |
| DeskCollisions.FillBasis | src/orchestration/squad_orchestrator.py:584-654 | A fill that collides drops exactly the notional of the lot whose id it takes from the books, and any other fill conserves them |
| DeskCollisions.FillBasisIff | src/orchestration/squad_orchestrator.py:584-654 | With positive prices, a fill conserves the books if and only if it is not a BUY larger than every lot it can net, under the id of a lot it does not net |
| DeskCollisions.CycleBasisIff | src/orchestration/squad_orchestrator.py:297-479 | The same for a whole cycle, exits and gates included |
| DeskCollisions.ReusedIdLosesLot | src/orchestration/squad_orchestrator.py:644-645 | Opening under the id of an open lot drops exactly that lot's notional |
| DeskFees.PartialFeeExact | src/orchestration/squad_orchestrator.py:621-639 | A partial close splits the lot's entry fee exactly between the booked chunk and the shrunken lot, whose fee per unit is unchanged |
| DeskFees.FullFeeBound | src/orchestration/squad_orchestrator.py:609-626 | A tolerant full close books the whole entry fee short of at most fee * EPS / quantity |
| DeskFees.RunFees | src/orchestration/squad_orchestrator.py:609-645 | Over whole histories, restarts included: booked chunks plus the fee still held plus the fees restarts wiped equal the fee a lot opened with; a lot whose last close was a netting one is short of that by at most fee * EPS / quantity, for the quantity it opened with and for that last close's quantity; only a stop/target exit drops the rest |
| DeskFees.RestartGap | src/orchestration/squad_orchestrator.py:203-214 | A restart raises the unaccounted fee of each lot by exactly the fee the lot still held |
| DeskFees.EmptyRunFees | src/orchestration/squad_orchestrator.py:609-645 | The same for every lot ever opened from an empty desk |
| DeskFills.FillFeeSplit | src/orchestration/squad_orchestrator.py:609-645 | A fill's own fee is carried in full by the closes it books and the lot it opens, less exactly the share of quantity that did nothing (dust up to EPS, or a dropped SELL residue) |
| DeskFills.NeverNakedSell | src/orchestration/squad_orchestrator.py:402-415 | No history ever writes the no-inventory record: every SELL that passes the gate nets a lot |
| DeskBreaker.FeedCounts | src/orchestration/squad_orchestrator.py:88-106 | After any series of closes the loss counter is the length of the closing losing streak and the percentage is the plain total, tripped or not |
| DeskBreaker.FeedTrips | src/orchestration/squad_orchestrator.py:88-127 | A closed breaker is tripped by a series exactly when some close reaches a limit, and keeps the time of the first that did |
| DeskBreaker.CycleFeedsOnce | src/orchestration/squad_orchestrator.py:672-716 | Whatever a cycle books by stop, target or netting, the breaker is fed exactly the closes appended to the ledger, each once and in order |
| DeskBreaker.TotalNeverFades | src/orchestration/squad_orchestrator.py:88-138 | Without a daily reset the percentage is the total over every close ever booked; no trip, cooldown or restart takes anything off it |
| DeskBreaker.DailyResetClears | src/orchestration/squad_orchestrator.py:108-115 | A daily reset clears the percentage, a trip with its streak when it is a day old, and nothing else |
| DeskBreaker.TotalSinceReset | src/orchestration/squad_orchestrator.py:88-138 | After a daily reset the percentage is the total over the closes booked since, over any history without another |
| DeskBreaker.RetripsIff | src/orchestration/squad_orchestrator.py:77-106 | After a cooldown the next close trips again exactly when old total plus its own percentage is at the limit |
| DeskBreaker.WinningCloseTrips | src/orchestration/squad_orchestrator.py:77-106 | A concrete history in which a winning close trips the breaker |
| DeskBreaker.ExitAtLevel | src/orchestration/squad_orchestrator.py:718-734 | A lot leaves at its stop whenever the stop is reached, at its target when only the target is, and otherwise stays, on either side |
| DeskRestart.RestartRestores | src/orchestration/squad_orchestrator.py:203-214 | A restart at any cycle boundary, in any row order, gives back the same lots (entry fees as 0), breaker, table and available capital, and keeps the invariant |
| DeskRestart.RestartSameNetting | src/orchestration/squad_orchestrator.py:584-606 | With distinct opening times the next fill nets the same lots, quantities and residue as without the restart |
| DeskRestart.RestartOrderIrrelevantIff | src/orchestration/squad_orchestrator.py:591-592 | Every row order gives the same netting queue if and only if no two of the lots tie on opening time |
| Orchestrator.SquadOrchestrator.AnalyzeAndTrade | src/orchestration/squad_orchestrator.py:297-479 | The imperative cycle moves the shared objects exactly as `Cycle` does and returns its outcome |
| Orchestrator.SquadOrchestrator.Gates | src/orchestration/squad_orchestrator.py:353-446 | The pre-trade gates in the source's order, over the capital computed from book and ledger |
| Orchestrator.SquadOrchestrator.MatchOrOpen | src/orchestration/squad_orchestrator.py:565-654 | Netting in place equals the specification on book, table, ledger, breaker and history |
| Orchestrator.SquadOrchestrator.PlanFill | src/orchestration/squad_orchestrator.py:597-606 | The planning loop computes the FIFO plan and the quantity left |
| Orchestrator.SquadOrchestrator.SettlePlan | src/orchestration/squad_orchestrator.py:613-640 | The booking loop settles the plan match by match |
| Orchestrator.SquadOrchestrator.SettleOne | src/orchestration/squad_orchestrator.py:614-640 | One match: a full close, or a chunk booked and the lot shrunk and stored |
| Orchestrator.SquadOrchestrator.RecordClose | src/orchestration/squad_orchestrator.py:672-716 | The single close path: book, table, ledger and breaker move together |
| Orchestrator.SquadOrchestrator.CheckOpenPositions | src/orchestration/squad_orchestrator.py:656-670 | The exit loop closes every triggered lot at its level with no fee |
| Orchestrator.SquadOrchestrator.LogFill | src/orchestration/squad_orchestrator.py:519-563 | Nothing for an unpriced or unsized fill, otherwise the fill event and then netting |
| Orchestrator.SquadOrchestrator.RealizedPnl | src/orchestration/squad_orchestrator.py:481-493 | The loop sums the P&L column of the ledger |
| Orchestrator.SquadOrchestrator.AvailableCapital | src/orchestration/squad_orchestrator.py:495-501 | Initial capital plus realised P&L minus open notional, over the current book |
| Orchestrator.SquadOrchestrator.ReadBreakerOpen | src/orchestration/squad_orchestrator.py:306-312 | Reading the breaker blocks, or clears an expired trip and stores it |
| Orchestrator.SquadOrchestrator.ReloadOpenPositions | src/orchestration/squad_orchestrator.py:203-214 | Book and breaker from the stored rows, each left alone when nothing is stored |
| Orchestrator.SquadOrchestrator.Boot | src/orchestration/squad_orchestrator.py:203-214 | A new process over the stored tables is the specified restart |
| Orchestrator.CircuitBreaker.RecordTradeResult | src/orchestration/squad_orchestrator.py:88-106 | One close counted, a trip at either limit, and the row stored |
| Orchestrator.CircuitBreaker.IsOpen | src/orchestration/squad_orchestrator.py:77-86 | Blocked inside the cooldown; past it, counters cleared except the daily percentage, and stored |
| Orchestrator.CircuitBreaker.ResetDaily | src/orchestration/squad_orchestrator.py:108-115 | The daily percentage cleared, an expired trip cleared, and the row stored |
| Orchestrator.CircuitBreaker.Reload | src/orchestration/squad_orchestrator.py:56-66 | The stored triple, or nothing changed when none was stored |
| Orchestrator.TradingDb.Upsert | src/orchestration/position_store.py:55-74 | One row keyed by order id, projected to the persisted columns |
| Orchestrator.TradingDb.Delete | src/orchestration/position_store.py:76-82 | That row and no other removed |
| Orchestrator.TradingDb.LoadAll | src/orchestration/position_store.py:112-130 | The stored lots in the order the database returns them |
| Orchestrator.TradingDb.SaveCircuitState | src/orchestration/position_store.py:133-151 | The single breaker row replaced |
| Orchestrator.TradingLedger.Append | src/core/ledger.py:60-71 | The ledger only grows at its end |
| Orders.StepLifecycle | src/hitl/orders.py:150-246 | One step of any process: only the lifecycle's own status changes, and a row in an absorbing status never changes in any column |
| Orders.RunLifecycle | src/hitl/orders.py:150-246 | Over every history: rejected, cancelled and filled are absorbing, an approved order can only become filled |
| Orders.EveryRunHonest | src/hitl/orders.py:150-246 | From an empty store, whatever both processes do: exactly one `order_fill` event per filled order and none otherwise; filled implies human approval or a non-critical notional within a positive threshold |
| OrderTrails.SubmissionDecides | src/hitl/orders.py:150-185 | Over every history: an order submitted under a violated guardrail is rejected, whatever its size, and stays rejected without a fill event in every later store; otherwise it is filled at once if and only if it is non-critical and within a positive threshold, and else waits |
| OrderTrails.EveryRunTrailed | src/hitl/orders.py:150-393 | In every reachable store the events of an order are one of six words, and the word says what its row says: status, who decided, the reason of a cancellation, and on a fill the order's own price and quantity; an id without a row has none |
| OrderTrails.DecisionStands | src/hitl/orders.py:217-246 | Who decided an order, when and with what note never changes again, not even by the fill |
| OrderTrails.AnswersAreRows | src/hitl/orders.py:150-246 | Every call answers the row as the store then has it, or that there is none, and its errors change nothing |
| Orders.WaitOutcome | src/hitl/orders.py:327-352 | However other processes interleave with the polls, a true answer means approved or filled, and no wait leaves the order pending |
| OrderTrails.WaitIs | src/hitl/orders.py:327-352 | The wait ends at the first poll that is late or finds the order decided or gone; in time it answers what it found and changes nothing, late it cancels and answers no |
| Orders.HandshakeCompletes | src/hitl/orders.py:396-439 | An id the handler returned stays approved or filled through any further steps, and `mark_filled` then leaves it filled |
| Orders.UnsizedNeverInserted | src/hitl/orders.py:405-424 | Exactly which signals cannot be sized, and that those leave store and ledger untouched |
| OrderTrails.SizedOrder | src/hitl/orders.py:405-424 | The order of a signal has its pair, side and price, and its own quantity or the one that spends its share of the capital |
| OrderTrails.HandleAnswers | src/hitl/orders.py:396-439 | What the handler leaves of a signal with a new id: the sized order in the store, no longer waiting for a decision; no id under a violated guardrail, the id at once for a small order, and otherwise the id exactly when the poll that ended the wait found it approved or filled in time |
| Orders.LateApprovalStranded | src/hitl/orders.py:327-352 | A history in which an approval after the last poll leaves the order approved and the loop refused |
| Orders.StrandedIff | src/hitl/orders.py:327-352 | A refused wait leaves an approved order if and only if it started past its deadline on an approved one, or started in time on a pending one that no other process resolved or cancelled before the last poll and that the steps after that poll approved first and did not fill |
| Orders.BecomesApproved | src/hitl/orders.py:187-246 | A series of steps leaves a pending order approved if and only if its first decision approves it and no later step marks it filled |
| DeskOrders.ExecutedIsFilled | src/orchestration/squad_orchestrator.py:438-473 | Cycle, handler and store together, over any interleaving: every successful execution ends with its order filled, with exactly one fill event, and approved by a human or within the automatic threshold |
| DeskOrders.AskedBeforeTrading | src/orchestration/squad_orchestrator.py:438-454 | No cycle trades without having passed every gate and asked for approval |
| Orders.PollsDecrease | src/hitl/orders.py:338-350 | Every sleep brings the wait strictly closer to its deadline, so it ends |
| OrderBridge.OrderStore.Submit | src/hitl/orders.py:150-185 | Insert, then guardrail rejection, auto-fill or pending, with the events of each |
| OrderBridge.OrderStore.Resolve | src/hitl/orders.py:187-215 | Only a pending order is decided; unknown and already decided ids are errors that change nothing |
| OrderBridge.OrderStore.MarkFilled | src/hitl/orders.py:217-234 | Only an approved order is filled and logged |
| OrderBridge.OrderStore.Cancel | src/hitl/orders.py:236-246 | Only a pending order is cancelled |
| OrderBridge.OrderStore.LogFillEvents | src/hitl/orders.py:384-393 | The three fill events, in order |
| OrderBridge.OrderStore.WaitForDecision | src/hitl/orders.py:327-352 | The polling loop terminates and equals the specified wait over any interleaving |
| OrderBridge.OrderStore.Handle | src/hitl/orders.py:396-439 | The approval handler: sizing, submission, early answers, wait |
| AlertClaims.RunSound | src/notifications/dispatcher.py:82-119 | Any number of workers, any interleaving, any crash points: winning claims are consecutive newline-cut ranges from the initial cursor, each routed line by line, and the cursor only advances |
| AlertOverlap.ClaimedOnceIff | src/notifications/dispatcher.py:82-119 | Any number of workers, any interleaving, any crash points and any resets: no byte of the file is claimed twice if and only if no claim is won while the cursor is behind the furthest byte claimed |
| AlertOverlap.LinesOnceNeverBehind | src/notifications/dispatcher.py:82-119 | In every history without such a claim, resets included: every complete line up to the furthest claim was claimed by exactly one worker and routed exactly once, unless its claimer crashed before it or is still at work |
| AlertOverlap.NeverResetsNeverBehind | src/notifications/dispatcher.py:89-107 | A history that never takes the shrink branch never wins such a claim |
| AlertClaims.LinesRoutedOnce | src/notifications/dispatcher.py:82-119 | Without the shrink branch: every complete line past the initial cursor was claimed by exactly one worker and routed exactly once, unless its claimer crashed before it or is still at work |
| AlertClaims.MonotoneIffNeverResets | src/notifications/dispatcher.py:89-92 | The cursor is monotone if and only if no worker takes the shrink branch |
| AlertClaims.SnapshotNeverResets | src/notifications/dispatcher.py:87-92 | Reading size and cursor as one snapshot makes the shrink branch unreachable on an append-only file |
| AlertClaims.StaleSizeRepeatsLine | src/notifications/dispatcher.py:87-107 | A two-worker history with separate reads in which one line is routed twice |
| AlertClaims.LinesOfOnce | src/notifications/dispatcher.py:108-118 | The lines of a claimed range list every line start in it once and nothing else |
| AlertGrouping.Conservation | src/notifications/dispatcher.py:152-166 | Per key, alerts arriving equal deliveries plus counts reported in suffixes plus the count still held, for any windows and any clock |
| AlertGrouping.SendsApart | src/notifications/dispatcher.py:152-166 | Any two deliveries of a key are at least the later one's window apart |
| AlertGrouping.HeldBackIff | src/notifications/dispatcher.py:157-161 | An alert is held back if and only if the last delivery of its key in the log of attempts is less than a window old |
| AlertGrouping.GroupIsLastSend | src/notifications/dispatcher.py:156-165 | A key has a group exactly when it was delivered, and the group holds the time of the last delivery in the log |
| AlertGrouping.KeysApart | src/notifications/dispatcher.py:152-166 | What a run does to one (channel, type, pair) is what the arrivals of that key alone would do to it |
| AlertGrouping.OthersNeverMatter | src/notifications/dispatcher.py:155-160 | Alerts of other channels, types or pairs never hold one back |
| AlertDispatch.NotificationStore.AdvanceCursor | src/notifications/store.py:289-302 | Compare-and-set: wins exactly when the cursor still holds the expected value, and moves only then |
| AlertDispatch.NotificationStore.ResetCursor | src/notifications/store.py:304-311 | The cursor set outright |
| AlertDispatch.Dispatcher.DispatchPending | src/notifications/dispatcher.py:82-119 | An undisturbed pass leaves the cursor and routes the alerts among the lines that `PassOver` says: the shrink branch, or everything up to the last newline in order |
| AlertDispatch.Dispatcher.DeliverLines | src/notifications/dispatcher.py:108-119 | The delivery loop hands out exactly the parsable newline-separated lines of the claimed chunk |
| AlertDispatch.Dispatcher.RouteToChannels | src/notifications/dispatcher.py:152-166 | The grouping loop is the specified grouping run over one arrival per enabled channel |
| AlertDispatch.PassIsProtocolRun | src/notifications/dispatcher.py:82-119 | `PassOver` is the run of the worker protocol by one worker alone, from its snapshot through its claim or reset and every line routed, until it is idle again |
| AlertDispatch.PassRoutesAlerts | src/notifications/dispatcher.py:95-119 | A pass routes exactly the complete lines past the cursor that parse, each once |
| AlertDispatch.ReachesEnabled | src/notifications/dispatcher.py:152-156 | An alert gets one attempt per selected channel that is enabled, in order, under its own type and pair, and a disabled channel gets none |
| Drawdown.OnePassIsPeakToTrough | src/backtest/engine.py:335-345 | For every curve the running-peak loop returns the deepest fall from a running peak |
| Drawdown.OnePassIsAllPairsIff | src/core/metrics.py:196-209 | On any curve the loop returns the minimum relative move over all ordered pairs if and only if no fall from a positive to a negative point is deeper than what it returned |
| Drawdown.OnePassIsAllPairs | src/core/metrics.py:196-209 | In particular on every nonnegative curve |
| Drawdown.AllPairsUnique | src/core/metrics.py:196-209 | The all-pairs definition fixes one value |
| Drawdown.NegativeEquityDiffers | src/backtest/engine.py:335-345 | A curve that goes negative, on which the loop and the all-pairs minimum differ |
| Drawdown.LastPointOmitted | src/backtest/engine.py:335-345 | One more point changes the drawdown by its fall from the highest point of the curve, and by nothing else |
| Backtest.ForcedCloseMissedIff | src/backtest/engine.py:140-147 | For any run: the reported drawdown is that of all its trades if and only if it ends without a forced close, or the forced close leaves the capital no deeper below the highest reported point than the drawdown reported |
| Backtest.ForcedCloseHidden | src/backtest/engine.py:140-147 | A run that loses half its capital on the forced close and reports no drawdown |
| Drawdown.EngineMaxDrawdown | src/backtest/engine.py:335-345 | The engine's loop computes the one-pass drawdown of its curve |
| Drawdown.MetricsMaxDrawdown | src/core/metrics.py:196-209 | The metrics loop computes the one-pass drawdown of the curve its results build |
| Backtest.NoLookAhead | src/backtest/engine.py:99-147 | For any deterministic, possibly stateful strategy and any prefix of at least 60 candles, the trades settled on the prefix are the first trades of the full replay |
| Backtest.RunBooks | src/backtest/engine.py:99-147 | Entry indices strictly increase past the warm-up, final capital is initial capital plus every result, and the equity curve omits exactly the forced close |
| BacktestTrades.TradesExplained | src/backtest/engine.py:99-226 | The life of every trade of a run: opened at its candle by the signal the strategy gave there, shown at most 200 candles, with that signal's size, stop and target; left at the first later candle that reaches a level, at the stop if both are, or at the last close when none is; its return is the move between the two slipped prices less two commissions |
| BacktestTrades.EnteredIff | src/backtest/engine.py:117-137 | A run has a trade entered at a candle if and only if nothing was open there after its exits and the strategy acted |
| BacktestTrades.AskedWhenFlat | src/backtest/engine.py:105-137 | The strategy is asked, and its state moves, exactly at the candles where nothing is open |
| BacktestTrades.CapitalCompounds | src/backtest/engine.py:195-226 | Over a whole run each trade, the forced close included, multiplies the capital by one plus its share of it times its return |
| Backtest.BacktestEngine.Run | src/backtest/engine.py:84-147 | The candle loop computes the specified trades, capital, curve and drawdown |
| BacktestCosts.CostsOnlyHurt | src/backtest/engine.py:151-226 | Slippage is paid on both legs of either side and commission twice: no trade beats its cost-free self, and without slippage the gap is exactly two commissions |
| BacktestCosts.PessimisticExit | src/backtest/engine.py:171-193 | A candle that reaches both levels is settled at the stop, which is the worse result |
| WalkForward.Windows | src/backtest/validator.py:87-96 | Every window that fits and no other; test segments consecutive, so they tile a contiguous range |
| WalkForward.TestTradesInSegment | src/backtest/validator.py:117-128 | Every out-of-sample trade opens inside its own test segment, for every window size; none at all, for any strategy, when fewer than 50 candles precede the segment or it has fewer than 10 |
| WalkForward.TestTradesIff | src/backtest/validator.py:117-128 | A strategy that always buys trades out of sample in a window if and only if at least 50 candles precede its segment and the segment has at least 10 |
| WalkForward.TestSliceIsSegment | src/backtest/validator.py:121-123 | A test slice is the 50 warm-up candles and the segment, nothing later |
| WalkForward.WindowsDisjoint | src/backtest/validator.py:87-123 | Out-of-sample trades of different windows never share an opening candle and come in window order |
| WalkForward.WindowReplays | src/backtest/validator.py:117-123 | One window on the series itself: training is the replay of exactly `[start, trainEnd)` and its trades open in `[start + 50, trainEnd)`; the test starts from the state training left and sees 50 candles and its segment; a window that cannot be tested leaves that state alone |
| WalkForward.TrainingIsBlind | src/backtest/validator.py:117-122 | On two series that agree before `trainEnd`, training gives the same trades and leaves the strategy in the same state |
| WalkForward.WalkIsCausal | src/backtest/validator.py:117-138 | On two series that agree up to the end of the last segment, every result of the walk is the same, and so is the state after it |
| WalkForward.WalkHandsOver | src/backtest/validator.py:117-138 | Each window starts from the strategy state the windows before it left |
| WalkForward.RunWindow | src/backtest/validator.py:121-128 | One engine and one strategy, first over exactly the candles of the training slice and then over the test slice |
| WalkForward.Validate | src/backtest/validator.py:87-128 | Refuses exactly when fewer than the minimum number of windows fit; otherwise the result is the train and test replays of every window that fits, in order, the strategy's state handed from each to the next, training trades before the window's training ends and test trades in its segment |
| MonteCarlo.ShuffleInvariant | src/backtest/monte_carlo.py:65-72 | A shuffle changes neither the compounded growth nor the product of the losing trades |
| MonteCarlo.LosersBound | src/backtest/monte_carlo.py:72-78 | With returns above -1, the losing trades alone bring equity down at least as far as the whole list |
| MonteCarlo.OrderBounds | src/backtest/monte_carlo.py:70-78 | The drawdown of any order lies between the losers' product minus one and min(0, compounded result) |
| MonteCarlo.RunOrder | src/backtest/monte_carlo.py:68-76 | The inner loop computes the compounded equity and the running worst drawdown of its order |
| MonteCarlo.DrawdownIs | src/backtest/monte_carlo.py:68-76 | The drawdown of one order is the deepest fall from a running peak of the equity its trades multiply up from 1, and that is what the loop tracks |
| MonteCarlo.RunAll | src/backtest/monte_carlo.py:65-78 | Every simulated order ends at the same equity; the worst drawdown is that of some order and no order has a deeper one, for any returns, and keeps both bounds |
| MonteCarlo.Simulate | src/backtest/monte_carlo.py:41-94 | p5 = p50 = p95 = the compounded result, rejection exactly on a loss, the worst drawdown the deepest of all orders and within its bounds, the empty result, and no result when there is nothing to index |
| VolumeProfile.BinEncloses | src/analysis/volume_profile.py:60-69 | A close inside the range lands in the bin whose edges enclose it, the top edge in the last bin |
| VolumeProfile.BinningConserves | src/analysis/volume_profile.py:63-69 | Binning conserves total volume, whatever the closes |
| VolumeProfile.BinHolds | src/analysis/volume_profile.py:63-69 | Each bin holds the volume of the candles that close in it |
| VolumeProfile.BinOutside | src/analysis/volume_profile.py:66-68 | A close outside the range goes to the end bin on its side |
| VolumeProfile.EqualBins | src/analysis/volume_profile.py:60-61 | The bins are equally wide |
| VolumeProfile.ValueAreaHolds | src/analysis/volume_profile.py:76-102 | A contiguous interval around the point of control holding at least 70% of the volume, and less than 70% before its last bin, which was the fuller neighbour, the upper one on a tie |
| VolumeProfile.ValueAreaOptimal | src/analysis/volume_profile.py:82-102 | On a histogram unimodal around its point of control no set of bins whatever reaches 70% with fewer bins |
| VolumeProfile.ValueAreaOptimalIff | src/analysis/volume_profile.py:82-102 | A check of optimality on any histogram: no set of bins reaches 70% with fewer bins than the value area if and only if one bin fewer holds less than 70% even with the fullest bins |
| VolumeProfile.BimodalCounterexample | src/analysis/volume_profile.py:82-102 | A bimodal histogram on which two separate bins beat the three-bin value area |
| VolumeProfile.LevelsOrdered | src/analysis/volume_profile.py:42-117 | Value area low, point of control and value area high are ordered on every input |
| VolumeProfile.LevelsInBins | src/analysis/volume_profile.py:60-105 | The three prices are the middles of three bins: the first fullest one, and the end bins of the value area around it |
| VolumeProfile.FlatLevels | src/analysis/volume_profile.py:44-80 | The one price of a profile without candles, with one candle, without a range or without volume |
| VolumeProfile.RangeIs | src/analysis/volume_profile.py:53-54 | The range runs from the lowest low to the highest high |
| VolumeProfile.ArgMax | src/analysis/volume_profile.py:71-72 | The first bin of maximal volume |
| VolumeProfile.FillBins | src/analysis/volume_profile.py:63-69 | The bins filled in place are the histogram |
| VolumeProfile.GrowValueArea | src/analysis/volume_profile.py:82-102 | The growth loop with its running sum ends at the specified interval |
| VolumeProfile.Analyze | src/analysis/volume_profile.py:42-117 | The three levels on every input, degenerate ones included |
| SupportResistance.FindPivots | src/analysis/support_resistance.py:106-117 | Exactly the strict local extremes of the window, in order |
| SupportResistance.StandsIffPivot | src/analysis/support_resistance.py:111-116 | Being the window's extreme and occurring once is beating every neighbour strictly |
| SupportResistance.PivotsApart | src/analysis/support_resistance.py:106-117 | Two pivots of one kind are more than `lookback` candles apart |
| SupportResistance.PivotCount | src/analysis/support_resistance.py:106-117 | At most one pivot of a kind per lookback + 1 candles |
| SupportResistance.PlaceLevel | src/analysis/support_resistance.py:126-131 | One turn of the loop extends the partition by one level |
| SupportResistance.Cluster | src/analysis/support_resistance.py:119-131 | The clusters concatenate to the sorted levels, near inside a cluster and not near across a boundary |
| SupportResistance.PartitionUnique | src/analysis/support_resistance.py:119-131 | There is only one such partition |
| SupportResistance.ClusterGaps | src/analysis/support_resistance.py:126-131 | Neighbours in a cluster are within the tolerance of the lower one, neighbours across a boundary are not |
| SupportResistance.MeanIff | src/analysis/support_resistance.py:134-138 | The price of a cluster is the one number its levels deviate from by nothing in total |
| SupportResistance.MeansIncrease | src/analysis/support_resistance.py:133-143 | For positive levels the unrounded cluster means strictly increase |
| SupportResistance.Zones | src/analysis/support_resistance.py:133-147 | The three strongest clusters, ties in price order |
| SupportResistance.StrongestKept | src/analysis/support_resistance.py:145-147 | No cluster left out is stronger than one reported |
| SupportResistance.TiesByPrice | src/analysis/support_resistance.py:145-147 | Zones of equal strength come from the lowest price up |
| RateLimit.PruningIsSound | src/core/ratelimit.py:33-42 | The pruned limiter answers every call as the never-pruned log would, and its bucket is exactly the part of that log inside the window |
| RateLimit.SlidingBound | src/core/ratelimit.py:33-42 | Any interval (t - W, t] holds at most `limit` allowed hits of a key |
| RateLimit.AllowedIff | src/core/ratelimit.py:33-42 | Exactly when a call is allowed: when fewer than its limit of the earlier allowed hits of its key are less than a window old |
| RateLimit.InMemoryRateLimiter.Allow | src/core/ratelimit.py:33-42 | The method's answer and bucket are the specified ones |
| RateLimit.FixedWindowBound | src/core/ratelimit.py:58-64 | Any half-open interval of one window holds at most 2 * limit - 1 allowed hits |
| RateLimit.FixedWindowAttained | src/core/ratelimit.py:58-64 | For every limit and window some history reaches that bound |
| RateLimit.FixedWindowLimiter.Allow | src/core/ratelimit.py:58-64 | The answer is that of the fixed-window run over all hits on the key, so the bound holds of the object; no other key is touched |
| Sessions.RunExtends | src/auth/store.py:309-432 | Rows are only appended; a row keeps identity, family and absolute expiry, and stays revoked |
| Sessions.NeverPastAbsolute | src/auth/store.py:328-344 | However often the idle window slides, a session is never accepted past its absolute expiry nor after revocation |
| Sessions.UnusedExpires | src/auth/store.py:328-344 | Only an accepted use moves the idle window: left unused past it, a session is refused for good |
| SessionUse.AcceptedIff | src/auth/store.py:328-432 | Over any history: a session is accepted if and only if nothing revoked it, and the time is within one idle window of its last accepted use and within its lifetime |
| SessionUse.UseExtends | src/auth/store.py:328-344 | An accepted use answers the row as it was read and moves only the end of its idle window, to one window after the use |
| SessionUse.RefusedUse | src/auth/store.py:328-338 | A refused use changes no row |
| SessionUse.LoginWorks | src/auth/store.py:309-326 | A login is accepted until its idle window or its lifetime ends |
| Sessions.StepAlive | src/auth/store.py:346-394 | No step but a login adds an unrevoked session to a family |
| Sessions.RunOneAlive | src/auth/store.py:346-394 | In every reachable state every family has at most one unrevoked session |
| Sessions.DeadForGood | src/auth/store.py:346-394 | A family with no unrevoked session never has one again |
| Sessions.ReuseKillsFamily | src/auth/store.py:346-359 | Presenting the refresh token of a revoked session leaves its family with none, and after any further history no token of the family is accepted |
| Sessions.RotateHandsOver | src/auth/store.py:346-367 | A rotation retires the presented session and leaves its family exactly one new one |
| SessionUse.RotatedTokensWork | src/auth/store.py:346-367 | The two tokens a rotation hands out are the ones the new session answers to, for the same user and family, within a new window and a new lifetime |
| SessionUse.StrangersUntouched | src/auth/store.py:388-432 | A user's revocation leaves every session of every other user as it was, and the one to keep |
| Sessions.RotationOutlives | src/auth/store.py:346-367 | Rotating once per absolute lifetime, the family is still accepted after any number of lifetimes, whatever the idle window |
| Sessions.StepExpires | src/auth/store.py:346-367 | Only a successful rotation of a family moves the greatest absolute expiry of its sessions, and at most to one lifetime after the rotation |
| Sessions.UnrotatedExpires | src/auth/store.py:328-367 | Without further rotations no token of a family is accepted past the greatest absolute expiry of its sessions |
| SessionTable.SessionStore.Create | src/auth/store.py:309-326 | One row appended with both expiries |
| SessionTable.SessionStore.Resolve | src/auth/store.py:328-344 | Accepts exactly an unrevoked, unexpired session, returns the row as it was read, and slides only its window |
| SessionTable.SessionStore.Rotate | src/auth/store.py:346-367 | Unknown, reused, expired and rotated outcomes, each with its effect on the table |
| SessionTable.SessionStore.UpdateRevoked | src/auth/store.py:369-394 | Exactly the rows meeting the condition are stamped, and their number is returned |
| SessionTable.SessionStore.RevokeForUser | src/auth/store.py:413-422 | Revokes only the owner's open session and answers true exactly when there was one |

## Left out

- Rounding: every `round(..., n)` and float error; all arithmetic is on exact reals.
- Storage: SQL, SQLite and Postgres connections, JSON encoding, environment parsing and logging; tables are maps or sequences and settings are constants or parameters. Persistence always succeeds, and a ledger write never raises.
- DeskFees.RunFees: assumes that fees are nonnegative and that no order id is used twice.
- Orchestrator.SquadOrchestrator.AnalyzeAndTrade: the fill callback is composed with the cycle in `DeskOrders`, on values; strategy, risk, human and execution answers and the clock readings are inputs of the cycle (one reading per use: breaker, closes of the cycle, opening time); signal, validation and skip events, alerts and throttling are not logged. Signals carry no symbol of their own, so the cycle's symbol is the one used.
- Orchestrator.SquadOrchestrator.SettleOne: lots are values in a sequence keyed by id, so shrinking a lot replaces its entry; aliasing of the dictionaries inside the book is not captured.
- Opening times are real numbers; the source compares ISO timestamps as text.
- OrderBridge.OrderStore.Submit: guardrail predicates are one input with three outcomes; `list`, `get`, `count` and `clear` are queries or resets and are not modelled.
- AlertClaims.RunSound: assumes no worker takes the shrink branch; `AlertOverlap` covers the histories that do. A process that crashes goes back to idle as a restarted worker would.
- AlertDispatch.Dispatcher.DispatchPending: one pass with no other worker between its reads and its claim; passes disturbed by others are steps of `AlertClaims`.
- AlertDispatch.Dispatcher.DeliverLines: lines are split at the newline byte only, and which lines are JSON alerts is a predicate.
- AlertDispatch.Dispatcher.RouteToChannels: rule matching, quiet hours, delivery attempts and their retries are outside; so is `ensure_initialized`.
- AlertGrouping.SendsApart: windows are nonnegative.
- Backtest.BacktestEngine.Run: an entry price of zero, on which the source divides by zero, gives a zero return; a raising strategy is one that holds; Sharpe, win rate and expectancy are not modelled.
- WalkForward.Validate: the test step is positive (the source loops for ever on zero); a window whose replay raises is not modelled, nor are the Sharpe statistics and verdict.
- MonteCarlo.Simulate: the shuffles are inputs, any permutations of the returns.
- VolumeProfile.Analyze: volumes are nonnegative; low-volume nodes are not modelled; `linspace`, `digitize`, `argmax` and `mean` are written out.
- SupportResistance.Zones: nearest levels, the fallback to the price range and Fibonacci levels are not modelled.
- RateLimit.FixedWindowLimiter.Allow: the counter is ideal (the store never fails, so the fail-open branch is out, and the time to live is not truncated to milliseconds).
- Sessions.RunOneAlive: each store method is one step, tokens hash injectively, and a login draws a family no row has; `list_for_user`, passwords, TOTP and invitations are not modelled.
- The web API, dashboards, exchange and LLM clients, senders, indicators, regime classification and the non-trading agents: plumbing, network or floating point.
