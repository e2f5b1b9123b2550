/** The paper trading desk: circuit breaker, position book, their stored mirror and
    the audit ledger, as functions on values. `Orchestrator` holds the imperative
    form that is proved to compute exactly these functions. */
module TradingDesk {
  import opened Lists

  const EPS: real := 0.000000001
  const DAILY_LOSS_LIMIT_PCT: real := 4.0
  const CONSECUTIVE_LOSS_LIMIT: nat := 3
  const COOLDOWN_SECONDS: real := 86400.0

  // ---------------------------------------------------------------- breaker

  datatype Breaker = Breaker(trippedAt: Option<real>, losses: nat, dailyLossPct: real)

  const CLOSED_BREAKER := Breaker(None, 0, 0.0)

  function Trip(b: Breaker, now: real): Breaker {
    if b.trippedAt.Some? then b else b.(trippedAt := Some(now))
  }

  function RecordResult(b: Breaker, pnlPct: real, now: real): Breaker {
    var counted := Breaker(b.trippedAt, if pnlPct < 0.0 then b.losses + 1 else 0, b.dailyLossPct + pnlPct);
    if counted.dailyLossPct <= -DAILY_LOSS_LIMIT_PCT then Trip(counted, now)
    else if counted.losses >= CONSECUTIVE_LOSS_LIMIT then Trip(counted, now)
    else counted
  }

  predicate CooledDown(b: Breaker, now: real) {
    b.trippedAt.Some? && now - b.trippedAt.value >= COOLDOWN_SECONDS
  }

  predicate Blocks(b: Breaker, now: real) {
    b.trippedAt.Some? && !CooledDown(b, now)
  }

  /** The breaker after `is_open` was read at `now`. */
  function AfterIsOpen(b: Breaker, now: real): Breaker {
    if CooledDown(b, now) then Breaker(None, 0, b.dailyLossPct) else b
  }

  function AfterDailyReset(b: Breaker, now: real): Breaker {
    AfterIsOpen(b.(dailyLossPct := 0.0), now)
  }

  // ------------------------------------------------------- book and its mirror

  datatype Side = Buy | Sell

  function Opposite(s: Side): Side { if s == Buy then Sell else Buy }

  datatype Position = Position(
    id: string, symbol: string, side: Side, entryPrice: real, quantity: real,
    stopLoss: Option<real>, takeProfit: Option<real>, entryFee: real, openedAt: real)

  /** The persisted columns: everything but the entry fee. */
  datatype Row = Row(
    symbol: string, side: Side, entryPrice: real, quantity: real,
    stopLoss: Option<real>, takeProfit: Option<real>, openedAt: real)

  function ToRow(p: Position): Row {
    Row(p.symbol, p.side, p.entryPrice, p.quantity, p.stopLoss, p.takeProfit, p.openedAt)
  }

  function FromRow(id: string, r: Row): Position {
    Position(id, r.symbol, r.side, r.entryPrice, r.quantity, r.stopLoss, r.takeProfit, 0.0, r.openedAt)
  }

  function IndexOf(book: seq<Position>, id: string): (i: nat)
    ensures i <= |book|
    ensures i < |book| ==> book[i].id == id
    ensures forall k :: 0 <= k < i ==> book[k].id != id
  {
    if book == [] || book[0].id == id then 0 else 1 + IndexOf(book[1..], id)
  }

  /** `dict.pop(id, None)` */
  function Remove(book: seq<Position>, id: string): seq<Position> {
    var i := IndexOf(book, id);
    if i < |book| then book[..i] + book[i + 1..] else book
  }

  /** `dict[id] = p`: in place when the key exists, appended otherwise. */
  function Put(book: seq<Position>, p: Position): seq<Position> {
    var i := IndexOf(book, p.id);
    if i < |book| then book[i := p] else book + [p]
  }

  // ------------------------------------------------------------------- ledger

  /** Which path booked a close; a label of the model, not a ledger column. */
  datatype Cause = StopExit | Netting

  datatype Event =
    | FillLogged(orderId: string, symbol: string, side: Side, price: real, quantity: real, fee: real)
    | PositionClosed(orderId: string, symbol: string, side: Side, entryPrice: real, exitPrice: real,
                     quantity: real, entryFee: real, exitFee: real, residualDropped: Option<real>, cause: Cause)
    | SellResidualDropped(orderId: string, symbol: string, quantity: real)

  function Direction(s: Side): real { if s == Buy then 1.0 else -1.0 }

  /** The `pnl` column of a `position_closed` event; 0 for the other events. */
  function Pnl(e: Event): real {
    if e.PositionClosed? then
      Direction(e.side) * (e.exitPrice - e.entryPrice) * e.quantity - (e.entryFee + e.exitFee)
    else 0.0
  }

  /** The percentage fed to the breaker. */
  function PnlPct(e: Event): real
    requires e.PositionClosed?
  {
    var notional := e.entryPrice * e.quantity;
    if notional != 0.0 then Pnl(e) / notional * 100.0 else 0.0
  }

  function Notional(p: Position): real { p.entryPrice * p.quantity }

  /** `row` is the stored breaker row; `openings` lists every lot ever opened, as it was opened. */
  datatype Desk = Desk(
    book: seq<Position>, breaker: Breaker, table: map<string, Row>, row: Option<Breaker>,
    events: seq<Event>, openings: seq<Position>)

  const EMPTY_DESK := Desk([], CLOSED_BREAKER, map[], None, [], [])

  function AvailableCapital(d: Desk, initialCapital: real): real {
    initialCapital + SumBy(d.events, Pnl) - SumBy(d.book, Notional)
  }

  // ------------------------------------------------------------------ closing

  function CloseEvent(p: Position, exitPrice: real, exitFee: real, entryFee: real, quantity: real,
                      dropped: Option<real>, cause: Cause): Event
  {
    PositionClosed(p.id, p.symbol, p.side, p.entryPrice, exitPrice, quantity, entryFee, exitFee, dropped, cause)
  }

  function RecordClose(d: Desk, e: Event, keepOpen: bool, now: real): Desk
    requires e.PositionClosed?
  {
    var b := RecordResult(d.breaker, PnlPct(e), now);
    d.(book := if keepOpen then d.book else Remove(d.book, e.orderId),
       table := if keepOpen then d.table else d.table - {e.orderId},
       events := d.events + [e], breaker := b, row := Some(b))
  }

  function Store(d: Desk, p: Position): Desk {
    d.(book := Put(d.book, p), table := d.table[p.id := ToRow(p)])
  }

  // --------------------------------------------------------- stop / TP exits

  function ExitPrice(p: Position, price: real): Option<real> {
    if p.side == Buy then
      if p.stopLoss.Some? && price <= p.stopLoss.value then p.stopLoss
      else if p.takeProfit.Some? && price >= p.takeProfit.value then p.takeProfit
      else None
    else
      if p.stopLoss.Some? && price >= p.stopLoss.value then p.stopLoss
      else if p.takeProfit.Some? && price <= p.takeProfit.value then p.takeProfit
      else None
  }

  function Hit(symbol: string, price: real): Position -> bool {
    (p: Position) => p.symbol == symbol && ExitPrice(p, price).Some?
  }

  function Triggered(book: seq<Position>, symbol: string, price: real): seq<Position> {
    Filter(book, Hit(symbol, price))
  }

  function ExitLot(d: Desk, p: Position, price: real, now: real): Desk {
    RecordClose(d, CloseEvent(p, ExitPrice(p, price).GetOr(0.0), 0.0, 0.0, p.quantity, None, StopExit), false, now)
  }

  function ExitLots(d: Desk, lots: seq<Position>, price: real, now: real): Desk
    decreases lots
  {
    if lots == [] then d else ExitLots(ExitLot(d, lots[0], price, now), lots[1..], price, now)
  }

  function CheckOpenPositions(d: Desk, symbol: string, price: real, now: real): Desk {
    ExitLots(d, Triggered(d.book, symbol, price), price, now)
  }

  // ------------------------------------------------------------- FIFO netting

  datatype Fill = Fill(
    symbol: string, side: Side, price: real, quantity: real, fee: real, orderId: string,
    stopLoss: Option<real>, takeProfit: Option<real>, openedAt: real, tripTime: real)

  datatype Match = Match(lot: Position, matched: real, full: bool)

  function OpenedAt(p: Position): real { p.openedAt }

  function IsLot(symbol: string, side: Side): Position -> bool {
    (p: Position) => p.symbol == symbol && p.side == side
  }

  function Lots(book: seq<Position>, symbol: string, side: Side): seq<Position> {
    Filter(book, IsLot(symbol, side))
  }

  function Candidates(book: seq<Position>, fill: Fill): seq<Position> {
    StableSort(Lots(book, fill.symbol, Opposite(fill.side)), OpenedAt)
  }

  /** The FIFO plan and the quantity it leaves over. */
  function Plan(lots: seq<Position>, remaining: real): (r: (seq<Match>, real)) {
    if lots == [] || remaining <= EPS then ([], remaining)
    else
      var q := lots[0].quantity;
      var matched := Min(remaining, q);
      var rest := Plan(lots[1..], remaining - matched);
      ([Match(lots[0], matched, matched >= q - EPS)] + rest.0, rest.1)
  }

  function Share(part: real, whole: real): real {
    if whole != 0.0 then part / whole else 0.0
  }

  /** The match's pro-rata share of the fill's fee, and of the lot's entry fee. */
  function ExitChunk(m: Match, fill: Fill): real { fill.fee * Share(m.matched, fill.quantity) }
  function EntryChunk(m: Match): real { m.lot.entryFee * Share(m.matched, m.lot.quantity) }

  function MatchEvent(m: Match, fill: Fill, dropped: Option<real>): Event {
    CloseEvent(m.lot, fill.price, ExitChunk(m, fill), EntryChunk(m),
               if m.full then m.lot.quantity else m.matched, dropped, Netting)
  }

  function Shrunk(m: Match): Position {
    var left := m.lot.quantity - m.matched;
    m.lot.(quantity := left, entryFee := m.lot.entryFee * Share(left, m.lot.quantity))
  }

  function SettleMatch(d: Desk, m: Match, fill: Fill, dropped: Option<real>): Desk {
    var booked := RecordClose(d, MatchEvent(m, fill, dropped), !m.full, fill.tripTime);
    if m.full then booked else Store(booked, Shrunk(m))
  }

  /** A dropped SELL residue is recorded on the last close of the plan only. */
  function Settle(d: Desk, plan: seq<Match>, fill: Fill, dropped: Option<real>): Desk
    decreases plan
  {
    if plan == [] then d
    else Settle(SettleMatch(d, plan[0], fill, if |plan| == 1 then dropped else None), plan[1..], fill, dropped)
  }

  function NewLot(fill: Fill, residual: real): Position {
    Position(fill.orderId, fill.symbol, fill.side, fill.price, residual, fill.stopLoss, fill.takeProfit,
             fill.fee * Share(residual, fill.quantity), fill.openedAt)
  }

  function OpenLot(d: Desk, p: Position): Desk {
    Store(d, p).(openings := d.openings + [p])
  }

  function OpenResidue(d: Desk, fill: Fill, residual: real, nothingNetted: bool): Desk {
    if residual <= EPS then d
    else if fill.side == Buy then OpenLot(d, NewLot(fill, residual))
    else if nothingNetted then
      d.(events := d.events + [SellResidualDropped(fill.orderId, fill.symbol, residual)])
    else d
  }

  function Residual(left: real): real { if left > EPS then left else 0.0 }

  function Dropped(fill: Fill, left: real): Option<real> {
    if fill.side == Sell && Residual(left) > EPS then Some(Residual(left)) else None
  }

  function MatchOrOpen(d: Desk, fill: Fill): Desk {
    var (plan, left) := Plan(Candidates(d.book, fill), fill.quantity);
    OpenResidue(Settle(d, plan, fill, Dropped(fill, left)), fill, Residual(left), plan == [])
  }

  // ---------------------------------------------------------------- one cycle

  datatype Config = Config(initialCapital: real, maxConcurrent: nat)

  datatype Execution = Execution(success: bool, orderId: string, executedPrice: Option<real>, fee: real)

  /** One `analyze_and_trade` call. The agents' answers and every clock reading are
      inputs; the risk agent answers for the capital it is shown. */
  datatype CycleInput = CycleInput(
    symbol: string, startTime: real, tripTime: real, openTime: real,
    stub: bool, allowStub: bool, paused: bool,
    entryPrice: real, action: Side, sizePct: real, stopLoss: Option<real>, takeProfit: Option<real>,
    confidence: real, riskApproves: real -> bool, humanApproves: bool, execution: Execution)

  datatype Outcome =
    | Blocked | StubData | Paused | LowConfidence | RiskRejected | NoInventory | NoSlot | HumanRejected
    | Traded(success: bool)

  function PositionQuantity(cfg: Config, price: real, sizePct: real): real {
    if price <= 0.0 || sizePct <= 0.0 then 0.0 else cfg.initialCapital * sizePct / 100.0 / price
  }

  function FillPrice(x: CycleInput): real {
    if x.execution.executedPrice.Some? && x.execution.executedPrice.value != 0.0
    then x.execution.executedPrice.value else x.entryPrice
  }

  function FillOf(cfg: Config, x: CycleInput): Fill {
    Fill(x.symbol, x.action, FillPrice(x), PositionQuantity(cfg, x.entryPrice, x.sizePct), x.execution.fee,
         x.execution.orderId, x.stopLoss, x.takeProfit, x.openTime, x.tripTime)
  }

  function LogFill(d: Desk, fill: Fill): Desk {
    if fill.quantity <= 0.0 || fill.price <= 0.0 then d
    else
      MatchOrOpen(d.(events := d.events + [FillLogged(fill.orderId, fill.symbol, fill.side, fill.price,
                                                      fill.quantity, fill.fee)]), fill)
  }

  function Quantity(p: Position): real { p.quantity }

  predicate IsClosing(d: Desk, x: CycleInput) {
    SumBy(Lots(d.book, x.symbol, Opposite(x.action)), Quantity) > EPS
  }

  /** The gates between the stop/TP check and the execution. */
  function Gate(d: Desk, cfg: Config, x: CycleInput): Outcome {
    if x.paused then Paused
    else if x.confidence < 0.6 then LowConfidence
    else if !x.riskApproves(AvailableCapital(d, cfg.initialCapital)) then RiskRejected
    else if x.action == Sell && !IsClosing(d, x) then NoInventory
    else if |d.book| >= cfg.maxConcurrent && !IsClosing(d, x) then NoSlot
    else if !x.humanApproves then HumanRejected
    else Traded(x.execution.success)
  }

  function ReadBreaker(d: Desk, now: real): Desk {
    if CooledDown(d.breaker, now) then
      var b := AfterIsOpen(d.breaker, now);
      d.(breaker := b, row := Some(b))
    else d
  }

  function Managed(d: Desk, x: CycleInput): Desk {
    if x.entryPrice > 0.0 then CheckOpenPositions(d, x.symbol, x.entryPrice, x.tripTime) else d
  }

  function Cycle(d: Desk, cfg: Config, x: CycleInput): (Desk, Outcome) {
    if Blocks(d.breaker, x.startTime) then (d, Blocked)
    else
      var ready := ReadBreaker(d, x.startTime);
      if x.stub && !x.allowStub then (ready, StubData)
      else
        var managed := Managed(ready, x);
        var gate := Gate(managed, cfg, x);
        if gate == Traded(true) then (LogFill(managed, FillOf(cfg, x)), gate) else (managed, gate)
  }

  function DailyReset(d: Desk, now: real): Desk {
    var b := AfterDailyReset(d.breaker, now);
    d.(breaker := b, row := Some(b))
  }

  // ------------------------------------------------------------------ restart

  /** The rows of the table in the order the database returns them. */
  function Loaded(table: map<string, Row>, order: seq<string>): seq<Position> {
    if order == [] then []
    else (if order[0] in table then [FromRow(order[0], table[order[0]])] else []) + Loaded(table, order[1..])
  }

  predicate IsRowOrder(table: map<string, Row>, order: seq<string>) {
    && (forall id <- order :: id in table) && (forall id <- table.Keys :: id in order)
    && (forall i, j :: 0 <= i < j < |order| ==> order[i] != order[j])
  }

  /** A new process: empty book and closed breaker, then `reload_open_positions`. */
  function Restart(d: Desk, order: seq<string>): Desk
    requires IsRowOrder(d.table, order)
  {
    var restored := Loaded(d.table, order);
    d.(book := restored, breaker := d.row.GetOr(CLOSED_BREAKER))
  }

  // --------------------------------------------------------------------- runs

  datatype Step = CycleStep(input: CycleInput) | DailyResetStep(now: real) | RestartStep(order: seq<string>)

  /** A restart step is possible only with an order that lists exactly the stored rows. */
  predicate Possible(d: Desk, s: Step) {
    s.RestartStep? ==> IsRowOrder(d.table, s.order)
  }

  function Next(d: Desk, cfg: Config, s: Step): Desk
    requires Possible(d, s)
  {
    match s
    case CycleStep(x) => Cycle(d, cfg, x).0
    case DailyResetStep(now) => DailyReset(d, now)
    case RestartStep(order) => Restart(d, order)
  }

  predicate PossibleRun(d: Desk, cfg: Config, steps: seq<Step>)
    decreases steps
  {
    steps == [] || (Possible(d, steps[0]) && PossibleRun(Next(d, cfg, steps[0]), cfg, steps[1..]))
  }

  function Run(d: Desk, cfg: Config, steps: seq<Step>): Desk
    requires PossibleRun(d, cfg, steps)
    decreases steps
  {
    if steps == [] then d else Run(Next(d, cfg, steps[0]), cfg, steps[1..])
  }
}
