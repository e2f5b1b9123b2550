/** The imperative desk. Every method is proved to move the snapshot of the shared objects
    exactly as the corresponding function of `TradingDesk` says. */
module Orchestrator {
  import opened Lists
  import opened TradingDesk

  lemma {:induction false} SettleStep(d: Desk, plan: seq<Match>, i: nat, fill: Fill, dropped: Option<real>)
    requires i < |plan|
    ensures Settle(d, plan[i..], fill, dropped)
         == Settle(SettleMatch(d, plan[i], fill, if i == |plan| - 1 then dropped else None), plan[i + 1..], fill, dropped)
  {
  }

  /** The two tables the desk persists to. */
  class TradingDb {
    var positions: map<string, Row>
    var breakerRow: Option<Breaker>

    constructor ()
      ensures positions == map[] && breakerRow == None
    {
      positions, breakerRow := map[], None;
    }

    method Upsert(p: Position)
      modifies this`positions
      ensures positions == old(positions)[p.id := ToRow(p)]
    {
      positions := positions[p.id := ToRow(p)];
    }

    method Delete(id: string)
      modifies this`positions
      ensures positions == old(positions) - {id}
    {
      positions := positions - {id};
    }

    method SaveCircuitState(b: Breaker)
      modifies this`breakerRow
      ensures breakerRow == Some(b)
    {
      breakerRow := Some(b);
    }

    /** Reads the rows in the order the database hands them out. */
    method LoadAll(order: seq<string>) returns (out: seq<Position>)
      ensures out == Loaded(positions, order)
    {
      out := [];
      var i := 0;
      while i < |order|
        invariant i <= |order|
        invariant out + Loaded(positions, order[i..]) == Loaded(positions, order)
      {
        var id := order[i];
        if id in positions {
          out := out + [FromRow(id, positions[id])];
        }
        assert order[i..][1..] == order[i + 1..];
        i := i + 1;
      }
    }
  }

  /** The append-only audit trail. */
  class TradingLedger {
    var events: seq<Event>

    constructor ()
      ensures events == []
    {
      events := [];
    }

    method Append(e: Event)
      modifies this
      ensures events == old(events) + [e]
    {
      events := events + [e];
    }
  }

  class CircuitBreaker {
    var trippedAt: Option<real>
    var consecutiveLosses: nat
    var dailyLossPct: real
    const db: TradingDb

    constructor (db: TradingDb)
      ensures this.db == db && State() == CLOSED_BREAKER
    {
      this.db := db;
      trippedAt, consecutiveLosses, dailyLossPct := None, 0, 0.0;
    }

    function State(): Breaker
      reads this
    {
      Breaker(trippedAt, consecutiveLosses, dailyLossPct)
    }

    method TripAt(now: real)
      modifies this
      ensures State() == Trip(old(State()), now)
    {
      if trippedAt.None? {
        trippedAt := Some(now);
      }
    }

    method Reset()
      modifies this, db`breakerRow
      ensures State() == Breaker(None, 0, old(dailyLossPct)) && db.breakerRow == Some(State())
    {
      trippedAt := None;
      consecutiveLosses := 0;
      db.SaveCircuitState(State());
    }

    method IsOpen(now: real) returns (open: bool)
      modifies this, db`breakerRow
      ensures open == Blocks(old(State()), now)
      ensures State() == AfterIsOpen(old(State()), now)
      ensures db.breakerRow == if CooledDown(old(State()), now) then Some(State()) else old(db.breakerRow)
    {
      if trippedAt.None? {
        return false;
      }
      var elapsed := now - trippedAt.value;
      if elapsed >= COOLDOWN_SECONDS {
        Reset();
        return false;
      }
      return true;
    }

    method RecordTradeResult(pnlPct: real, now: real)
      modifies this, db`breakerRow
      ensures State() == RecordResult(old(State()), pnlPct, now)
      ensures db.breakerRow == Some(State())
    {
      dailyLossPct := dailyLossPct + pnlPct;
      if pnlPct < 0.0 {
        consecutiveLosses := consecutiveLosses + 1;
      } else {
        consecutiveLosses := 0;
      }
      if dailyLossPct <= -DAILY_LOSS_LIMIT_PCT {
        TripAt(now);
      } else if consecutiveLosses >= CONSECUTIVE_LOSS_LIMIT {
        TripAt(now);
      }
      db.SaveCircuitState(State());
    }

    method ResetDaily(now: real)
      modifies this, db`breakerRow
      ensures State() == AfterDailyReset(old(State()), now)
      ensures db.breakerRow == Some(State())
    {
      dailyLossPct := 0.0;
      if trippedAt.Some? && now - trippedAt.value >= COOLDOWN_SECONDS {
        Reset();
      }
      db.SaveCircuitState(State());
    }

    method Reload()
      modifies this
      ensures State() == db.breakerRow.GetOr(old(State()))
    {
      if db.breakerRow.Some? {
        var b := db.breakerRow.value;
        trippedAt, consecutiveLosses, dailyLossPct := b.trippedAt, b.losses, b.dailyLossPct;
      }
    }
  }

  class SquadOrchestrator {
    const cfg: Config
    const db: TradingDb
    const ledger: TradingLedger
    const breaker: CircuitBreaker
    var openPositions: seq<Position>
    /** Every lot ever opened: history for the conservation theorems. */
    ghost var openings: seq<Position>

    ghost predicate Valid() { breaker.db == db }

    ghost function Snapshot(): Desk
      reads this, db, ledger, breaker
    {
      Desk(openPositions, breaker.State(), db.positions, db.breakerRow, ledger.events, openings)
    }

    constructor (cfg: Config, db: TradingDb, ledger: TradingLedger, ghost openings: seq<Position>)
      ensures Valid() && this.cfg == cfg && this.db == db && this.ledger == ledger && fresh(breaker)
      ensures openPositions == [] && breaker.State() == CLOSED_BREAKER && this.openings == openings
    {
      this.cfg, this.db, this.ledger := cfg, db, ledger;
      this.breaker := new CircuitBreaker(db);
      this.openPositions := [];
      this.openings := openings;
    }

    /** Loop start-up: a new process over the stored tables. */
    static method Boot(cfg: Config, db: TradingDb, ledger: TradingLedger, order: seq<string>, ghost before: Desk)
      returns (o: SquadOrchestrator)
      requires before.table == db.positions && before.row == db.breakerRow && before.events == ledger.events
      requires IsRowOrder(db.positions, order)
      ensures fresh(o) && o.Valid() && o.cfg == cfg && o.db == db && o.ledger == ledger
      ensures o.Snapshot() == Restart(before, order)
    {
      o := new SquadOrchestrator(cfg, db, ledger, before.openings);
      o.ReloadOpenPositions(order);
    }

    method ReloadOpenPositions(order: seq<string>)
      requires Valid()
      modifies this`openPositions, breaker
      ensures openPositions
           == (if Loaded(db.positions, order) == [] then old(openPositions) else Loaded(db.positions, order))
      ensures breaker.State() == db.breakerRow.GetOr(old(breaker.State()))
    {
      var restored := db.LoadAll(order);
      if restored != [] {
        openPositions := restored;
      }
      breaker.Reload();
    }

    /** The single close path: ledger event, book and mirror, breaker. */
    method RecordClose(p: Position, exitPrice: real, exitFee: real, entryFee: real, quantity: real,
                       keepOpen: bool, dropped: Option<real>, cause: Cause, now: real)
      requires Valid()
      modifies this`openPositions, db, ledger, breaker
      ensures Snapshot() == TradingDesk.RecordClose(
                old(Snapshot()), CloseEvent(p, exitPrice, exitFee, entryFee, quantity, dropped, cause), keepOpen, now)
    {
      if !keepOpen {
        openPositions := Remove(openPositions, p.id);
        db.Delete(p.id);
      }
      var e := CloseEvent(p, exitPrice, exitFee, entryFee, quantity, dropped, cause);
      ledger.Append(e);
      breaker.RecordTradeResult(PnlPct(e), now);
    }

    method CheckOpenPositions(price: real, symbol: string, now: real)
      requires Valid()
      modifies this`openPositions, db, ledger, breaker
      ensures Snapshot() == TradingDesk.CheckOpenPositions(old(Snapshot()), symbol, price, now)
    {
      var toClose := Triggered(openPositions, symbol, price);
      ghost var goal := ExitLots(Snapshot(), toClose, price, now);
      var i := 0;
      while i < |toClose|
        invariant i <= |toClose|
        invariant ExitLots(Snapshot(), toClose[i..], price, now) == goal
      {
        var p := toClose[i];
        RecordClose(p, ExitPrice(p, price).GetOr(0.0), 0.0, 0.0, p.quantity, false, None, StopExit, now);
        assert toClose[i..][1..] == toClose[i + 1..];
        i := i + 1;
      }
    }

    /** The FIFO plan, before anything is booked. */
    method PlanFill(candidates: seq<Position>, quantity: real) returns (plan: seq<Match>, remaining: real)
      ensures (plan, remaining) == Plan(candidates, quantity)
    {
      plan, remaining := [], quantity;
      var i := 0;
      while i < |candidates| && remaining > EPS
        invariant i <= |candidates|
        invariant plan + Plan(candidates[i..], remaining).0 == Plan(candidates, quantity).0
        invariant Plan(candidates[i..], remaining).1 == Plan(candidates, quantity).1
      {
        var q := candidates[i].quantity;
        var matched := Min(remaining, q);
        plan := plan + [Match(candidates[i], matched, matched >= q - EPS)];
        remaining := remaining - matched;
        assert candidates[i..][1..] == candidates[i + 1..];
        i := i + 1;
      }
      assert Plan(candidates[i..], remaining) == ([], remaining);
      assert plan + [] == plan;
    }

    method SettleOne(m: Match, fill: Fill, dropped: Option<real>)
      requires Valid()
      modifies this`openPositions, db, ledger, breaker
      ensures Snapshot() == SettleMatch(old(Snapshot()), m, fill, dropped)
      ensures |ledger.events| == old(|ledger.events|) + 1
      ensures var e := ledger.events[old(|ledger.events|)];
        && e.PositionClosed? && e.orderId == m.lot.id && e.symbol == m.lot.symbol && e.side == m.lot.side
        && e.entryPrice == m.lot.entryPrice && e.exitPrice == fill.price && e.cause == Netting
        && e.quantity == (if m.full then m.lot.quantity else m.matched) && e.residualDropped == dropped
    {
      var exitChunk, entryChunk := ExitChunk(m, fill), EntryChunk(m);
      if m.full {
        RecordClose(m.lot, fill.price, exitChunk, entryChunk, m.lot.quantity, false, dropped, Netting, fill.tripTime);
      } else {
        RecordClose(m.lot, fill.price, exitChunk, entryChunk, m.matched, true, dropped, Netting, fill.tripTime);
        openPositions := Put(openPositions, Shrunk(m));
        db.Upsert(Shrunk(m));
      }
    }

    method SettlePlan(plan: seq<Match>, fill: Fill, dropped: Option<real>)
      requires Valid()
      modifies this`openPositions, db, ledger, breaker
      ensures Snapshot() == Settle(old(Snapshot()), plan, fill, dropped)
    {
      ghost var goal := Settle(Snapshot(), plan, fill, dropped);
      var i := 0;
      while i < |plan|
        invariant i <= |plan|
        invariant Settle(Snapshot(), plan[i..], fill, dropped) == goal
      {
        ghost var before := Snapshot();
        var drop := if i == |plan| - 1 then dropped else None;
        SettleOne(plan[i], fill, drop);
        SettleStep(before, plan, i, fill, dropped);
        i := i + 1;
      }
    }

    method MatchOrOpen(fill: Fill)
      requires Valid()
      modifies this, db, ledger, breaker
      ensures Snapshot() == TradingDesk.MatchOrOpen(old(Snapshot()), fill)
    {
      var candidates := Candidates(openPositions, fill);
      var plan, remaining := PlanFill(candidates, fill.quantity);
      var residual := if remaining > EPS then remaining else 0.0;
      var dropped := if fill.side == Sell && residual > EPS then Some(residual) else None;
      SettlePlan(plan, fill, dropped);
      if residual > EPS {
        if fill.side == Buy {
          var p := NewLot(fill, residual);
          openPositions := Put(openPositions, p);
          db.Upsert(p);
          openings := openings + [p];
        } else if plan == [] {
          ledger.Append(SellResidualDropped(fill.orderId, fill.symbol, residual));
        }
      }
    }

    method LogFill(fill: Fill)
      requires Valid()
      modifies this, db, ledger, breaker
      ensures Snapshot() == TradingDesk.LogFill(old(Snapshot()), fill)
    {
      if fill.quantity <= 0.0 || fill.price <= 0.0 {
        return;
      }
      ledger.Append(FillLogged(fill.orderId, fill.symbol, fill.side, fill.price, fill.quantity, fill.fee));
      MatchOrOpen(fill);
    }

    method RealizedPnl() returns (total: real)
      ensures total == SumBy(ledger.events, Pnl)
    {
      total := 0.0;
      var i := 0;
      while i < |ledger.events|
        invariant i <= |ledger.events|
        invariant total == SumBy(ledger.events[..i], Pnl)
      {
        assert ledger.events[..i + 1] == ledger.events[..i] + [ledger.events[i]];
        SumBySnoc(ledger.events[..i], ledger.events[i], Pnl);
        total := total + Pnl(ledger.events[i]);
        i := i + 1;
      }
      assert ledger.events[..i] == ledger.events;
    }

    method AvailableCapital() returns (capital: real)
      ensures capital == TradingDesk.AvailableCapital(Snapshot(), cfg.initialCapital)
    {
      var openNotional := 0.0;
      var i := 0;
      while i < |openPositions|
        invariant i <= |openPositions|
        invariant openNotional == SumBy(openPositions[..i], Notional)
      {
        assert openPositions[..i + 1] == openPositions[..i] + [openPositions[i]];
        SumBySnoc(openPositions[..i], openPositions[i], Notional);
        openNotional := openNotional + Notional(openPositions[i]);
        i := i + 1;
      }
      assert openPositions[..i] == openPositions;
      var realised := RealizedPnl();
      capital := cfg.initialCapital + realised - openNotional;
    }

    /** The gates of the new-order pipeline, in order. */
    method Gates(x: CycleInput) returns (outcome: Outcome)
      ensures outcome == Gate(Snapshot(), cfg, x)
      ensures var inHand := SumBy(Lots(openPositions, x.symbol, if x.action == Sell then Buy else Sell), Quantity);
        outcome.Traded? <==>
          && !x.paused && x.confidence >= 0.6 && x.humanApproves
          && x.riskApproves(cfg.initialCapital + SumBy(ledger.events, Pnl) - SumBy(openPositions, Notional))
          && (inHand > EPS || (x.action == Buy && |openPositions| < cfg.maxConcurrent))
    {
      if x.paused {
        return Paused;
      }
      if x.confidence < 0.6 {
        return LowConfidence;
      }
      var available := AvailableCapital();
      if !x.riskApproves(available) {
        return RiskRejected;
      }
      var isClosing := SumBy(Lots(openPositions, x.symbol, Opposite(x.action)), Quantity) > EPS;
      if x.action == Sell && !isClosing {
        return NoInventory;
      }
      if |openPositions| >= cfg.maxConcurrent && !isClosing {
        return NoSlot;
      }
      if !x.humanApproves {
        return HumanRejected;
      }
      return Traded(x.execution.success);
    }

    method ReadBreakerOpen(now: real) returns (open: bool)
      requires Valid()
      modifies breaker, db`breakerRow
      ensures open == Blocks(old(Snapshot()).breaker, now)
      ensures Snapshot() == ReadBreaker(old(Snapshot()), now)
    {
      open := breaker.IsOpen(now);
    }

    method AnalyzeAndTrade(x: CycleInput) returns (outcome: Outcome)
      requires Valid()
      modifies this, db, ledger, breaker
      ensures (Snapshot(), outcome) == Cycle(old(Snapshot()), cfg, x)
    {
      var open := ReadBreakerOpen(x.startTime);
      if open {
        return Blocked;
      }
      if x.stub && !x.allowStub {
        return StubData;
      }
      if x.entryPrice > 0.0 {
        CheckOpenPositions(x.entryPrice, x.symbol, x.tripTime);
      }
      outcome := Gates(x);
      if outcome == Traded(true) {
        LogFill(FillOf(cfg, x));
      }
    }
  }
}
