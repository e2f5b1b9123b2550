/** Safety and cash over whole runs: cycles, daily resets and restarts in any order. */
module DeskRuns {
  import opened Lists
  import opened TradingDesk
  import opened DeskInvariants
  import opened DeskCycle
  import opened DeskRestart
  import opened DeskCollisions

  /** The reachable-state invariant of a desk that started empty. */
  ghost predicate Safe(d: Desk, cfg: Config) {
    && Healthy(d) && Long(d)
    && |d.book| <= cfg.maxConcurrent
    && d.breaker.losses <= 2 + cfg.maxConcurrent
  }

  lemma {:induction false} StepSafe(d: Desk, cfg: Config, s: Step)
    requires Safe(d, cfg) && Possible(d, s)
    ensures Safe(Next(d, cfg, s), cfg)
  {
    match s
    case CycleStep(x) =>
      var closes := CycleKeeps(d, cfg, x);
    case DailyResetStep(now) =>
    case RestartStep(order) =>
      RestartRestores(d, order, 0.0);
  }

  /** In every state of every run from an empty desk: distinct keys, every lot above EPS,
      long-only, at most `maxConcurrent` lots, the table and the breaker row in step with
      memory, an untripped breaker below its limit, and a tripped one at most
      (limit - 1) + `maxConcurrent`. */
  lemma {:induction false} RunSafe(d: Desk, cfg: Config, steps: seq<Step>)
    requires Safe(d, cfg) && PossibleRun(d, cfg, steps)
    ensures Safe(Run(d, cfg, steps), cfg)
    decreases steps
  {
    if steps != [] {
      StepSafe(d, cfg, steps[0]);
      RunSafe(Next(d, cfg, steps[0]), cfg, steps[1..]);
    }
  }

  lemma {:induction false} EmptyDeskSafe(cfg: Config)
    ensures Safe(EMPTY_DESK, cfg) && Basis(EMPTY_DESK) == 0.0
  {
  }

  lemma {:induction false} EmptyRunSafe(cfg: Config, steps: seq<Step>)
    requires PossibleRun(EMPTY_DESK, cfg, steps)
    ensures Safe(Run(EMPTY_DESK, cfg, steps), cfg)
  {
    EmptyDeskSafe(cfg);
    RunSafe(EMPTY_DESK, cfg, steps);
  }

  ghost predicate CyclesBefore(steps: seq<Step>, deadline: real) {
    forall i :: 0 <= i < |steps| ==> steps[i].CycleStep? && steps[i].input.startTime < deadline
  }

  /** A tripped breaker freezes the whole desk: any number of cycles started inside the
      cooldown change nothing at all. */
  lemma {:induction false} CooldownFreezes(d: Desk, cfg: Config, steps: seq<Step>)
    requires d.breaker.trippedAt.Some? && PossibleRun(d, cfg, steps)
    requires CyclesBefore(steps, d.breaker.trippedAt.value + 86400.0)
    ensures Run(d, cfg, steps) == d
    decreases steps
  {
    if steps != [] {
      assert Blocks(d.breaker, steps[0].input.startTime);
      assert forall i :: 0 <= i < |steps[1..]| ==> steps[1..][i] == steps[i + 1];
      CooldownFreezes(d, cfg, steps[1..]);
    }
  }

  // --------------------------------------------------------------------- cash

  /** Every fill of the run comes under an order id that no open lot carries. */
  ghost predicate FreshRun(d: Desk, cfg: Config, steps: seq<Step>)
    requires PossibleRun(d, cfg, steps)
    decreases steps
  {
    steps == [] ||
    (&& (steps[0].CycleStep? ==> steps[0].input.execution.orderId !in Ids(d.book))
     && FreshRun(Next(d, cfg, steps[0]), cfg, steps[1..]))
  }

  /** No cycle of the run executes a fill that collides. */
  ghost predicate NeverCollides(d: Desk, cfg: Config, steps: seq<Step>)
    requires PossibleRun(d, cfg, steps)
    decreases steps
  {
    steps == [] ||
    (&& (steps[0].CycleStep? ==> !CycleCollides(d, cfg, steps[0].input))
     && NeverCollides(Next(d, cfg, steps[0]), cfg, steps[1..]))
  }

  lemma {:induction false} RestartPriced(d: Desk, order: seq<string>)
    requires Healthy(d) && Priced(d.book) && IsRowOrder(d.table, order)
    ensures Priced(Restart(d, order).book)
  {
    RestartRestores(d, order, 0.0);
    PermutedPriced(d.book, Restart(d, order).book);
  }

  lemma {:induction false} PermutedPriced(book: seq<Position>, b2: seq<Position>)
    requires Priced(book) && multiset(b2) == multiset(ZeroFees(book))
    ensures Priced(b2)
  {
    forall i | 0 <= i < |b2| ensures b2[i].entryPrice > 0.0 {
      assert b2[i] in multiset(ZeroFees(book));
      var j :| 0 <= j < |book| && ZeroFees(book)[j] == b2[i];
    }
  }

  ghost predicate Sound(d: Desk) { Healthy(d) && Long(d) && Priced(d.book) }

  lemma {:induction false} StepBasisIff(d: Desk, cfg: Config, s: Step)
    requires Sound(d) && Possible(d, s)
    ensures Sound(Next(d, cfg, s)) && Basis(Next(d, cfg, s)) <= Basis(d)
    ensures Basis(Next(d, cfg, s)) == Basis(d) <==> (s.CycleStep? ==> !CycleCollides(d, cfg, s.input))
  {
    match s
    case CycleStep(x) =>
      var closes := CycleKeeps(d, cfg, x);
      CycleBasisIff(d, cfg, x);
    case DailyResetStep(now) =>
    case RestartStep(order) =>
      RestartRestores(d, order, 0.0);
      RestartPriced(d, order);
  }

  /** Over any history the basis is conserved if and only if no fill collides: a loss is never
      made good later. */
  lemma {:induction false} RunBasisIff(d: Desk, cfg: Config, steps: seq<Step>)
    requires Sound(d) && PossibleRun(d, cfg, steps)
    ensures Sound(Run(d, cfg, steps)) && Basis(Run(d, cfg, steps)) <= Basis(d)
    ensures Basis(Run(d, cfg, steps)) == Basis(d) <==> NeverCollides(d, cfg, steps)
    decreases steps
  {
    if steps != [] {
      StepBasisIff(d, cfg, steps[0]);
      RunBasisIff(Next(d, cfg, steps[0]), cfg, steps[1..]);
    }
  }

  lemma {:induction false} FreshNeverCollide(d: Desk, cfg: Config, steps: seq<Step>)
    requires Sound(d) && PossibleRun(d, cfg, steps) && FreshRun(d, cfg, steps)
    ensures NeverCollides(d, cfg, steps)
    decreases steps
  {
    if steps != [] {
      if steps[0].CycleStep? {
        FreshNeverCollides(d, cfg, steps[0].input);
      }
      StepBasisIff(d, cfg, steps[0]);
      FreshNeverCollide(Next(d, cfg, steps[0]), cfg, steps[1..]);
    }
  }

  lemma {:induction false} LongPnl(e: Event)
    requires e.PositionClosed? ==> e.side == Buy
    ensures Pnl(e) == Proceeds(e) - ClosedBasis(e) - FeesBooked(e)
  {
  }

  lemma {:induction false} LongRealized(events: seq<Event>)
    requires LongHistory(events)
    ensures SumBy(events, Pnl)
         == SumBy(events, Proceeds) - SumBy(events, ClosedBasis) - SumBy(events, FeesBooked)
  {
    if events != [] {
      LongPnl(events[0]);
      LongRealized(events[1..]);
    }
  }

  /** The available capital is the initial capital, less what was paid to open lots, plus what
      closes brought in, less the fees booked. */
  ghost predicate CashAddsUp(d: Desk, cfg: Config) {
    AvailableCapital(d, cfg.initialCapital)
    == cfg.initialCapital - SumBy(d.openings, Notional) + SumBy(d.events, Proceeds) - SumBy(d.events, FeesBooked)
  }

  /** Cash over whole runs, with any mix of partial closes, stop exits and restarts: it adds up
      if and only if no fill was ever opened under the id of a lot it did not net. */
  lemma {:induction false} CashIdentityIff(cfg: Config, steps: seq<Step>)
    requires PossibleRun(EMPTY_DESK, cfg, steps)
    ensures CashAddsUp(Run(EMPTY_DESK, cfg, steps), cfg) <==> NeverCollides(EMPTY_DESK, cfg, steps)
  {
    EmptyDeskSafe(cfg);
    RunBasisIff(EMPTY_DESK, cfg, steps);
    LongRealized(Run(EMPTY_DESK, cfg, steps).events);
  }

  /** In particular it adds up whenever no fill reuses the id of an open lot. */
  lemma {:induction false} CashIdentity(cfg: Config, steps: seq<Step>)
    requires PossibleRun(EMPTY_DESK, cfg, steps) && FreshRun(EMPTY_DESK, cfg, steps)
    ensures CashAddsUp(Run(EMPTY_DESK, cfg, steps), cfg)
  {
    FreshNeverCollide(EMPTY_DESK, cfg, steps);
    CashIdentityIff(cfg, steps);
  }

  const SMALL := Config(1000.0, 5)

  /** A BUY of ten units at 10, under the id an execution without one is given. */
  const UNNAMED := CycleInput("BTC/USDT", 0.0, 0.0, 0.0, false, false, false, 10.0, Buy, 10.0, None, None, 0.7,
                              (c: real) => true, true, Execution(true, "UNKNOWN", None, 0.0))

  lemma {:induction false} FirstFill()
    ensures Cycle(EMPTY_DESK, SMALL, UNNAMED).1 == Traded(true)
    ensures Cycle(EMPTY_DESK, SMALL, UNNAMED).0.breaker == CLOSED_BREAKER
    ensures Cycle(EMPTY_DESK, SMALL, UNNAMED).0.book
         == [Position("UNKNOWN", "BTC/USDT", Buy, 10.0, 10.0, None, None, 0.0, 0.0)]
  {
    var fill := FillOf(SMALL, UNNAMED);
    assert fill.quantity == 10.0;
    assert Managed(EMPTY_DESK, UNNAMED) == EMPTY_DESK;
    assert Candidates([], fill) == [];
  }

  /** Two executions without an order id, and the cash no longer adds up. */
  lemma {:induction false} UnnamedFillsLoseCash()
    ensures var steps := [CycleStep(UNNAMED), CycleStep(UNNAMED)];
      PossibleRun(EMPTY_DESK, SMALL, steps) && !CashAddsUp(Run(EMPTY_DESK, SMALL, steps), SMALL)
  {
    var steps := [CycleStep(UNNAMED), CycleStep(UNNAMED)];
    FirstFill();
    var d := Next(EMPTY_DESK, SMALL, steps[0]);
    assert steps[1..] == [CycleStep(UNNAMED)] && steps[1..][1..] == [];
    SecondFill(d);
    CashIdentityIff(SMALL, steps);
  }

  lemma {:induction false} SecondFill(d: Desk)
    requires d.breaker == CLOSED_BREAKER
    requires d.book == [Position("UNKNOWN", "BTC/USDT", Buy, 10.0, 10.0, None, None, 0.0, 0.0)]
    ensures CycleCollides(d, SMALL, UNNAMED)
  {
    var fill := FillOf(SMALL, UNNAMED);
    assert fill.quantity == 10.0;
    FilterOne(d.book[0], Hit(UNNAMED.symbol, UNNAMED.entryPrice));
    FilterOne(d.book[0], IsLot(fill.symbol, Opposite(fill.side)));
    assert Triggered(d.book, UNNAMED.symbol, UNNAMED.entryPrice) == [];
    assert Managed(d, UNNAMED) == d;
    assert Lots(d.book, fill.symbol, Opposite(fill.side)) == [];
    assert d.book[0].id == fill.orderId && Bystander(d.book[0], fill);
  }
}
