/** When a cycle trades, in terms of what it was given and the desk it met, and what its fill is. */
module DeskGates {
  import opened Lists
  import opened TradingDesk
  import opened DeskInvariants
  import opened DeskCycle
  import opened DeskRestart
  import opened DeskBreaker
  import opened DeskLedger

  // ------------------------------------------------------ the desk after exits

  function Leaves(x: CycleInput): Position -> bool {
    (p: Position) => x.entryPrice > 0.0 && p.symbol == x.symbol && (AtStop(p, x.entryPrice) || AtTarget(p, x.entryPrice))
  }

  function Stays(x: CycleInput): Position -> bool { (p: Position) => !Leaves(x)(p) }

  /** The lots still held when the gates are reached. */
  function Remaining(d: Desk, x: CycleInput): seq<Position> { Filter(d.book, Stays(x)) }

  /** What a lot's exit realises: the move from entry to level, for a long or against it for a short. */
  function Gain(x: CycleInput): Position -> real {
    (p: Position) =>
      if !Leaves(x)(p) then 0.0
      else if p.side == Buy then (LevelOf(p, x.entryPrice) - p.entryPrice) * p.quantity
      else (p.entryPrice - LevelOf(p, x.entryPrice)) * p.quantity
  }

  /** The capital the risk agent is shown: the base, plus what was realised before and by this
      cycle's exits, less the notional of the lots still open. */
  function CapitalShown(d: Desk, cfg: Config, x: CycleInput): real {
    cfg.initialCapital + SumBy(d.events, Pnl) + SumBy(Filter(d.book, Leaves(x)), Gain(x))
    - SumBy(Remaining(d, x), Notional)
  }

  /** A lot an order of this cycle would close. */
  function Closable(x: CycleInput): Position -> bool {
    (p: Position) => p.symbol == x.symbol && p.side != x.action
  }

  /** The quantity on the other side that is still open after the exits. */
  function InHand(d: Desk, x: CycleInput): real {
    SumBy(Filter(Remaining(d, x), Closable(x)), Quantity)
  }

  lemma {:induction false} HitLeaves(p: Position, x: CycleInput)
    requires x.entryPrice > 0.0
    ensures Hit(x.symbol, x.entryPrice)(p) == Leaves(x)(p)
  {
    ExitAtLevel(p, x.entryPrice);
    assert ExitPrice(p, x.entryPrice).Some? <==> AtStop(p, x.entryPrice) || AtTarget(p, x.entryPrice);
  }

  lemma {:induction false} RemainingIs(d: Desk, x: CycleInput)
    requires Healthy(d)
    ensures Managed(d, x).book == Remaining(d, x)
  {
    if x.entryPrice > 0.0 {
      ExitsRemoveTriggered(d, x.symbol, x.entryPrice, x.tripTime);
      forall p ensures Not(Hit(x.symbol, x.entryPrice))(p) == Stays(x)(p) {
        HitLeaves(p, x);
      }
      FilterSame(d.book, Not(Hit(x.symbol, x.entryPrice)), Stays(x));
    } else {
      AllStay(d.book, x);
    }
  }

  lemma {:induction false} AllStay(book: seq<Position>, x: CycleInput)
    requires x.entryPrice <= 0.0
    ensures Filter(book, Stays(x)) == book && Filter(book, Leaves(x)) == []
  {
    if book != [] {
      AllStay(book[1..], x);
    }
  }

  lemma {:induction false} GainOf(e: Event, p: Position, x: CycleInput)
    requires x.entryPrice > 0.0 && LeavesAt(e, p, x.entryPrice) && p.symbol == x.symbol
    ensures Pnl(e) == Gain(x)(p)
  {
    var up, down := LevelOf(p, x.entryPrice) - p.entryPrice, p.entryPrice - LevelOf(p, x.entryPrice);
    assert Leaves(x)(p);
    if p.side == Buy {
      assert 1.0 * up * p.quantity == up * p.quantity;
    } else {
      assert -1.0 * up * p.quantity == down * p.quantity;
    }
  }

  lemma {:induction false} ExitGains(more: seq<Event>, lots: seq<Position>, x: CycleInput)
    requires x.entryPrice > 0.0 && LeaveAt(more, lots, x.entryPrice)
    requires forall i :: 0 <= i < |lots| ==> lots[i].symbol == x.symbol
    ensures SumBy(more, Pnl) == SumBy(lots, Gain(x))
  {
    if more != [] {
      assert LeavesAt(more[0], lots[0], x.entryPrice);
      GainOf(more[0], lots[0], x);
      assert LeaveAt(more[1..], lots[1..], x.entryPrice);
      ExitGains(more[1..], lots[1..], x);
    }
  }

  lemma {:induction false} ExitsGain(d: Desk, x: CycleInput)
    ensures SumBy(Managed(d, x).events, Pnl) == SumBy(d.events, Pnl) + SumBy(Filter(d.book, Leaves(x)), Gain(x))
  {
    if x.entryPrice > 0.0 {
      var more := ExitCloses(d, x.symbol, x.entryPrice, x.tripTime);
      var lots := Filter(d.book, Reached(x.symbol, x.entryPrice));
      FilterSame(d.book, Reached(x.symbol, x.entryPrice), Leaves(x));
      forall i | 0 <= i < |lots| ensures lots[i].symbol == x.symbol {
        FilterMember(d.book, Reached(x.symbol, x.entryPrice), lots[i]);
      }
      ExitGains(more, lots, x);
      SumByConcat(d.events, more, Pnl);
    } else {
      AllStay(d.book, x);
    }
  }

  lemma {:induction false} ShownIs(d: Desk, cfg: Config, x: CycleInput)
    requires Healthy(d)
    ensures AvailableCapital(Managed(d, x), cfg.initialCapital) == CapitalShown(d, cfg, x)
  {
    RemainingIs(d, x);
    ExitsGain(d, x);
  }

  lemma {:induction false} InHandIs(d: Desk, x: CycleInput)
    requires Healthy(d)
    ensures IsClosing(Managed(d, x), x) <==> InHand(d, x) > EPS
  {
    RemainingIs(d, x);
    FilterSame(Remaining(d, x), IsLot(x.symbol, Opposite(x.action)), Closable(x));
  }

  // ------------------------------------------------------------------ the gates

  /** No trip less than a day old, and data that may be traded on. */
  predicate Operates(d: Desk, x: CycleInput) {
    (d.breaker.trippedAt.Some? ==> x.startTime - d.breaker.trippedAt.value >= 86400.0) && (x.stub ==> x.allowStub)
  }

  /** Something to close, or a purchase with a slot to put it in. */
  predicate HasRoom(d: Desk, cfg: Config, x: CycleInput) {
    InHand(d, x) > EPS || (x.action == Buy && |Remaining(d, x)| < cfg.maxConcurrent)
  }

  lemma {:induction false} OperatesIs(d: Desk, cfg: Config, x: CycleInput)
    ensures Operates(d, x) <==> !Blocks(d.breaker, x.startTime) && !(x.stub && !x.allowStub)
    ensures !Operates(d, x) ==>
      Cycle(d, cfg, x).1 == if x.stub && !x.allowStub && !Blocks(d.breaker, x.startTime) then StubData else Blocked
    ensures Operates(d, x) ==> Cycle(d, cfg, x).1 == Gate(Managed(ReadBreaker(d, x.startTime), x), cfg, x)
  {
  }

  /** What the gates see does not depend on whether the breaker was just reset. */
  lemma {:induction false} ReadyKeeps(d: Desk, x: CycleInput)
    requires Healthy(d) && Operates(d, x)
    ensures Healthy(ReadBreaker(d, x.startTime))
    ensures ReadBreaker(d, x.startTime).book == d.book && ReadBreaker(d, x.startTime).events == d.events
  {
    ReadBreakerKeeps(d, x.startTime);
  }

  /** Exactly when a cycle reaches execution. */
  lemma {:induction false} TradesIff(d: Desk, cfg: Config, x: CycleInput)
    requires Healthy(d)
    ensures Cycle(d, cfg, x).1.Traded? <==>
      && Operates(d, x) && !x.paused && x.confidence >= 0.6 && x.riskApproves(CapitalShown(d, cfg, x))
      && HasRoom(d, cfg, x) && x.humanApproves
    ensures Cycle(d, cfg, x).1.Traded? ==> Cycle(d, cfg, x).1.success == x.execution.success
  {
    OperatesIs(d, cfg, x);
    if Operates(d, x) {
      ReadyKeeps(d, x);
      var ready := ReadBreaker(d, x.startTime);
      RemainingIs(ready, x);
      ShownIs(ready, cfg, x);
      InHandIs(ready, x);
      assert Remaining(ready, x) == Remaining(d, x) && CapitalShown(ready, cfg, x) == CapitalShown(d, cfg, x);
    }
  }

  /** A cycle that does not trade says which gate stopped it: the first that fails. */
  lemma {:induction false} RefusalIff(d: Desk, cfg: Config, x: CycleInput)
    requires Healthy(d)
    ensures var outcome := Cycle(d, cfg, x).1;
      var sure := Operates(d, x) && !x.paused && x.confidence >= 0.6;
      var sound := sure && x.riskApproves(CapitalShown(d, cfg, x));
      && (outcome == Blocked <==> d.breaker.trippedAt.Some? && x.startTime - d.breaker.trippedAt.value < 86400.0)
      && (outcome == StubData <==> outcome != Blocked && x.stub && !x.allowStub)
      && (outcome == Paused <==> Operates(d, x) && x.paused)
      && (outcome == LowConfidence <==> Operates(d, x) && !x.paused && x.confidence < 0.6)
      && (outcome == RiskRejected <==> sure && !x.riskApproves(CapitalShown(d, cfg, x)))
      && (outcome == NoInventory <==> sound && x.action == Sell && InHand(d, x) <= EPS)
      && (outcome == NoSlot <==> sound && x.action == Buy && !HasRoom(d, cfg, x))
      && (outcome == HumanRejected <==> sound && HasRoom(d, cfg, x) && !x.humanApproves)
  {
    OperatesIs(d, cfg, x);
    if Operates(d, x) {
      ReadyKeeps(d, x);
      var ready := ReadBreaker(d, x.startTime);
      RemainingIs(ready, x);
      ShownIs(ready, cfg, x);
      InHandIs(ready, x);
      assert Remaining(ready, x) == Remaining(d, x) && CapitalShown(ready, cfg, x) == CapitalShown(d, cfg, x);
    }
  }

  // ------------------------------------------------------------------ the fills

  /** Every gate open, a successful execution at some price, and a signal that can be sized. */
  predicate Executes(d: Desk, cfg: Config, x: CycleInput) {
    && Operates(d, x) && !x.paused && x.confidence >= 0.6 && x.riskApproves(CapitalShown(d, cfg, x))
    && HasRoom(d, cfg, x) && x.humanApproves && x.execution.success
    && x.entryPrice > 0.0 && x.sizePct > 0.0 && cfg.initialCapital > 0.0
    && (x.execution.executedPrice.Some? ==> x.execution.executedPrice.value >= 0.0)
  }

  /** The fill of a cycle: its order, symbol and side, the executed price where there is one, and
      the quantity that spends `sizePct` percent of the capital at the signal's price. */
  ghost predicate IsFillOf(e: Event, cfg: Config, x: CycleInput) {
    && e.FillLogged? && e.orderId == x.execution.orderId && e.symbol == x.symbol && e.side == x.action
    && e.fee == x.execution.fee
    && e.price == (if x.execution.executedPrice.GetOr(0.0) == 0.0 then x.entryPrice else x.execution.executedPrice.value)
    && e.quantity * x.entryPrice == cfg.initialCapital * (x.sizePct / 100.0)
  }

  function IsFill(): Event -> bool { (e: Event) => e.FillLogged? }

  lemma {:induction false} NoFills(es: seq<Event>)
    requires forall i :: 0 <= i < |es| ==> !es[i].FillLogged?
    ensures Filter(es, IsFill()) == []
  {
    if es != [] {
      NoFills(es[1..]);
    }
  }

  lemma {:induction false} MoreFills(es: seq<Event>, more: seq<Event>)
    requires forall i :: 0 <= i < |more| ==> !more[i].FillLogged?
    ensures Filter(es + more, IsFill()) == Filter(es, IsFill())
  {
    NoFills(more);
    FilterConcat(es, more, IsFill());
  }

  lemma {:induction false} ExitsNoFill(d: Desk, x: CycleInput)
    ensures Filter(Managed(d, x).events, IsFill()) == Filter(d.events, IsFill())
  {
    if x.entryPrice > 0.0 {
      var more := ExitCloses(d, x.symbol, x.entryPrice, x.tripTime);
      var lots := Filter(d.book, Reached(x.symbol, x.entryPrice));
      forall i | 0 <= i < |more| ensures !more[i].FillLogged? {
        assert LeavesAt(more[i], lots[i], x.entryPrice);
      }
      MoreFills(d.events, more);
    }
  }

  lemma {:induction false} Spends(cfg: Config, x: CycleInput)
    requires x.entryPrice > 0.0 && x.sizePct > 0.0
    ensures var q := FillOf(cfg, x).quantity;
      q * x.entryPrice == cfg.initialCapital * (x.sizePct / 100.0) && (q > 0.0 <==> cfg.initialCapital > 0.0)
  {
    var q := FillOf(cfg, x).quantity;
    var spent := cfg.initialCapital * x.sizePct / 100.0;
    assert q == spent / x.entryPrice && q * x.entryPrice == spent;
    NonNegativeFactor(q, x.entryPrice);
    NonNegativeFactor(cfg.initialCapital, x.sizePct);
  }

  lemma {:induction false} LogFillLogs(d: Desk, fill: Fill)
    requires Healthy(d)
    ensures Filter(LogFill(d, fill).events, IsFill()) == Filter(d.events, IsFill())
      + (if fill.quantity > 0.0 && fill.price > 0.0
         then [FillLogged(fill.orderId, fill.symbol, fill.side, fill.price, fill.quantity, fill.fee)] else [])
  {
    if fill.quantity > 0.0 && fill.price > 0.0 {
      var e := FillLogged(fill.orderId, fill.symbol, fill.side, fill.price, fill.quantity, fill.fee);
      var logged := d.(events := d.events + [e]);
      LogOnly(d, e);
      var m, more := FifoCloses(logged, fill);
      QueueNoFill(more, Candidates(d.book, fill), fill, m);
      MoreFills(logged.events, more);
      FilterConcat(d.events, [e], IsFill());
      FilterOne(e, IsFill());
    }
  }

  lemma {:induction false} FillIs(cfg: Config, x: CycleInput)
    ensures var f := FillOf(cfg, x);
      f.quantity > 0.0 && f.price > 0.0 <==>
        && x.entryPrice > 0.0 && x.sizePct > 0.0 && cfg.initialCapital > 0.0
        && (x.execution.executedPrice.Some? ==> x.execution.executedPrice.value >= 0.0)
    ensures var f := FillOf(cfg, x);
      f.quantity > 0.0 ==>
        IsFillOf(FillLogged(f.orderId, f.symbol, f.side, f.price, f.quantity, f.fee), cfg, x)
  {
    if x.entryPrice > 0.0 && x.sizePct > 0.0 {
      Spends(cfg, x);
    }
  }

  lemma {:induction false} ExecutesIs(d: Desk, cfg: Config, x: CycleInput)
    requires Healthy(d)
    ensures Executes(d, cfg, x) <==>
      Cycle(d, cfg, x).1 == Traded(true) && FillOf(cfg, x).quantity > 0.0 && FillOf(cfg, x).price > 0.0
    ensures Executes(d, cfg, x) ==> var f := FillOf(cfg, x);
      IsFillOf(FillLogged(f.orderId, f.symbol, f.side, f.price, f.quantity, f.fee), cfg, x)
  {
    TradesIff(d, cfg, x);
    FillIs(cfg, x);
  }

  /** A cycle logs one fill when it executes, and none otherwise. */
  lemma {:induction false} CycleLogs(d: Desk, cfg: Config, x: CycleInput) returns (fills: seq<Event>)
    requires Healthy(d)
    ensures Filter(Cycle(d, cfg, x).0.events, IsFill()) == Filter(d.events, IsFill()) + fills
    ensures if Executes(d, cfg, x) then |fills| == 1 && IsFillOf(fills[0], cfg, x) else fills == []
  {
    var f := FillOf(cfg, x);
    var e := FillLogged(f.orderId, f.symbol, f.side, f.price, f.quantity, f.fee);
    ExecutesIs(d, cfg, x);
    fills := if Executes(d, cfg, x) then [e] else [];
    if Operates(d, x) {
      ReadyKeeps(d, x);
      var ready := ReadBreaker(d, x.startTime);
      var managed := Managed(ready, x);
      var n := ManagedKeeps(ready, x);
      ExitsNoFill(ready, x);
      if Cycle(d, cfg, x).1 == Traded(true) {
        LogFillLogs(managed, f);
      }
    }
  }

  /** The fills of a history, one per cycle that executes, in order. */
  ghost predicate FillsOf(fills: seq<Event>, d: Desk, cfg: Config, steps: seq<Step>)
    requires PossibleRun(d, cfg, steps)
    decreases steps
  {
    if steps == [] then fills == []
    else if steps[0].CycleStep? && Executes(d, cfg, steps[0].input) then
      fills != [] && IsFillOf(fills[0], cfg, steps[0].input) && FillsOf(fills[1..], Next(d, cfg, steps[0]), cfg, steps[1..])
    else FillsOf(fills, Next(d, cfg, steps[0]), cfg, steps[1..])
  }

  lemma {:induction false} QuietStep(d: Desk, cfg: Config, s: Step)
    requires Healthy(d) && Possible(d, s) && !s.CycleStep?
    ensures Healthy(Next(d, cfg, s)) && Next(d, cfg, s).events == d.events
  {
    if s.RestartStep? {
      RestartRestores(d, s.order, 0.0);
    }
  }

  lemma {:induction false} StepLogs(d: Desk, cfg: Config, s: Step) returns (fills: seq<Event>)
    requires Healthy(d) && Possible(d, s)
    ensures Healthy(Next(d, cfg, s))
    ensures Filter(Next(d, cfg, s).events, IsFill()) == Filter(d.events, IsFill()) + fills
    ensures if s.CycleStep? && Executes(d, cfg, s.input) then |fills| == 1 && IsFillOf(fills[0], cfg, s.input) else fills == []
  {
    fills := [];
    if s.CycleStep? {
      var n := CycleKeeps(d, cfg, s.input);
      fills := CycleLogs(d, cfg, s.input);
    } else {
      QuietStep(d, cfg, s);
    }
  }

  /** Over every history the fills in the ledger are exactly those of the cycles that passed every
      gate, each with the price and the quantity its execution and its signal give. */
  lemma {:induction false} RunLogs(d: Desk, cfg: Config, steps: seq<Step>) returns (fills: seq<Event>)
    requires Healthy(d) && PossibleRun(d, cfg, steps)
    ensures Filter(Run(d, cfg, steps).events, IsFill()) == Filter(d.events, IsFill()) + fills
    ensures FillsOf(fills, d, cfg, steps)
    decreases steps
  {
    fills := [];
    if steps != [] {
      var first := StepLogs(d, cfg, steps[0]);
      var rest := RunLogs(Next(d, cfg, steps[0]), cfg, steps[1..]);
      fills := first + rest;
      SeqAssoc(Filter(d.events, IsFill()), first, rest);
      assert first == [] ==> fills == rest;
      assert first != [] ==> fills[1..] == rest;
    }
  }

  // ------------------------------------------------------------- the lots opened

  /** The lot a cycle opens: the part of its fill that nothing in hand could take, at the fill's
      price, with the signal's own stop and target. */
  ghost predicate IsLotOf(p: Position, d: Desk, cfg: Config, x: CycleInput) {
    && p.id == x.execution.orderId && p.symbol == x.symbol && p.side == Buy
    && p.stopLoss == x.stopLoss && p.takeProfit == x.takeProfit && p.openedAt == x.openTime
    && p.entryPrice == (if x.execution.executedPrice.GetOr(0.0) == 0.0 then x.entryPrice else x.execution.executedPrice.value)
    && (p.quantity + InHand(d, x)) * x.entryPrice == cfg.initialCapital * (x.sizePct / 100.0)
    && p.quantity > EPS
  }

  lemma {:induction false} QueueTotal(book: seq<Position>, fill: Fill, m: nat)
    requires Meets(Candidates(book, fill), fill.quantity, m) && LeftAfter(Candidates(book, fill), fill.quantity, m) > EPS
    ensures LeftAfter(Candidates(book, fill), fill.quantity, m)
         == fill.quantity - SumBy(Filter(book, Against(fill)), Quantity)
  {
    var queue := Candidates(book, fill);
    QueueIsFifo(book, fill);
    SumByPermute(queue, Filter(book, Against(fill)), Quantity);
    assert queue[..m] == queue;
  }

  lemma {:induction false} LeftShrinks(lots: seq<Position>, quantity: real, m: nat)
    requires m <= |lots| && forall i :: 0 <= i < |lots| ==> lots[i].quantity > 0.0
    ensures quantity - SumBy(lots, Quantity) <= LeftAfter(lots, quantity, m)
  {
    assert lots == lots[..m] + lots[m..];
    SumByConcat(lots[..m], lots[m..], Quantity);
    SumNonNegative(lots[m..], Quantity);
  }

  lemma {:induction false} QueueUsedUp(book: seq<Position>, fill: Fill, m: nat)
    requires Keyed(book) && Sized(book)
    requires Meets(Candidates(book, fill), fill.quantity, m) && LeftAfter(Candidates(book, fill), fill.quantity, m) <= EPS
    ensures fill.quantity - SumBy(Filter(book, Against(fill)), Quantity) <= EPS
  {
    var queue := Candidates(book, fill);
    CandidatesGood(book, fill);
    QueueIsFifo(book, fill);
    SumByPermute(queue, Filter(book, Against(fill)), Quantity);
    LeftShrinks(queue, fill.quantity, m);
  }

  lemma {:induction false} AddedIs(book: seq<Position>, fill: Fill, m: nat, added: seq<Position>, left: real)
    requires Keyed(book) && Sized(book) && fill.quantity > 0.0
    requires Meets(Candidates(book, fill), fill.quantity, m)
    requires OpensLeft(added, fill, LeftAfter(Candidates(book, fill), fill.quantity, m))
    requires left == fill.quantity - SumBy(Filter(book, Against(fill)), Quantity)
    ensures OpensLeft(added, fill, left)
  {
    if LeftAfter(Candidates(book, fill), fill.quantity, m) > EPS {
      QueueTotal(book, fill, m);
    } else {
      QueueUsedUp(book, fill, m);
    }
  }

  /** What a fill opens, in terms of what it can net in total. */
  lemma {:induction false} FillOpensIff(d: Desk, fill: Fill, left: real) returns (added: seq<Position>)
    requires Healthy(d) && fill.quantity > 0.0
    requires left == fill.quantity - SumBy(Filter(d.book, Against(fill)), Quantity)
    ensures MatchOrOpen(d, fill).openings == d.openings + added
    ensures OpensLeft(added, fill, left)
  {
    var m;
    m, added := FillOpens(d, fill);
    AddedIs(d.book, fill, m, added, left);
  }

  lemma {:induction false} HandLeft(cfg: Config, x: CycleInput, hand: real, left: real)
    requires x.entryPrice > 0.0 && x.sizePct > 0.0 && left == FillOf(cfg, x).quantity - hand
    ensures (left + hand) * x.entryPrice == cfg.initialCapital * (x.sizePct / 100.0)
  {
    Spends(cfg, x);
    assert left + hand == FillOf(cfg, x).quantity;
  }

  lemma {:induction false} LogFillOpens(d: Desk, fill: Fill, left: real) returns (added: seq<Position>)
    requires Healthy(d) && fill.quantity > 0.0 && fill.price > 0.0
    requires left == fill.quantity - SumBy(Filter(d.book, Against(fill)), Quantity)
    ensures LogFill(d, fill).openings == d.openings + added
    ensures OpensLeft(added, fill, left)
  {
    var e := FillLogged(fill.orderId, fill.symbol, fill.side, fill.price, fill.quantity, fill.fee);
    var logged := d.(events := d.events + [e]);
    LogOnly(d, e);
    added := FillOpensIff(logged, fill, left);
  }

  lemma {:induction false} LotIs(added: seq<Position>, cfg: Config, x: CycleInput, d: Desk, left: real)
    requires x.entryPrice > 0.0 && x.sizePct > 0.0 && FillOf(cfg, x).quantity > 0.0
    requires left == FillOf(cfg, x).quantity - InHand(d, x) && OpensLeft(added, FillOf(cfg, x), left)
    ensures |added| <= 1 && forall p <- added :: IsLotOf(p, d, cfg, x)
    ensures added != [] <==> x.action == Buy && left > EPS
  {
    if added != [] {
      HandLeft(cfg, x, InHand(d, x), added[0].quantity);
      assert IsLotOf(added[0], d, cfg, x);
    }
  }

  lemma {:induction false} ExecutedOpens(managed: Desk, cfg: Config, x: CycleInput, left: real) returns (added: seq<Position>)
    requires Healthy(managed) && FillOf(cfg, x).quantity > 0.0 && FillOf(cfg, x).price > 0.0
    requires left == FillOf(cfg, x).quantity - SumBy(Filter(managed.book, Closable(x)), Quantity)
    ensures LogFill(managed, FillOf(cfg, x)).openings == managed.openings + added
    ensures OpensLeft(added, FillOf(cfg, x), left)
  {
    FilterSame(managed.book, Against(FillOf(cfg, x)), Closable(x));
    added := LogFillOpens(managed, FillOf(cfg, x), left);
  }

  /** What a cycle opens: one lot, with the signal's stop and target, when it executes a purchase
      of more than everything in hand on the other side, and nothing otherwise. */
  lemma {:induction false} CycleOpens(d: Desk, cfg: Config, x: CycleInput) returns (added: seq<Position>)
    requires Healthy(d)
    ensures Cycle(d, cfg, x).0.openings == d.openings + added
    ensures |added| <= 1 && forall p <- added :: IsLotOf(p, d, cfg, x)
    ensures added != [] <==> Executes(d, cfg, x) && x.action == Buy && FillOf(cfg, x).quantity - InHand(d, x) > EPS
  {
    ExecutesIs(d, cfg, x);
    added := [];
    if Operates(d, x) {
      ReadyKeeps(d, x);
      var ready := ReadBreaker(d, x.startTime);
      var managed := Managed(ready, x);
      var n := ManagedKeeps(ready, x);
      RemainingIs(ready, x);
      assert Remaining(ready, x) == Remaining(d, x);
      if Executes(d, cfg, x) {
        var left := FillOf(cfg, x).quantity - InHand(d, x);
        added := ExecutedOpens(managed, cfg, x, left);
        LotIs(added, cfg, x, d, left);
      }
    }
  }

  // ------------------------------------------------------------ the whole cycle

  /** `fill` is the fill that event `e` logs. */
  ghost predicate Logs(e: Event, fill: Fill) {
    e == FillLogged(fill.orderId, fill.symbol, fill.side, fill.price, fill.quantity, fill.fee)
  }

  /** What an execution writes: the fill, and then the closes of the lots it nets. */
  ghost predicate TradeRecords(rest: seq<Event>, book: seq<Position>, fill: Fill, cfg: Config, x: CycleInput) {
    && rest != [] && Logs(rest[0], fill) && IsFillOf(rest[0], cfg, x)
    && exists m :: BooksQueue(rest[1..], Candidates(book, fill), fill, m)
  }

  lemma {:induction false} LogFillRecords(d: Desk, cfg: Config, x: CycleInput) returns (rest: seq<Event>)
    requires Healthy(d) && FillOf(cfg, x).quantity > 0.0 && FillOf(cfg, x).price > 0.0
    ensures LogFill(d, FillOf(cfg, x)).events == d.events + rest
    ensures TradeRecords(rest, d.book, FillOf(cfg, x), cfg, x)
  {
    var f := FillOf(cfg, x);
    var e := FillLogged(f.orderId, f.symbol, f.side, f.price, f.quantity, f.fee);
    var logged := d.(events := d.events + [e]);
    LogOnly(d, e);
    FillIs(cfg, x);
    var m, more := FifoCloses(logged, f);
    SeqAssoc(d.events, [e], more);
    rest := [e] + more;
    assert rest[1..] == more;
  }

  lemma {:induction false} ExitRecords(d: Desk, x: CycleInput) returns (exits: seq<Event>)
    ensures Managed(d, x).events == d.events + exits && LeaveAt(exits, Filter(d.book, Leaves(x)), x.entryPrice)
    ensures Managed(d, x).openings == d.openings
  {
    exits := [];
    if x.entryPrice > 0.0 {
      exits := ExitCloses(d, x.symbol, x.entryPrice, x.tripTime);
      FilterSame(d.book, Reached(x.symbol, x.entryPrice), Leaves(x));
    } else {
      AllStay(d.book, x);
    }
  }

  /** A cycle that does not operate writes nothing and leaves every lot alone: no stop fires while
      the breaker blocks, nor on data that may not be traded on. Nothing at all changes unless there is
      a trip a day old to be cleared. */
  lemma {:induction false} IdleCycle(d: Desk, cfg: Config, x: CycleInput)
    requires !Operates(d, x)
    ensures var d2 := Cycle(d, cfg, x).0;
      && d2.book == d.book && d2.table == d.table && d2.events == d.events && d2.openings == d.openings
      && (d.breaker.trippedAt.None? || x.startTime - d.breaker.trippedAt.value < 86400.0 ==> d2 == d)
  {
  }

  /** Everything one cycle writes, in order: the closes of the lots whose level its price reached,
      refused or not, and then, only when it executes, its fill and the closes of the lots that fill
      nets out of those that remain. */
  lemma {:induction false} CycleRecords(d: Desk, cfg: Config, x: CycleInput) returns (exits: seq<Event>, rest: seq<Event>)
    requires Healthy(d) && Operates(d, x)
    ensures Cycle(d, cfg, x).0.events == d.events + exits + rest
    ensures LeaveAt(exits, Filter(d.book, Leaves(x)), x.entryPrice)
    ensures if Executes(d, cfg, x) then TradeRecords(rest, Remaining(d, x), FillOf(cfg, x), cfg, x) else rest == []
    ensures !Executes(d, cfg, x) ==> Cycle(d, cfg, x).0.book == Remaining(d, x)
  {
    ExecutesIs(d, cfg, x);
    OperatesIs(d, cfg, x);
    ReadyKeeps(d, x);
    var ready := ReadBreaker(d, x.startTime);
    var managed := Managed(ready, x);
    var n := ManagedKeeps(ready, x);
    RemainingIs(ready, x);
    exits := ExitRecords(ready, x);
    rest := [];
    if Executes(d, cfg, x) {
      rest := LogFillRecords(managed, cfg, x);
    } else {
      NoTrade(managed, cfg, x, Cycle(d, cfg, x).1);
    }
    assert managed.events + [] == managed.events;
  }

  lemma {:induction false} NoTrade(d: Desk, cfg: Config, x: CycleInput, outcome: Outcome)
    requires !(outcome == Traded(true) && FillOf(cfg, x).quantity > 0.0 && FillOf(cfg, x).price > 0.0)
    ensures outcome == Traded(true) ==> LogFill(d, FillOf(cfg, x)) == d
  {
  }
}
