/** What the breaker's three fields mean: the streak and the total of the closes it was fed,
    tripped by the first close that reached a limit, and fed exactly once by every close. */
module DeskBreaker {
  import opened Lists
  import opened TradingDesk
  import opened DeskInvariants
  import opened DeskCycle
  import opened DeskRestart

  datatype Result = Result(pct: real, at: real)

  function Pct(r: Result): real { r.pct }

  /** The breaker after a series of closes. */
  function Feed(b: Breaker, results: seq<Result>): Breaker
    decreases results
  {
    if results == [] then b
    else
      var n := |results| - 1;
      RecordResult(Feed(b, results[..n]), results[n].pct, results[n].at)
  }

  /** The last `n` results are losses, and the one before them, if any, is not. */
  ghost predicate EndsInLosses(results: seq<Result>, n: nat) {
    && n <= |results|
    && (forall i :: |results| - n <= i < |results| ==> results[i].pct < 0.0)
    && (n < |results| ==> results[|results| - 1 - n].pct >= 0.0)
  }

  lemma {:induction false} FeedTotal(b: Breaker, results: seq<Result>)
    ensures Feed(b, results).dailyLossPct == b.dailyLossPct + SumBy(results, Pct)
    decreases results
  {
    if results != [] {
      var last := |results| - 1;
      FeedTotal(b, results[..last]);
      SumBySnoc(results[..last], results[last], Pct);
      assert results == results[..last] + [results[last]];
    }
  }

  lemma {:induction false} FeedStreak(b: Breaker, results: seq<Result>) returns (n: nat)
    ensures EndsInLosses(results, n)
    ensures Feed(b, results).losses == if n == |results| then b.losses + n else n
    decreases results
  {
    n := 0;
    if results != [] {
      var last := |results| - 1;
      var m := FeedStreak(b, results[..last]);
      if results[last].pct < 0.0 {
        n := m + 1;
      }
    }
  }

  /** The loss counter is the length of the closing run of losses, and the percentage is the
      plain total: a trip does not stop either count. */
  lemma {:induction false} FeedCounts(b: Breaker, results: seq<Result>) returns (n: nat)
    ensures EndsInLosses(results, n)
    ensures Feed(b, results).losses == if n == |results| then b.losses + n else n
    ensures Feed(b, results).dailyLossPct == b.dailyLossPct + SumBy(results, Pct)
  {
    n := FeedStreak(b, results);
    FeedTotal(b, results);
  }

  /** The first `k` results reach one of the two limits. */
  ghost predicate Reaches(b: Breaker, results: seq<Result>, k: nat)
    requires k <= |results|
  {
    var f := Feed(b, results[..k]);
    f.dailyLossPct <= -4.0 || f.losses >= 3
  }

  /** The result that trips a closed breaker: the first one to reach a limit. */
  ghost predicate TripsAt(b: Breaker, results: seq<Result>, k: nat) {
    && 0 < k <= |results| && Reaches(b, results, k)
    && forall j :: 0 < j < k ==> !Reaches(b, results, j)
  }

  lemma {:induction false} ReachesPrefix(b: Breaker, results: seq<Result>, m: nat, k: nat)
    requires k <= m <= |results|
    ensures Reaches(b, results[..m], k) == Reaches(b, results, k)
  {
    assert results[..m][..k] == results[..k];
  }

  /** A closed breaker is tripped by a series of closes exactly when some close reaches a limit,
      and it keeps the time of the first that did, whatever is closed after it. */
  lemma {:induction false} FeedTrips(b: Breaker, results: seq<Result>)
    requires b.trippedAt.None?
    ensures Feed(b, results).trippedAt.Some? <==> exists k :: 0 < k <= |results| && Reaches(b, results, k)
    ensures forall k: nat :: TripsAt(b, results, k) ==> Feed(b, results).trippedAt == Some(results[k - 1].at)
    decreases results
  {
    if results != [] {
      var n := |results|;
      var before := results[..n - 1];
      FeedTrips(b, before);
      assert results[..n] == results;
      forall k | 0 <= k < n ensures Reaches(b, before, k) == Reaches(b, results, k) {
        ReachesPrefix(b, results, n - 1, k);
      }
      if Feed(b, before).trippedAt.Some? {
        var k :| 0 < k <= n - 1 && Reaches(b, before, k);
        assert Reaches(b, results, k);
      }
      assert Reaches(b, results, n) ==> Feed(b, results).trippedAt.Some?;
      forall k: nat | TripsAt(b, results, k) ensures Feed(b, results).trippedAt == Some(results[k - 1].at) {
        if k < n {
          assert TripsAt(b, before, k);
        }
      }
    }
  }

  // ------------------------------------------------------- fed once per close

  /** What one ledger event feeds to the breaker. */
  function ResultOf(e: Event, at: real): seq<Result> {
    if e.PositionClosed? then [Result(PnlPct(e), at)] else []
  }

  /** The results of the closes among some ledger events. */
  function Results(events: seq<Event>, at: real): seq<Result> {
    if events == [] then [] else ResultOf(events[0], at) + Results(events[1..], at)
  }

  lemma {:induction false} ResultsConcat(a: seq<Event>, b: seq<Event>, at: real)
    ensures Results(a + b, at) == Results(a, at) + Results(b, at)
  {
    if a == [] {
      assert a + b == b;
    } else {
      ResultsConcat(a[1..], b, at);
      assert (a + b)[0] == a[0] && (a + b)[1..] == a[1..] + b;
      SeqAssoc(ResultOf(a[0], at), Results(a[1..], at), Results(b, at));
    }
  }

  lemma {:induction false} FeedConcat(b: Breaker, xs: seq<Result>, ys: seq<Result>)
    ensures Feed(b, xs + ys) == Feed(Feed(b, xs), ys)
    decreases ys
  {
    if ys == [] {
      assert xs + ys == xs;
    } else {
      var n := |ys| - 1;
      FeedConcat(b, xs, ys[..n]);
      assert (xs + ys)[..|xs + ys| - 1] == xs + ys[..n];
    }
  }

  /** `added` was appended to the ledger and the breaker was fed exactly its closes. */
  ghost predicate FedBy(d: Desk, d2: Desk, added: seq<Event>, at: real) {
    d2.events == d.events + added && d2.breaker == Feed(d.breaker, Results(added, at))
  }

  lemma {:induction false} FedThenFed(d: Desk, d1: Desk, d2: Desk, a: seq<Event>, b: seq<Event>, at: real)
    requires FedBy(d, d1, a, at) && FedBy(d1, d2, b, at)
    ensures FedBy(d, d2, a + b, at)
  {
    SeqAssoc(d.events, a, b);
    ResultsConcat(a, b, at);
    FeedConcat(d.breaker, Results(a, at), Results(b, at));
  }

  lemma {:induction false} FedByClose(d: Desk, e: Event, keepOpen: bool, at: real)
    requires e.PositionClosed?
    ensures FedBy(d, RecordClose(d, e, keepOpen, at), [e], at)
  {
  }

  lemma {:induction false} FedByNothing(d: Desk, d2: Desk, e: Event, at: real)
    requires !e.PositionClosed? && d2.events == d.events + [e] && d2.breaker == d.breaker
    ensures FedBy(d, d2, [e], at)
  {
  }

  lemma {:induction false} FedByExits(d: Desk, lots: seq<Position>, price: real, at: real) returns (added: seq<Event>)
    ensures FedBy(d, ExitLots(d, lots, price, at), added, at)
    decreases lots
  {
    added := [];
    if lots != [] {
      var e := CloseEvent(lots[0], ExitPrice(lots[0], price).GetOr(0.0), 0.0, 0.0, lots[0].quantity, None, StopExit);
      FedByClose(d, e, false, at);
      var d1 := ExitLot(d, lots[0], price, at);
      var rest := FedByExits(d1, lots[1..], price, at);
      FedThenFed(d, d1, ExitLots(d1, lots[1..], price, at), [e], rest, at);
      added := [e] + rest;
    }
  }

  lemma {:induction false} FedBySettle(d: Desk, plan: seq<Match>, fill: Fill, dropped: Option<real>)
    returns (added: seq<Event>)
    ensures FedBy(d, Settle(d, plan, fill, dropped), added, fill.tripTime)
    decreases plan
  {
    added := [];
    if plan != [] {
      var drop := if |plan| == 1 then dropped else None;
      var e := MatchEvent(plan[0], fill, drop);
      FedByClose(d, e, !plan[0].full, fill.tripTime);
      var d1 := SettleMatch(d, plan[0], fill, drop);
      var rest := FedBySettle(d1, plan[1..], fill, dropped);
      FedThenFed(d, d1, Settle(d1, plan[1..], fill, dropped), [e], rest, fill.tripTime);
      added := [e] + rest;
    }
  }

  lemma {:induction false} FedByFill(d: Desk, fill: Fill) returns (added: seq<Event>)
    ensures FedBy(d, LogFill(d, fill), added, fill.tripTime)
  {
    added := [];
    if fill.quantity > 0.0 && fill.price > 0.0 {
      var at := fill.tripTime;
      var e := FillLogged(fill.orderId, fill.symbol, fill.side, fill.price, fill.quantity, fill.fee);
      var d1 := d.(events := d.events + [e]);
      FedByNothing(d, d1, e, at);
      var (plan, left) := Plan(Candidates(d1.book, fill), fill.quantity);
      var d2 := Settle(d1, plan, fill, Dropped(fill, left));
      var closes := FedBySettle(d1, plan, fill, Dropped(fill, left));
      FedThenFed(d, d1, d2, [e], closes, at);
      added := [e] + closes;
      var d3 := OpenResidue(d2, fill, Residual(left), plan == []);
      if d3.events != d2.events {
        var audit := SellResidualDropped(fill.orderId, fill.symbol, Residual(left));
        FedByNothing(d2, d3, audit, at);
        FedThenFed(d, d2, d3, added, [audit], at);
        added := added + [audit];
      }
    }
  }

  /** Whatever a cycle books, by a stop, a target or netting, the breaker it leaves is the one
      it read, fed exactly the closes it appended to the ledger, each once and in order. */
  lemma {:induction false} CycleFeedsOnce(d: Desk, cfg: Config, x: CycleInput) returns (added: seq<Event>)
    ensures var d2 := Cycle(d, cfg, x).0;
      && d2.events == d.events + added
      && d2.breaker == Feed(AfterIsOpen(d.breaker, x.startTime), Results(added, x.tripTime))
  {
    added := [];
    var ready := ReadBreaker(d, x.startTime);
    if !Blocks(d.breaker, x.startTime) && !(x.stub && !x.allowStub) {
      if x.entryPrice > 0.0 {
        added := FedByExits(ready, Triggered(ready.book, x.symbol, x.entryPrice), x.entryPrice, x.tripTime);
      }
      var managed := Managed(ready, x);
      if Gate(managed, cfg, x) == Traded(true) {
        var rest := FedByFill(managed, FillOf(cfg, x));
        FedThenFed(ready, managed, LogFill(managed, FillOf(cfg, x)), added, rest, x.tripTime);
        added := added + rest;
      }
    }
  }

  // ------------------------------------------------------ the running total

  function ClosePct(e: Event): real { if e.PositionClosed? then PnlPct(e) else 0.0 }

  lemma {:induction false} SumByOne(results: seq<Result>)
    requires |results| <= 1
    ensures SumBy(results, Pct) == if results == [] then 0.0 else results[0].pct
  {
  }

  lemma {:induction false} ResultsTotal(events: seq<Event>, at: real)
    ensures SumBy(Results(events, at), Pct) == SumBy(events, ClosePct)
  {
    if events != [] {
      ResultsTotal(events[1..], at);
      SumByConcat(ResultOf(events[0], at), Results(events[1..], at), Pct);
      SumByOne(ResultOf(events[0], at));
    }
  }

  /** The part of the daily percentage that no close in the ledger accounts for. */
  function Unaccounted(d: Desk): real { d.breaker.dailyLossPct - SumBy(d.events, ClosePct) }

  ghost predicate NeverReset(steps: seq<Step>) {
    forall i :: 0 <= i < |steps| ==> !steps[i].DailyResetStep?
  }

  lemma {:induction false} CycleTotal(d: Desk, cfg: Config, x: CycleInput)
    ensures Unaccounted(Cycle(d, cfg, x).0) == Unaccounted(d)
  {
    var added := CycleFeedsOnce(d, cfg, x);
    var n := FeedCounts(AfterIsOpen(d.breaker, x.startTime), Results(added, x.tripTime));
    ResultsTotal(added, x.tripTime);
    SumByConcat(d.events, added, ClosePct);
  }

  lemma {:induction false} StepTotal(d: Desk, cfg: Config, s: Step)
    requires Healthy(d) && Possible(d, s) && !s.DailyResetStep?
    ensures Healthy(Next(d, cfg, s)) && Unaccounted(Next(d, cfg, s)) == Unaccounted(d)
  {
    if s.CycleStep? {
      CycleTotal(d, cfg, s.input);
      var n := CycleKeeps(d, cfg, s.input);
    } else {
      RestartRestores(d, s.order, 0.0);
    }
  }

  /** Without a daily reset the "daily" percentage is the total over every close ever booked:
      neither a trip, nor a cooldown that ran out, nor a restart takes anything off it. */
  lemma {:induction false} TotalNeverFades(d: Desk, cfg: Config, steps: seq<Step>)
    requires Healthy(d) && PossibleRun(d, cfg, steps) && NeverReset(steps)
    ensures Unaccounted(Run(d, cfg, steps)) == Unaccounted(d)
    decreases steps
  {
    if steps != [] {
      StepTotal(d, cfg, steps[0]);
      assert forall i :: 0 <= i < |steps[1..]| ==> steps[1..][i] == steps[i + 1];
      TotalNeverFades(Next(d, cfg, steps[0]), cfg, steps[1..]);
    }
  }

  /** A daily reset clears the percentage, and a trip with its streak when it is a day old, and
      nothing else. */
  lemma {:induction false} DailyResetClears(d: Desk, now: real)
    ensures var lifted := d.breaker.trippedAt.Some? && now - d.breaker.trippedAt.value >= 86400.0;
      var b := Breaker(if lifted then None else d.breaker.trippedAt, if lifted then 0 else d.breaker.losses, 0.0);
      DailyReset(d, now) == Desk(d.book, b, d.table, Some(b), d.events, d.openings)
  {
  }

  /** After a daily reset the percentage is the total over the closes booked since. */
  lemma {:induction false} TotalSinceReset(d: Desk, cfg: Config, now: real, steps: seq<Step>)
    requires Healthy(d) && PossibleRun(DailyReset(d, now), cfg, steps) && NeverReset(steps)
    ensures var end := Run(DailyReset(d, now), cfg, steps);
      end.breaker.dailyLossPct == SumBy(end.events, ClosePct) - SumBy(d.events, ClosePct)
  {
    TotalNeverFades(DailyReset(d, now), cfg, steps);
  }

  /** So a cooldown does not give a fresh start: once it has run out, the next close, won or
      lost, trips the breaker again exactly when the old total plus its own is still at the limit. */
  lemma {:induction false} RetripsIff(b: Breaker, now: real, pct: real, at: real)
    requires CooledDown(b, now)
    ensures RecordResult(AfterIsOpen(b, now), pct, at).trippedAt
         == if b.dailyLossPct + pct <= -4.0 then Some(at) else None
  {
  }

  /** A winning close that trips it: the day's 5% loss was never cleared. */
  lemma {:induction false} WinningCloseTrips()
    ensures var tripped := RecordResult(CLOSED_BREAKER, -5.0, 0.0);
      && CooledDown(tripped, 86400.0)
      && RecordResult(AfterIsOpen(tripped, 86400.0), 0.5, 86400.0).trippedAt == Some(86400.0)
  {
  }

  // ------------------------------------------------------------- stop and TP

  /** The price has come to the level or gone past it, on the losing or on the winning side. */
  predicate AtStop(p: Position, price: real) {
    p.stopLoss.Some? && Direction(p.side) * (price - p.stopLoss.value) <= 0.0
  }

  predicate AtTarget(p: Position, price: real) {
    p.takeProfit.Some? && Direction(p.side) * (price - p.takeProfit.value) >= 0.0
  }

  /** A lot leaves at its stop whenever the stop is reached, at its target when only the target
      is, and otherwise stays; it never leaves at the market price. */
  lemma {:induction false} ExitAtLevel(p: Position, price: real)
    ensures ExitPrice(p, price)
         == if AtStop(p, price) then p.stopLoss else if AtTarget(p, price) then p.takeProfit else None
  {
  }
}
