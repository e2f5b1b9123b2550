/** What one fill does with its own fee, and why a SELL never reaches the ledger unnetted. */
module DeskFills {
  import opened Lists
  import opened TradingDesk
  import opened DeskInvariants
  import opened DeskCycle

  function ExitFee(e: Event): real { if e.PositionClosed? then e.exitFee else 0.0 }
  function EntryFee(p: Position): real { p.entryFee }

  // ------------------------------------------------------------- the fill's fee

  lemma {:induction false} ChunkSum(fee: real, a: real, b: real, whole: real)
    requires whole != 0.0
    ensures fee * Share(a, whole) + fee * Share(b, whole) == fee * Share(a + b, whole)
  {
  }

  lemma {:induction false} PlanExitFees(plan: seq<Match>, fill: Fill, dropped: Option<real>)
    requires fill.quantity != 0.0
    ensures SumBy(PlanEvents(plan, fill, dropped), ExitFee) == fill.fee * Share(SumBy(plan, Matched), fill.quantity)
  {
    if plan == [] {
      assert fill.fee * Share(0.0, fill.quantity) == 0.0;
    } else {
      PlanExitFees(plan[1..], fill, dropped);
      var e := MatchEvent(plan[0], fill, if |plan| == 1 then dropped else None);
      assert PlanEvents(plan, fill, dropped)[1..] == PlanEvents(plan[1..], fill, dropped);
      ChunkSum(fill.fee, plan[0].matched, SumBy(plan[1..], Matched), fill.quantity);
    }
  }

  /** The part of the fill's quantity that neither closed nor opened anything. */
  function Unused(fill: Fill, left: real): real {
    if left > EPS && fill.side == Buy then 0.0 else left
  }

  lemma {:induction false} ResidueFee(fill: Fill, left: real)
    ensures SumBy(Residue(fill, left), EntryFee)
         == if left > EPS && fill.side == Buy then fill.fee * Share(left, fill.quantity) else 0.0
  {
  }

  lemma {:induction false} SplitWhole(fee: real, netted: real, left: real, q: real)
    requires q != 0.0 && netted + left == q
    ensures fee * Share(netted, q) + fee * Share(left, q) == fee && fee * Share(0.0, q) == 0.0
  {
    ChunkSum(fee, netted, left, q);
    assert q / q == 1.0;
  }

  /** Exit fees of the closes plus the entry fee of the new lot: the whole fee, less the share
      of the unused quantity. */
  ghost predicate FeeKept(fill: Fill, plan: seq<Match>, left: real)
    requires fill.quantity != 0.0
  {
    SumBy(PlanEvents(plan, fill, Dropped(fill, left)), ExitFee) + SumBy(Residue(fill, left), EntryFee)
    == fill.fee - fill.fee * Share(Unused(fill, left), fill.quantity)
  }

  lemma {:induction false} FeeSplit(plan: seq<Match>, left: real, fill: Fill)
    requires fill.quantity != 0.0 && SumBy(plan, Matched) + left == fill.quantity
    ensures FeeKept(fill, plan, left)
  {
    PlanExitFees(plan, fill, Dropped(fill, left));
    ResidueFee(fill, left);
    assert Unused(fill, left) == if left > EPS && fill.side == Buy then 0.0 else left;
    SplitWhole(fill.fee, SumBy(plan, Matched), left, fill.quantity);
  }

  lemma {:induction false} PlanTotal(book: seq<Position>, fill: Fill)
    requires Keyed(book) && Sized(book)
    ensures var (plan, left) := Plan(Candidates(book, fill), fill.quantity);
      SumBy(plan, Matched) + left == fill.quantity
  {
    CandidatesGood(book, fill);
    PlanShape(Candidates(book, fill), fill.quantity);
  }

  /** The fee of a fill is split without loss between the closes it books and the lot it opens
      (`PlanEvents` and `Residue`, see `FifoEvents` and `FifoBook`): together they carry the
      whole fee, less the share of the quantity that did nothing, which is at most EPS of dust
      or a SELL residue that was dropped. */
  lemma {:induction false} FillFeeSplit(book: seq<Position>, fill: Fill)
    requires Keyed(book) && Sized(book) && fill.quantity > 0.0
    ensures var (plan, left) := Plan(Candidates(book, fill), fill.quantity); FeeKept(fill, plan, left)
  {
    var (plan, left) := Plan(Candidates(book, fill), fill.quantity);
    PlanTotal(book, fill);
    FeeSplit(plan, left, fill);
  }

  // ------------------------------------------------------------- no naked sell

  ghost predicate NoneDropped(events: seq<Event>) {
    forall e <- events :: !e.SellResidualDropped?
  }

  lemma {:induction false} ExitsDropNone(d: Desk, lots: seq<Position>, price: real, now: real)
    requires NoneDropped(d.events)
    ensures NoneDropped(ExitLots(d, lots, price, now).events)
    decreases lots
  {
    if lots != [] {
      ExitsDropNone(ExitLot(d, lots[0], price, now), lots[1..], price, now);
    }
  }

  lemma {:induction false} PlanDropsNone(plan: seq<Match>, fill: Fill, dropped: Option<real>)
    ensures NoneDropped(PlanEvents(plan, fill, dropped))
  {
    if plan != [] {
      PlanDropsNone(plan[1..], fill, dropped);
    }
  }

  lemma {:induction false} FillDropsNone(d: Desk, fill: Fill)
    requires NoneDropped(d.events)
    requires fill.side == Sell ==> Lots(d.book, fill.symbol, Opposite(fill.side)) != []
    ensures NoneDropped(LogFill(d, fill).events)
  {
    if fill.quantity > 0.0 && fill.price > 0.0 {
      var logged := d.(events := d.events + [FillLogged(fill.orderId, fill.symbol, fill.side, fill.price,
                                                        fill.quantity, fill.fee)]);
      var (plan, left) := Plan(Candidates(d.book, fill), fill.quantity);
      FifoEvents(logged, fill);
      PlanDropsNone(plan, fill, Dropped(fill, left));
      assert fill.side == Sell && plan == [] ==> left <= EPS;
    }
  }

  lemma {:induction false} StepDropsNone(d: Desk, cfg: Config, s: Step)
    requires Possible(d, s) && NoneDropped(d.events)
    ensures NoneDropped(Next(d, cfg, s).events)
  {
    if s.CycleStep? && !Blocks(d.breaker, s.input.startTime) {
      var x := s.input;
      var ready := ReadBreaker(d, x.startTime);
      ExitsDropNone(ready, Triggered(ready.book, x.symbol, x.entryPrice), x.entryPrice, x.tripTime);
      var managed := Managed(ready, x);
      if Gate(managed, cfg, x) == Traded(true) {
        FillDropsNone(managed, FillOf(cfg, x));
      }
    }
  }

  /** The gate keeps its promise over whole runs: no SELL ever meets an empty side, so the
      no-inventory audit record is never written. */
  lemma {:induction false} NeverNakedSell(d: Desk, cfg: Config, steps: seq<Step>)
    requires PossibleRun(d, cfg, steps) && NoneDropped(d.events)
    ensures NoneDropped(Run(d, cfg, steps).events)
    decreases steps
  {
    if steps != [] {
      StepDropsNone(d, cfg, steps[0]);
      NeverNakedSell(Next(d, cfg, steps[0]), cfg, steps[1..]);
    }
  }
}
