/** One fill and one cycle: FIFO netting is exact, the book stays bounded, and the
    number of closes a cycle can feed to the breaker is the size of the book it met. */
module DeskCycle {
  import opened Lists
  import opened TradingDesk
  import opened DeskInvariants

  // ------------------------------------------------------------- one fill

  lemma {:induction false} CandidatesGood(book: seq<Position>, fill: Fill)
    requires Keyed(book) && Sized(book)
    ensures var cands := Candidates(book, fill);
      && Drawn(cands, book)
      && (forall i :: 0 <= i < |cands| ==>
            cands[i].quantity > EPS && cands[i].symbol == fill.symbol && cands[i].side == Opposite(fill.side))
  {
    var lots := Lots(book, fill.symbol, Opposite(fill.side));
    var cands := Candidates(book, fill);
    FilterDrawn(book, IsLot(fill.symbol, Opposite(fill.side)));
    DrawnPermutes(lots, cands, book);
    forall i | 0 <= i < |cands|
      ensures cands[i].quantity > EPS && cands[i].symbol == fill.symbol && cands[i].side == Opposite(fill.side)
    {
      assert cands[i] in multiset(lots);
      FilterMember(book, IsLot(fill.symbol, Opposite(fill.side)), cands[i]);
    }
  }

  lemma {:induction false} PlanGood(book: seq<Position>, fill: Fill)
    requires Keyed(book) && Sized(book)
    ensures GoodPlan(Plan(Candidates(book, fill), fill.quantity).0, book)
  {
    var cands := Candidates(book, fill);
    var plan := Plan(cands, fill.quantity).0;
    CandidatesGood(book, fill);
    PlanShape(cands, fill.quantity);
    forall i | 0 <= i < |plan| ensures PlanLots(plan)[i] in book {
      assert PlanLots(plan)[i] == cands[i];
    }
  }

  /** The events a plan books, in plan order; only the last carries a dropped residue. */
  function PlanEvents(plan: seq<Match>, fill: Fill, dropped: Option<real>): seq<Event> {
    if plan == [] then []
    else [MatchEvent(plan[0], fill, if |plan| == 1 then dropped else None)] + PlanEvents(plan[1..], fill, dropped)
  }

  lemma {:induction false} SettleMatchEvents(d: Desk, m: Match, fill: Fill, dropped: Option<real>)
    ensures SettleMatch(d, m, fill, dropped).events == d.events + [MatchEvent(m, fill, dropped)]
  {
  }

  lemma {:induction false} SettleEvents(d: Desk, plan: seq<Match>, fill: Fill, dropped: Option<real>)
    ensures Settle(d, plan, fill, dropped).events == d.events + PlanEvents(plan, fill, dropped)
    decreases plan
  {
    if plan != [] {
      var drop := if |plan| == 1 then dropped else None;
      var d1 := SettleMatch(d, plan[0], fill, drop);
      SettleMatchEvents(d, plan[0], fill, drop);
      SettleEvents(d1, plan[1..], fill, dropped);
      SeqAssoc(d.events, [MatchEvent(plan[0], fill, drop)], PlanEvents(plan[1..], fill, dropped));
    }
  }

  lemma {:induction false} NettedIds(book: seq<Position>, plan: seq<Match>)
    ensures forall p <- NettedBook(book, plan) :: p.id in Ids(book)
  {
    if book != [] {
      NettedIds(book[1..], plan);
      NettedLotId(book[0], plan);
      assert book[0].id in Ids(book);
      forall id | id in Ids(book[1..]) ensures id in Ids(book) {
        var k :| 0 <= k < |book[1..]| && book[1..][k].id == id;
        assert book[k + 1].id == id;
      }
    }
  }

  lemma {:induction false} NettedLotId(p: Position, plan: seq<Match>)
    ensures |NettedLot(p, plan)| <= 1 && forall q <- NettedLot(p, plan) :: q.id == p.id
  {
    if plan != [] {
      NettedLotId(p, plan[1..]);
    }
  }

  lemma {:induction false} IdsKept(book: seq<Position>, plan: seq<Match>)
    ensures Ids(NettedBook(book, plan)) <= Ids(book)
  {
    NettedIds(book, plan);
    forall id | id in Ids(NettedBook(book, plan)) ensures id in Ids(book) {
      var b := NettedBook(book, plan);
      var k :| 0 <= k < |b| && b[k].id == id;
      assert b[k] in b;
    }
  }

  lemma {:induction false} PutFresh(book: seq<Position>, p: Position)
    requires p.id !in Ids(book)
    ensures Put(book, p) == book + [p]
  {
  }

  function Residue(fill: Fill, left: real): seq<Position> {
    if left > EPS && fill.side == Buy then [NewLot(fill, Residual(left))] else []
  }

  /** The FIFO plan against any book of positive lots and any positive fill: it takes a prefix
      of the opposite lots in `openedAt` order, all but the last in full, and the quantity it
      closes plus the residue is the fill quantity up to EPS. */
  lemma {:induction false} FifoPlan(book: seq<Position>, fill: Fill)
    requires Keyed(book) && Sized(book) && fill.quantity > 0.0
    ensures var cands := Candidates(book, fill);
      var (plan, left) := Plan(cands, fill.quantity);
      && SortedBy(cands, OpenedAt)
      && multiset(cands) == multiset(Lots(book, fill.symbol, Opposite(fill.side)))
      && |plan| <= |cands| && PlanLots(plan) == cands[..|plan|]
      && (plan != [] ==> AllExact(plan[..|plan| - 1]))
      && (left > EPS ==> |plan| == |cands| && AllExact(plan))
      && -EPS <= SumBy(plan, ClosedQuantity) + Residual(left) - fill.quantity <= EPS
  {
    var cands := Candidates(book, fill);
    CandidatesGood(book, fill);
    PlanShape(cands, fill.quantity);
    NettingExact(cands, fill.quantity);
    assert PlanLots(Plan(cands, fill.quantity).0) == cands[..|Plan(cands, fill.quantity).0|];
  }

  lemma {:induction false} ResidueBook(d: Desk, fill: Fill, left: real, nothingNetted: bool)
    requires fill.orderId !in Ids(d.book)
    ensures OpenResidue(d, fill, Residual(left), nothingNetted).book == d.book + Residue(fill, left)
  {
  }

  /** What a fill does to the book: each lot as its match says, then the BUY residue at the end. */
  lemma {:induction false} FifoBook(d: Desk, fill: Fill)
    requires Healthy(d) && fill.orderId !in Ids(d.book)
    ensures var (plan, left) := Plan(Candidates(d.book, fill), fill.quantity);
      MatchOrOpen(d, fill).book == NettedBook(d.book, plan) + Residue(fill, left)
  {
    var (plan, left) := Plan(Candidates(d.book, fill), fill.quantity);
    var settled := Settle(d, plan, fill, Dropped(fill, left));
    PlanGood(d.book, fill);
    SettleKeeps(d, plan, fill, Dropped(fill, left));
    IdsKept(d.book, plan);
    ResidueBook(settled, fill, left, plan == []);
  }

  /** What a fill appends to the ledger: one close per match, in FIFO order, and nothing else
      but the audit of a SELL that met no lot. */
  lemma {:induction false} FifoEvents(d: Desk, fill: Fill)
    ensures var (plan, left) := Plan(Candidates(d.book, fill), fill.quantity);
      MatchOrOpen(d, fill).events == d.events + PlanEvents(plan, fill, Dropped(fill, left))
        + (if left > EPS && fill.side == Sell && plan == []
           then [SellResidualDropped(fill.orderId, fill.symbol, left)] else [])
  {
    var (plan, left) := Plan(Candidates(d.book, fill), fill.quantity);
    SettleEvents(d, plan, fill, Dropped(fill, left));
  }

  /** Lots of another symbol or of the fill's own side come through netting as they were. */
  lemma {:induction false} OthersUntouched(d: Desk, fill: Fill, p: Position)
    requires Healthy(d) && p in d.book
    requires p.symbol != fill.symbol || p.side != Opposite(fill.side)
    ensures NettedLot(p, Plan(Candidates(d.book, fill), fill.quantity).0) == [p]
  {
    var cands := Candidates(d.book, fill);
    var plan := Plan(cands, fill.quantity).0;
    CandidatesGood(d.book, fill);
    PlanShape(cands, fill.quantity);
    forall k | 0 <= k < |plan| ensures plan[k].lot.id != p.id {
      assert plan[k].lot == cands[k] && cands[k] in d.book;
    }
    NettedLotSkip(p, plan);
  }

  // ---------------------------------------------- what a fill does to the desk

  lemma {:induction false} FullCountAll(plan: seq<Match>)
    requires AllExact(plan)
    ensures FullCount(plan) == |plan|
  {
    if plan != [] {
      assert Exact(plan[0]) && AllExact(plan[1..]);
      FullCountAll(plan[1..]);
    }
  }

  /** Like `Kept`, but at most one lot may have been opened, under `id`. */
  ghost predicate Filled(d: Desk, d2: Desk, n: nat, id: string) {
    && Healthy(d2) && (Long(d) ==> Long(d2))
    && (id !in Ids(d.book) ==> Basis(d2) == Basis(d))
    && d2.breaker.losses <= d.breaker.losses + n
    && CloseCount(d2.events) == CloseCount(d.events) + n
  }

  lemma {:induction false} OpenLotKeeps(d: Desk, p: Position)
    requires Healthy(d) && p.quantity > EPS && p.side == Buy
    ensures Healthy(OpenLot(d, p)) && (Long(d) ==> Long(OpenLot(d, p)))
    ensures |OpenLot(d, p).book| <= |d.book| + 1
  {
    PutMirrors(d.book, d.table, p);
    PutSides(d.book, p);
  }

  lemma {:induction false} PutSides(book: seq<Position>, p: Position)
    requires Sized(book) && p.quantity > EPS && p.side == Buy
    ensures Sized(Put(book, p)) && (LongOnly(book) ==> LongOnly(Put(book, p)))
    ensures |Put(book, p)| <= |book| + 1
  {
  }

  lemma {:induction false} OpenLotBasis(d: Desk, p: Position)
    requires p.id !in Ids(d.book)
    ensures Basis(OpenLot(d, p)) == Basis(d)
  {
    PutFresh(d.book, p);
    SumBySnoc(d.book, p, Notional);
    SumBySnoc(d.openings, p, Notional);
  }

  lemma {:induction false} LogOnly(d: Desk, e: Event)
    requires Healthy(d) && !e.PositionClosed?
    ensures Kept(d, d.(events := d.events + [e]), 0)
  {
    SumBySnoc(d.events, e, ClosedBasis);
    var es := d.events + [e];
    assert es[..|es| - 1] == d.events;
  }

  /** Netting alone: what is settled before any residue is opened. */
  lemma {:induction false} NettingKeeps(d: Desk, fill: Fill)
    requires Healthy(d)
    ensures var cands := Candidates(d.book, fill);
      var (plan, left) := Plan(cands, fill.quantity);
      var settled := Settle(d, plan, fill, Dropped(fill, left));
      && Kept(d, settled, |plan|) && |plan| <= |cands| <= |d.book|
      && Ids(settled.book) <= Ids(d.book)
      && (left > EPS ==> |settled.book| == |d.book| - |plan| && |plan| == |cands|)
  {
    var cands := Candidates(d.book, fill);
    var (plan, left) := Plan(cands, fill.quantity);
    CandidatesGood(d.book, fill);
    PlanShape(cands, fill.quantity);
    PlanGood(d.book, fill);
    SettleKeeps(d, plan, fill, Dropped(fill, left));
    IdsKept(d.book, plan);
    DrawnCount(cands, d.book);
    if left > EPS {
      FullCountAll(plan);
    }
  }

  /** A fill closes at most as many lots as it meets. A residue opens one lot, and only when
      every opposite lot was closed, so a fill that meets an opposite lot never grows the book;
      a SELL never adds a lot at all. */
  lemma {:induction false} MatchOrOpenKeeps(d: Desk, fill: Fill) returns (n: nat)
    requires Healthy(d)
    ensures Filled(d, MatchOrOpen(d, fill), n, fill.orderId)
    ensures n <= |d.book| && |MatchOrOpen(d, fill).book| <= |d.book| + 1
    ensures Lots(d.book, fill.symbol, Opposite(fill.side)) != [] ==> |MatchOrOpen(d, fill).book| <= |d.book|
    ensures fill.side == Sell ==> Ids(MatchOrOpen(d, fill).book) <= Ids(d.book)
  {
    var (plan, left) := Plan(Candidates(d.book, fill), fill.quantity);
    var settled := Settle(d, plan, fill, Dropped(fill, left));
    NettingKeeps(d, fill);
    n := |plan|;
    if left > EPS && fill.side == Buy {
      OpenLotKeeps(settled, NewLot(fill, Residual(left)));
      if fill.orderId !in Ids(d.book) {
        OpenLotBasis(settled, NewLot(fill, Residual(left)));
      }
    } else if left > EPS && plan == [] {
      LogOnly(settled, SellResidualDropped(fill.orderId, fill.symbol, Residual(left)));
    }
  }

  lemma {:induction false} DrawnCount(lots: seq<Position>, book: seq<Position>)
    requires Drawn(lots, book)
    ensures |lots| <= |book|
    decreases lots
  {
    if lots != [] {
      var i :| 0 <= i < |book| && book[i] == lots[0];
      DrawnRest(lots, book, i, lots[0], book[..i] + book[i + 1..]);
      DrawnCount(lots[1..], book[..i] + book[i + 1..]);
    }
  }

  // ---------------------------------------------------------------- one cycle

  lemma {:induction false} ManagedKeeps(d: Desk, x: CycleInput) returns (n: nat)
    requires Healthy(d)
    ensures Kept(d, Managed(d, x), n) && |Managed(d, x).book| == |d.book| - n
    ensures Ids(Managed(d, x).book) <= Ids(d.book)
  {
    n := 0;
    if x.entryPrice > 0.0 {
      var lots := Triggered(d.book, x.symbol, x.entryPrice);
      FilterDrawn(d.book, Hit(x.symbol, x.entryPrice));
      ExitLotsKeeps(d, lots, x.entryPrice, x.tripTime);
      ExitLotsIds(d, lots, x.entryPrice, x.tripTime);
      n := |lots|;
    }
  }

  lemma {:induction false} ExitLotsIds(d: Desk, lots: seq<Position>, price: real, now: real)
    requires Healthy(d) && Drawn(lots, d.book)
    ensures Ids(ExitLots(d, lots, price, now).book) <= Ids(d.book)
    decreases lots
  {
    if lots != [] {
      var i :| 0 <= i < |d.book| && d.book[i] == lots[0];
      var e := CloseEvent(lots[0], ExitPrice(lots[0], price).GetOr(0.0), 0.0, 0.0, lots[0].quantity, None, StopExit);
      var d1 := ExitLot(d, lots[0], price, now);
      CloseLot(d, i, e, now);
      DrawnRest(lots, d.book, i, lots[0], d1.book);
      RemoveIds(d.book, i);
      ExitLotsIds(d1, lots[1..], price, now);
    }
  }

  /** The stop/TP check removes exactly the triggered lots and leaves the others in place. */
  lemma {:induction false} ExitsRemoveTriggered(d: Desk, symbol: string, price: real, now: real)
    requires Healthy(d)
    ensures CheckOpenPositions(d, symbol, price, now).book == Filter(d.book, Not(Hit(symbol, price)))
  {
    var lots := Triggered(d.book, symbol, price);
    FilterDrawn(d.book, Hit(symbol, price));
    ExitLotsNet(d, lots, price, now);
    NettedPart(d.book, d.book, Hit(symbol, price));
  }

  function Not(p: Position -> bool): Position -> bool { (x: Position) => !p(x) }

  function AsFull(lots: seq<Position>): seq<Match> {
    if lots == [] then [] else [Match(lots[0], lots[0].quantity, true)] + AsFull(lots[1..])
  }

  lemma {:induction false} AsFullLots(lots: seq<Position>)
    ensures PlanLots(AsFull(lots)) == lots
  {
    if lots != [] {
      AsFullLots(lots[1..]);
      var plan := AsFull(lots);
      assert plan[1..] == AsFull(lots[1..]);
      forall k | 0 < k < |plan| ensures plan[k].lot == lots[k] {
        assert plan[k] == plan[1..][k - 1] && PlanLots(plan[1..])[k - 1] == lots[1..][k - 1];
      }
      assert |PlanLots(plan[1..])| == |lots| - 1;
    }
  }

  lemma {:induction false} ExitLotsNet(d: Desk, lots: seq<Position>, price: real, now: real)
    requires Healthy(d) && Drawn(lots, d.book)
    ensures ExitLots(d, lots, price, now).book == NettedBook(d.book, AsFull(lots))
    decreases lots
  {
    AsFullLots(lots);
    if lots == [] {
      NettedBookNone(d.book);
    } else {
      var i :| 0 <= i < |d.book| && d.book[i] == lots[0];
      var e := CloseEvent(lots[0], ExitPrice(lots[0], price).GetOr(0.0), 0.0, 0.0, lots[0].quantity, None, StopExit);
      var d1 := ExitLot(d, lots[0], price, now);
      CloseLot(d, i, e, now);
      DrawnRest(lots, d.book, i, lots[0], d1.book);
      ExitLotsNet(d1, lots[1..], price, now);
      NettedBookStep(d.book, i, AsFull(lots));
      assert AsFull(lots)[1..] == AsFull(lots[1..]);
    }
  }

  lemma {:induction false} NettedLotGone(p: Position, plan: seq<Match>, k: nat)
    requires k < |plan| && plan[k].lot.id == p.id && forall j :: 0 <= j < |plan| ==> plan[j].full
    ensures NettedLot(p, plan) == []
  {
    if plan[0].lot.id != p.id {
      NettedLotGone(p, plan[1..], k - 1);
    }
  }

  lemma {:induction false} AsFullAll(lots: seq<Position>)
    ensures forall j :: 0 <= j < |AsFull(lots)| ==> AsFull(lots)[j].full
  {
    if lots != [] {
      AsFullAll(lots[1..]);
    }
  }

  lemma {:induction false} NettedPart(part: seq<Position>, book: seq<Position>, hit: Position -> bool)
    requires Keyed(book) && forall p <- part :: p in book
    ensures NettedBook(part, AsFull(Filter(book, hit))) == Filter(part, Not(hit))
  {
    if part != [] {
      NettedPart(part[1..], book, hit);
      NettedOne(part[0], book, hit);
    }
  }

  lemma {:induction false} NettedOne(p: Position, book: seq<Position>, hit: Position -> bool)
    requires Keyed(book) && p in book
    ensures NettedLot(p, AsFull(Filter(book, hit))) == if hit(p) then [] else [p]
  {
    var lots := Filter(book, hit);
    var plan := AsFull(lots);
    AsFullLots(lots);
    AsFullAll(lots);
    FilterMember(book, hit, p);
    if p in lots {
      var k :| 0 <= k < |lots| && lots[k] == p;
      assert PlanLots(plan)[k] == p;
      NettedLotGone(p, plan, k);
    } else {
      forall k | 0 <= k < |plan| ensures plan[k].lot.id != p.id {
        assert PlanLots(plan)[k] == lots[k];
        FilterMember(book, hit, lots[k]);
      }
      NettedLotSkip(p, plan);
    }
  }

  lemma {:induction false} ReadBreakerKeeps(d: Desk, now: real)
    requires Healthy(d) && !Blocks(d.breaker, now)
    ensures Kept(d, ReadBreaker(d, now), 0) && ReadBreaker(d, now).book == d.book
    ensures ReadBreaker(d, now).breaker.losses < 3
    ensures ReadBreaker(d, now).breaker.trippedAt == None
  {
  }

  lemma {:induction false} LogFillKeeps(d: Desk, fill: Fill) returns (n: nat)
    requires Healthy(d)
    ensures Filled(d, LogFill(d, fill), n, fill.orderId)
    ensures n <= |d.book| && |LogFill(d, fill).book| <= |d.book| + 1
    ensures Lots(d.book, fill.symbol, Opposite(fill.side)) != [] ==> |LogFill(d, fill).book| <= |d.book|
    ensures fill.side == Sell ==> Ids(LogFill(d, fill).book) <= Ids(d.book)
  {
    n := 0;
    if fill.quantity > 0.0 && fill.price > 0.0 {
      var e := FillLogged(fill.orderId, fill.symbol, fill.side, fill.price, fill.quantity, fill.fee);
      LogOnly(d, e);
      n := MatchOrOpenKeeps(d.(events := d.events + [e]), fill);
    }
  }

  /** One cycle from any healthy desk. It keeps the invariant, books at most as many closes
      as the book held, never grows the book past its size or the slot cap, never adds a lot
      on a SELL, keeps a long-only desk long-only, and does nothing at all when blocked. */
  lemma {:induction false} CycleKeeps(d: Desk, cfg: Config, x: CycleInput) returns (closes: nat)
    requires Healthy(d)
    ensures var d2 := Cycle(d, cfg, x).0;
      && Healthy(d2) && (Long(d) ==> Long(d2))
      && CloseCount(d2.events) == CloseCount(d.events) + closes && closes <= |d.book|
      && (|d2.book| <= |d.book| || |d2.book| <= cfg.maxConcurrent)
      && (x.action == Sell ==> Ids(d2.book) <= Ids(d.book))
      && (x.execution.orderId !in Ids(d.book) ==> Basis(d2) == Basis(d))
      && (Blocks(d.breaker, x.startTime) ==> d2 == d)
      && (!Blocks(d.breaker, x.startTime) ==> d2.breaker.losses < 3 + closes)
  {
    closes := 0;
    if !Blocks(d.breaker, x.startTime) {
      ReadBreakerKeeps(d, x.startTime);
      var ready := ReadBreaker(d, x.startTime);
      if !(x.stub && !x.allowStub) {
        closes := ManagedKeeps(ready, x);
        var managed := Managed(ready, x);
        if Gate(managed, cfg, x) == Traded(true) {
          var n := LogFillKeeps(managed, FillOf(cfg, x));
          closes := closes + n;
          assert |managed.book| < cfg.maxConcurrent || Lots(managed.book, x.symbol, Opposite(x.action)) != [];
        }
      }
    }
  }
}
