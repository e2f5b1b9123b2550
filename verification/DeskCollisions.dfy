/** What an order id costs that is used twice: opening a lot under the id of a lot that
    survived the netting overwrites it, and its notional drops out of the books. */
module DeskCollisions {
  import opened Lists
  import opened TradingDesk
  import opened DeskInvariants
  import opened DeskCycle

  ghost predicate Priced(book: seq<Position>) {
    forall i :: 0 <= i < |book| ==> book[i].entryPrice > 0.0
  }

  /** A lot that this fill does not net. */
  predicate Bystander(p: Position, fill: Fill) { !IsLot(fill.symbol, Opposite(fill.side))(p) }

  /** A BUY larger than everything it can net, under the id of a lot it does not net. */
  ghost predicate Collides(book: seq<Position>, fill: Fill) {
    && fill.side == Buy
    && fill.quantity - SumBy(Lots(book, fill.symbol, Opposite(fill.side)), Quantity) > EPS
    && exists i :: 0 <= i < |book| && book[i].id == fill.orderId && Bystander(book[i], fill)
  }

  // ---------------------------------------------------- what a netting leaves

  /** Something is left of a fill exactly when it is larger than the lots it meets. */
  lemma {:induction false} LeftIff(lots: seq<Position>, remaining: real)
    requires forall i :: 0 <= i < |lots| ==> lots[i].quantity > 0.0
    ensures Plan(lots, remaining).1 > EPS <==> remaining - SumBy(lots, Quantity) > EPS
  {
    if lots != [] {
      SumNonNegative(lots[1..], Quantity);
      if remaining > EPS {
        LeftIff(lots[1..], remaining - Min(remaining, lots[0].quantity));
      }
    }
  }

  lemma {:induction false} ResidueIff(book: seq<Position>, fill: Fill)
    requires Keyed(book) && Sized(book)
    ensures Plan(Candidates(book, fill), fill.quantity).1 > EPS
       <==> fill.quantity - SumBy(Lots(book, fill.symbol, Opposite(fill.side)), Quantity) > EPS
  {
    CandidatesGood(book, fill);
    LeftIff(Candidates(book, fill), fill.quantity);
    SumByPermute(Candidates(book, fill), Lots(book, fill.symbol, Opposite(fill.side)), Quantity);
  }

  lemma {:induction false} NettedFrom(book: seq<Position>, plan: seq<Match>, q: Position) returns (i: nat)
    requires q in NettedBook(book, plan)
    ensures i < |book| && q in NettedLot(book[i], plan) && q.id == book[i].id
  {
    if q in NettedLot(book[0], plan) {
      NettedLotId(book[0], plan);
      i := 0;
    } else {
      i := NettedFrom(book[1..], plan, q);
      i := i + 1;
    }
  }

  lemma {:induction false} StaysIn(book: seq<Position>, plan: seq<Match>, i: nat)
    requires i < |book| && NettedLot(book[i], plan) == [book[i]]
    ensures book[i] in NettedBook(book, plan)
  {
    if i > 0 {
      StaysIn(book[1..], plan, i - 1);
    }
  }

  /** A bystander comes through netting in place. */
  lemma {:induction false} BystanderStays(d: Desk, fill: Fill, i: nat)
    requires Healthy(d) && i < |d.book| && Bystander(d.book[i], fill)
    ensures d.book[i] in NettedBook(d.book, Plan(Candidates(d.book, fill), fill.quantity).0)
  {
    var plan := Plan(Candidates(d.book, fill), fill.quantity).0;
    OthersUntouched(d, fill, d.book[i]);
    StaysIn(d.book, plan, i);
  }

  /** When a residue is left, only bystanders come through. */
  lemma {:induction false} OnlyBystanders(d: Desk, fill: Fill, i: nat)
    requires Healthy(d) && i < |d.book| && !Bystander(d.book[i], fill)
    requires Plan(Candidates(d.book, fill), fill.quantity).1 > EPS
    ensures NettedLot(d.book[i], Plan(Candidates(d.book, fill), fill.quantity).0) == []
  {
    var cands := Candidates(d.book, fill);
    var plan := Plan(cands, fill.quantity).0;
    CandidatesGood(d.book, fill);
    PlanShape(cands, fill.quantity);
    FilterMember(d.book, IsLot(fill.symbol, Opposite(fill.side)), d.book[i]);
    assert d.book[i] in multiset(cands);
    var k :| 0 <= k < |cands| && cands[k] == d.book[i];
    assert plan[k].lot == cands[k];
    assert forall j :: 0 <= j < |plan| ==> Exact(plan[j]);
    NettedLotGone(d.book[i], plan, k);
  }

  lemma {:induction false} CollidingIdStays(d: Desk, fill: Fill, netted: seq<Position>)
    requires Healthy(d) && Collides(d.book, fill)
    requires netted == NettedBook(d.book, Plan(Candidates(d.book, fill), fill.quantity).0)
    ensures fill.orderId in Ids(netted)
  {
    var i :| 0 <= i < |d.book| && d.book[i].id == fill.orderId && Bystander(d.book[i], fill);
    BystanderStays(d, fill, i);
    var k :| 0 <= k < |netted| && netted[k] == d.book[i];
    assert netted[k].id in Ids(netted);
  }

  lemma {:induction false} StayingIdCollides(d: Desk, fill: Fill, netted: seq<Position>) returns (i: nat)
    requires Healthy(d) && Plan(Candidates(d.book, fill), fill.quantity).1 > EPS
    requires netted == NettedBook(d.book, Plan(Candidates(d.book, fill), fill.quantity).0)
    requires fill.orderId in Ids(netted)
    ensures i < |d.book| && d.book[i].id == fill.orderId && Bystander(d.book[i], fill)
  {
    var k :| 0 <= k < |netted| && netted[k].id == fill.orderId;
    i := NettedFrom(d.book, Plan(Candidates(d.book, fill), fill.quantity).0, netted[k]);
    if !Bystander(d.book[i], fill) {
      OnlyBystanders(d, fill, i);
    }
  }

  /** A residue meets its own id in the netted book exactly when the fill collides. */
  lemma {:induction false} CollidesIff(d: Desk, fill: Fill)
    requires Healthy(d) && fill.side == Buy
    ensures var (plan, left) := Plan(Candidates(d.book, fill), fill.quantity);
      Collides(d.book, fill) <==> left > EPS && fill.orderId in Ids(NettedBook(d.book, plan))
  {
    var (plan, left) := Plan(Candidates(d.book, fill), fill.quantity);
    var netted := NettedBook(d.book, plan);
    ResidueIff(d.book, fill);
    if Collides(d.book, fill) {
      CollidingIdStays(d, fill, netted);
    }
    if left > EPS && fill.orderId in Ids(netted) {
      var i := StayingIdCollides(d, fill, netted);
    }
  }

  // ------------------------------------------------------------ what it costs

  /** Opening under the id of a lot drops that lot's notional. */
  lemma {:induction false} ReusedIdLosesLot(d: Desk, i: nat, p: Position)
    requires Keyed(d.book) && i < |d.book| && p.id == d.book[i].id
    ensures Basis(OpenLot(d, p)) == Basis(d) - Notional(d.book[i])
  {
    IndexOfKeyed(d.book, i);
    SumByUpdateAt(d.book, i, p, Notional);
    SumBySnoc(d.openings, p, Notional);
  }

  lemma {:induction false} KeyedSame(book: seq<Position>, p: Position, q: Position)
    requires Keyed(book) && p in book && q in book && p.id == q.id
    ensures p == q
  {
  }

  /** The netted book as the fill left it, before any residue. */
  lemma {:induction false} Netted(d: Desk, fill: Fill) returns (settled: Desk)
    requires Healthy(d)
    ensures var (plan, left) := Plan(Candidates(d.book, fill), fill.quantity);
      && MatchOrOpen(d, fill) == OpenResidue(settled, fill, Residual(left), plan == [])
      && settled.book == NettedBook(d.book, plan)
      && Healthy(settled) && Basis(settled) == Basis(d) && settled.openings == d.openings
  {
    var (plan, left) := Plan(Candidates(d.book, fill), fill.quantity);
    settled := Settle(d, plan, fill, Dropped(fill, left));
    NettingKeeps(d, fill);
    PlanGood(d.book, fill);
    SettleKeeps(d, plan, fill, Dropped(fill, left));
  }

  /** The lot whose id a colliding fill takes, before and after the netting. */
  lemma {:induction false} Victim(d: Desk, fill: Fill, netted: seq<Position>) returns (k: nat)
    requires Healthy(d) && Collides(d.book, fill)
    requires netted == NettedBook(d.book, Plan(Candidates(d.book, fill), fill.quantity).0)
    ensures k < |netted| && netted[k].id == fill.orderId
    ensures forall p <- d.book :: p.id == fill.orderId ==> p == netted[k]
  {
    var i :| 0 <= i < |d.book| && d.book[i].id == fill.orderId && Bystander(d.book[i], fill);
    BystanderStays(d, fill, i);
    k :| 0 <= k < |netted| && netted[k] == d.book[i];
    forall q <- d.book | q.id == fill.orderId ensures q == d.book[i] {
      KeyedSame(d.book, q, d.book[i]);
    }
  }

  lemma {:induction false} ResidueBasis(d: Desk, fill: Fill, left: real, nothingNetted: bool)
    requires Healthy(d) && !(left > EPS && fill.side == Buy && fill.orderId in Ids(d.book))
    ensures Basis(OpenResidue(d, fill, Residual(left), nothingNetted)) == Basis(d)
  {
    if left > EPS && fill.side == Buy {
      OpenLotBasis(d, NewLot(fill, Residual(left)));
    } else if left > EPS && nothingNetted {
      LogOnly(d, SellResidualDropped(fill.orderId, fill.symbol, Residual(left)));
    }
  }

  /** A fill that does not collide conserves the basis; one that does loses exactly the notional
      of the lot whose id it takes. */
  lemma {:induction false} FillBasis(d: Desk, fill: Fill)
    requires Healthy(d)
    ensures !Collides(d.book, fill) ==> Basis(MatchOrOpen(d, fill)) == Basis(d)
    ensures forall p <- d.book :: Collides(d.book, fill) && p.id == fill.orderId ==>
              Basis(MatchOrOpen(d, fill)) == Basis(d) - Notional(p)
  {
    var (plan, left) := Plan(Candidates(d.book, fill), fill.quantity);
    var settled := Netted(d, fill);
    if fill.side == Buy {
      CollidesIff(d, fill);
    }
    if Collides(d.book, fill) {
      var k := Victim(d, fill, settled.book);
      ReusedIdLosesLot(settled, k, NewLot(fill, Residual(left)));
    } else {
      ResidueBasis(settled, fill, left, plan == []);
    }
  }

  lemma {:induction false} NotionalPositive(p: Position)
    requires p.entryPrice > 0.0 && p.quantity > 0.0
    ensures Notional(p) > 0.0
  {
  }

  /** With priced lots, a fill conserves the basis if and only if it does not collide. */
  lemma {:induction false} FillBasisIff(d: Desk, fill: Fill)
    requires Healthy(d) && Priced(d.book)
    ensures Basis(MatchOrOpen(d, fill)) == Basis(d) <==> !Collides(d.book, fill)
    ensures Basis(MatchOrOpen(d, fill)) <= Basis(d)
  {
    FillBasis(d, fill);
    if Collides(d.book, fill) {
      var i :| 0 <= i < |d.book| && d.book[i].id == fill.orderId && Bystander(d.book[i], fill);
      NotionalPositive(d.book[i]);
      assert d.book[i] in d.book;
    }
  }

  // ------------------------------------------------------------- prices stay

  lemma {:induction false} NettedPriced(book: seq<Position>, plan: seq<Match>)
    requires Priced(book) && forall k :: 0 <= k < |plan| ==> plan[k].lot.entryPrice > 0.0
    ensures Priced(NettedBook(book, plan))
  {
    if book != [] {
      NettedPriced(book[1..], plan);
      NettedLotPriced(book[0], plan);
    }
  }

  lemma {:induction false} NettedLotPriced(p: Position, plan: seq<Match>)
    requires p.entryPrice > 0.0 && forall k :: 0 <= k < |plan| ==> plan[k].lot.entryPrice > 0.0
    ensures Priced(NettedLot(p, plan))
  {
    if plan != [] {
      NettedLotPriced(p, plan[1..]);
    }
  }

  lemma {:induction false} PlanPriced(book: seq<Position>, fill: Fill)
    requires Keyed(book) && Sized(book) && Priced(book)
    ensures Priced(NettedBook(book, Plan(Candidates(book, fill), fill.quantity).0))
  {
    var cands := Candidates(book, fill);
    var plan := Plan(cands, fill.quantity).0;
    CandidatesGood(book, fill);
    PlanShape(cands, fill.quantity);
    forall k | 0 <= k < |plan| ensures plan[k].lot.entryPrice > 0.0 {
      assert plan[k].lot == cands[k] && cands[k] in book;
    }
    NettedPriced(book, plan);
  }

  lemma {:induction false} PutPriced(book: seq<Position>, p: Position)
    requires Priced(book) && p.entryPrice > 0.0
    ensures Priced(Put(book, p))
  {
  }

  lemma {:induction false} FillPriced(d: Desk, fill: Fill)
    requires Healthy(d) && Priced(d.book) && fill.price > 0.0
    ensures Priced(MatchOrOpen(d, fill).book)
  {
    var left := Plan(Candidates(d.book, fill), fill.quantity).1;
    var settled := Netted(d, fill);
    PlanPriced(d.book, fill);
    PutPriced(settled.book, NewLot(fill, Residual(left)));
  }

  lemma {:induction false} FilterPriced(book: seq<Position>, p: Position -> bool)
    requires Priced(book)
    ensures Priced(Filter(book, p))
  {
    if book != [] {
      FilterPriced(book[1..], p);
    }
  }

  // ---------------------------------------------------------------- one cycle

  /** The cycle executes a fill that collides with the book its exits left. */
  ghost predicate CycleCollides(d: Desk, cfg: Config, x: CycleInput) {
    && !Blocks(d.breaker, x.startTime) && !(x.stub && !x.allowStub)
    && var managed := Managed(ReadBreaker(d, x.startTime), x);
       && Gate(managed, cfg, x) == Traded(true)
       && FillOf(cfg, x).quantity > 0.0 && FillOf(cfg, x).price > 0.0
       && Collides(managed.book, FillOf(cfg, x))
  }

  lemma {:induction false} LogFillBasisIff(d: Desk, fill: Fill)
    requires Healthy(d) && Priced(d.book)
    ensures var collides := fill.quantity > 0.0 && fill.price > 0.0 && Collides(d.book, fill);
      && (Basis(LogFill(d, fill)) == Basis(d) <==> !collides)
      && Basis(LogFill(d, fill)) <= Basis(d) && Priced(LogFill(d, fill).book)
  {
    if fill.quantity > 0.0 && fill.price > 0.0 {
      var e := FillLogged(fill.orderId, fill.symbol, fill.side, fill.price, fill.quantity, fill.fee);
      var logged := d.(events := d.events + [e]);
      LogOnly(d, e);
      FillBasisIff(logged, fill);
      FillPriced(logged, fill);
    }
  }

  lemma {:induction false} ManagedPriced(d: Desk, x: CycleInput)
    requires Healthy(d) && Priced(d.book)
    ensures Priced(Managed(d, x).book)
  {
    if x.entryPrice > 0.0 {
      ExitsRemoveTriggered(d, x.symbol, x.entryPrice, x.tripTime);
      FilterPriced(d.book, Not(Hit(x.symbol, x.entryPrice)));
    }
  }

  /** A cycle conserves the basis if and only if it does not collide, and never raises it. */
  lemma {:induction false} CycleBasisIff(d: Desk, cfg: Config, x: CycleInput)
    requires Healthy(d) && Priced(d.book)
    ensures var d2 := Cycle(d, cfg, x).0;
      && (Basis(d2) == Basis(d) <==> !CycleCollides(d, cfg, x))
      && Basis(d2) <= Basis(d) && Priced(d2.book)
  {
    if !Blocks(d.breaker, x.startTime) {
      ReadBreakerKeeps(d, x.startTime);
      var ready := ReadBreaker(d, x.startTime);
      if !(x.stub && !x.allowStub) {
        var n := ManagedKeeps(ready, x);
        ManagedPriced(ready, x);
        var managed := Managed(ready, x);
        if Gate(managed, cfg, x) == Traded(true) {
          LogFillBasisIff(managed, FillOf(cfg, x));
        }
      }
    }
  }

  /** An id no open lot carries never collides. */
  lemma {:induction false} FreshNeverCollides(d: Desk, cfg: Config, x: CycleInput)
    requires Healthy(d) && x.execution.orderId !in Ids(d.book)
    ensures !CycleCollides(d, cfg, x)
  {
    if !Blocks(d.breaker, x.startTime) {
      ReadBreakerKeeps(d, x.startTime);
      var ready := ReadBreaker(d, x.startTime);
      var n := ManagedKeeps(ready, x);
      var book := Managed(ready, x).book;
      forall i | 0 <= i < |book| ensures book[i].id != x.execution.orderId {
        assert book[i].id in Ids(book);
      }
    }
  }
}
