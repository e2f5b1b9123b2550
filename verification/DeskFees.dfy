/** Entry fees lot by lot: what was paid on opening is booked in chunks as the lot is netted,
    exactly on partial closes and short by at most fee * EPS / quantity on a tolerant full close. */
module DeskFees {
  import opened Lists
  import opened TradingDesk
  import opened DeskInvariants
  import opened DeskCycle
  import opened DeskRestart

  function LotFee(id: string): Position -> real { (p: Position) => if p.id == id then p.entryFee else 0.0 }

  function LotQuantity(id: string): Position -> real { (p: Position) => if p.id == id then p.quantity else 0.0 }

  function ChunkOf(id: string): Event -> real {
    (e: Event) => if e.PositionClosed? && e.orderId == id then e.entryFee else 0.0
  }

  function OpenedFee(d: Desk, id: string): real { SumBy(d.openings, LotFee(id)) }
  function OpenedQuantity(d: Desk, id: string): real { SumBy(d.openings, LotQuantity(id)) }
  function BookedFee(d: Desk, id: string): real { SumBy(d.events, ChunkOf(id)) }
  function HeldFee(d: Desk, id: string): real { SumBy(d.book, LotFee(id)) }

  /** The part of the fee paid on opening `id` that is neither booked nor still on the lot nor on
      one of the lots `wiped` by a restart, which reads every entry fee back as 0. */
  function Gap(d: Desk, id: string, wiped: seq<Position>): real {
    OpenedFee(d, id) - BookedFee(d, id) - HeldFee(d, id) - SumBy(wiped, LotFee(id))
  }

  /** `short` is at most fee * EPS / quantity. */
  ghost predicate Within(short: real, quantity: real, fee: real) { short * quantity <= fee * EPS }

  predicate ClosesLot(e: Event, id: string) { e.PositionClosed? && e.orderId == id }

  /** Event `k` closes `id`, and no later event does. */
  ghost predicate LastCloseAt(events: seq<Event>, id: string, k: int) {
    0 <= k < |events| && ClosesLot(events[k], id) && forall j :: k < j < |events| ==> !ClosesLot(events[j], id)
  }

  /** The close that removed `id` was a stop or target exit. */
  ghost predicate StoppedOut(events: seq<Event>, id: string) {
    exists k :: LastCloseAt(events, id, k) && events[k].cause == StopExit
  }

  /** `id` left by netting: what went unbooked is at most fee * EPS / quantity, for the quantity
      it opened with and for the quantity of its last close alike. */
  ghost predicate NettedOut(d: Desk, id: string, wiped: seq<Position>) {
    && 0.0 <= Gap(d, id, wiped) && Within(Gap(d, id, wiped), OpenedQuantity(d, id), OpenedFee(d, id))
    && exists k :: LastCloseAt(d.events, id, k) && d.events[k].cause == Netting
         && Within(Gap(d, id, wiped), d.events[k].quantity, OpenedFee(d, id))
  }

  ghost predicate Accounted(d: Desk, id: string, wiped: seq<Position>) {
    if id in Ids(d.book) then Gap(d, id, wiped) == 0.0 else StoppedOut(d.events, id) || NettedOut(d, id, wiped)
  }

  ghost predicate FeesNonNegative(d: Desk) {
    && (forall p <- d.book :: p.entryFee >= 0.0)
    && (forall p <- d.openings :: p.entryFee >= 0.0 && p.quantity > 0.0)
    && (forall e <- d.events :: e.PositionClosed? ==> e.entryFee >= 0.0)
  }

  /** `fee` is to `quantity` as `paid` is to `whole`. */
  ghost predicate Proportional(fee: real, quantity: real, paid: real, whole: real) {
    fee * whole == paid * quantity
  }

  /** Partial closes leave an open lot's fee per unit as it opened; a restart leaves none. */
  ghost predicate Even(d: Desk, p: Position) {
    p.entryFee == 0.0 || Proportional(p.entryFee, p.quantity, OpenedFee(d, p.id), OpenedQuantity(d, p.id))
  }

  ghost predicate FeeInv(d: Desk, wiped: seq<Position>) {
    && (forall p <- d.book :: Even(d, p))
    && (forall p <- wiped :: p.entryFee >= 0.0 && p.id in Ids(d.openings))
    && FeesNonNegative(d) && Ids(d.book) <= Ids(d.openings)
    && (forall e <- d.events :: e.PositionClosed? ==> e.orderId in Ids(d.openings))
    && (forall id <- Ids(d.openings) :: Accounted(d, id, wiped))
  }

  // ---------------------------------------------------------------- arithmetic

  lemma {:induction false} Cancel(x: real, y: real, q: real)
    requires q > 0.0 && x * q == y * q
    ensures x == y
  {
  }

  lemma {:induction false} WithinMore(short: real, q: real, fee: real, paid: real)
    requires Within(short, q, fee) && fee <= paid
    ensures Within(short, q, paid)
  {
  }

  lemma {:induction false} WithinOpened(short: real, q: real, fee: real, paid: real, whole: real)
    requires q > 0.0 && whole >= 0.0 && Within(short, q, fee) && Proportional(fee, q, paid, whole)
    ensures Within(short, whole, paid)
  {
    var over := paid * EPS - short * whole;
    assert (short * q) * whole <= (fee * EPS) * whole;
    assert over * q >= 0.0;
    NonNegativeFactor(over, q);
  }

  /** The two bounds on what a full close of a lot leaves unbooked, its fee wiped or not. */
  lemma {:induction false} ShortBounds(short: real, q: real, fee: real, paid: real, whole: real)
    requires q > 0.0 && whole >= 0.0 && 0.0 <= short <= fee <= paid && Within(short, q, fee)
    requires fee == 0.0 || Proportional(fee, q, paid, whole)
    ensures Within(short, whole, paid) && Within(short, q, paid)
  {
    WithinMore(short, q, fee, paid);
    if fee != 0.0 {
      WithinOpened(short, q, fee, paid, whole);
    }
  }

  lemma {:induction false} ProportionalTrans(s: real, left: real, fee: real, q: real, paid: real, whole: real)
    requires q > 0.0 && Proportional(s, left, fee, q) && Proportional(fee, q, paid, whole)
    ensures Proportional(s, left, paid, whole)
  {
    assert (s * whole) * q == (s * q) * whole == (fee * left) * whole == (fee * whole) * left;
    Cancel(s * whole, paid * left, q);
  }

  lemma {:induction false} SumZero<T>(xs: seq<T>, f: T -> real)
    requires forall x <- xs :: f(x) == 0.0
    ensures SumBy(xs, f) == 0.0
  {
    if xs != [] {
      SumZero(xs[1..], f);
    }
  }

  lemma {:induction false} HeldOne(book: seq<Position>, i: nat)
    requires Keyed(book) && i < |book|
    ensures SumBy(book, LotFee(book[i].id)) == book[i].entryFee
  {
    var f := LotFee(book[i].id);
    SumByRemoveAt(book, i, f);
    var rest := book[..i] + book[i + 1..];
    RemoveIds(book, i);
    forall p <- rest ensures f(p) == 0.0 {
      var k :| 0 <= k < |rest| && rest[k] == p;
      assert rest[k].id in Ids(rest);
    }
    SumZero(rest, f);
  }

  lemma {:induction false} HeldNone(book: seq<Position>, id: string)
    requires id !in Ids(book)
    ensures SumBy(book, LotFee(id)) == 0.0
  {
    forall p <- book ensures LotFee(id)(p) == 0.0 {
      var k :| 0 <= k < |book| && book[k] == p;
      assert book[k].id in Ids(book);
    }
    SumZero(book, LotFee(id));
  }

  lemma {:induction false} SizeNone(book: seq<Position>, id: string)
    requires id !in Ids(book)
    ensures SumBy(book, LotQuantity(id)) == 0.0
  {
    forall p <- book ensures LotQuantity(id)(p) == 0.0 {
      var k :| 0 <= k < |book| && book[k] == p;
      assert book[k].id in Ids(book);
    }
    SumZero(book, LotQuantity(id));
  }

  /** A lot never carries more fee than it opened with. */
  lemma {:induction false} HeldAtMostOpened(d: Desk, i: nat, wiped: seq<Position>)
    requires Healthy(d) && FeeInv(d, wiped) && i < |d.book|
    ensures d.book[i].entryFee <= OpenedFee(d, d.book[i].id)
  {
    var id := d.book[i].id;
    assert id in Ids(d.book);
    HeldOne(d.book, i);
    SumNonNegative(d.events, ChunkOf(id));
    SumNonNegative(wiped, LotFee(id));
    assert Accounted(d, id, wiped);
  }

  // -------------------------------------------------------------- single steps

  /** How one booked close moves the gaps, given the book after it. */
  lemma {:induction false} GapAfter(d: Desk, d2: Desk, e: Event, id: string, wiped: seq<Position>)
    requires e.PositionClosed? && d2.events == d.events + [e] && d2.openings == d.openings
    ensures Gap(d2, id, wiped) - Gap(d, id, wiped)
         == HeldFee(d, id) - HeldFee(d2, id) - (if e.orderId == id then e.entryFee else 0.0)
  {
    SumBySnoc(d.events, e, ChunkOf(id));
  }

  lemma {:induction false} FeesAfter(d: Desk, d2: Desk, e: Event, wiped: seq<Position>)
    requires FeeInv(d, wiped) && e.PositionClosed? && d2.events == d.events + [e] && d2.openings == d.openings
    requires e.entryFee >= 0.0 && e.orderId in Ids(d.openings)
    requires Ids(d2.book) <= Ids(d.book) && forall p <- d2.book :: p.entryFee >= 0.0
    ensures FeesNonNegative(d2) && Ids(d2.book) <= Ids(d2.openings)
    ensures forall x <- d2.events :: x.PositionClosed? ==> x.orderId in Ids(d2.openings)
  {
  }

  /** An id whose gap and place did not move, and that no new event closes, stays accounted for. */
  lemma {:induction false} StillAccounted(d: Desk, d2: Desk, id: string, wiped: seq<Position>)
    requires d.events <= d2.events && forall j :: |d.events| <= j < |d2.events| ==> !ClosesLot(d2.events[j], id)
    requires Gap(d2, id, wiped) == Gap(d, id, wiped)
    requires OpenedFee(d2, id) == OpenedFee(d, id) && OpenedQuantity(d2, id) == OpenedQuantity(d, id)
    requires id in Ids(d2.book) <==> id in Ids(d.book)
    requires Accounted(d, id, wiped)
    ensures Accounted(d2, id, wiped)
  {
    forall k | LastCloseAt(d.events, id, k) ensures LastCloseAt(d2.events, id, k) && d2.events[k] == d.events[k] {
    }
  }

  lemma {:induction false} OtherAccounted(d: Desk, d2: Desk, e: Event, id: string, wiped: seq<Position>)
    requires e.PositionClosed? && d2.events == d.events + [e] && d2.openings == d.openings
    requires id != e.orderId && HeldFee(d2, id) == HeldFee(d, id)
    requires id in Ids(d2.book) <==> id in Ids(d.book)
    requires Accounted(d, id, wiped)
    ensures Accounted(d2, id, wiped)
  {
    GapAfter(d, d2, e, id, wiped);
    StillAccounted(d, d2, id, wiped);
  }

  ghost predicate Chunked(p: Position, e: Event) {
    && e.PositionClosed? && e.orderId == p.id && e.quantity == p.quantity && 0.0 <= e.entryFee <= p.entryFee
    && (e.cause == StopExit || Within(p.entryFee - e.entryFee, e.quantity, p.entryFee))
  }

  lemma {:induction false} FeeClose(d: Desk, i: nat, e: Event, now: real, wiped: seq<Position>)
    requires Healthy(d) && FeeInv(d, wiped) && i < |d.book| && Chunked(d.book[i], e)
    ensures FeeInv(RecordClose(d, e, false, now), wiped)
  {
    var d2 := RecordClose(d, e, false, now);
    RemoveIds(d.book, i);
    FeeCloseOn(d, i, e, d2, wiped);
  }

  lemma {:induction false} AccountedAfterClose(d: Desk, i: nat, e: Event, d2: Desk, id: string, wiped: seq<Position>)
    requires Healthy(d) && FeeInv(d, wiped) && i < |d.book| && Chunked(d.book[i], e)
    requires d2.events == d.events + [e] && d2.openings == d.openings
    requires d2.book == d.book[..i] + d.book[i + 1..] && Ids(d2.book) == Ids(d.book) - {d.book[i].id}
    requires id in Ids(d.openings)
    ensures Accounted(d2, id, wiped)
  {
    SumByRemoveAt(d.book, i, LotFee(id));
    if id != d.book[i].id {
      OtherAccounted(d, d2, e, id, wiped);
    } else {
      assert id in Ids(d.book);
      GapAfter(d, d2, e, id, wiped);
      ClosedAccounted(d, d2, i, e, wiped);
    }
  }

  lemma {:induction false} FeeCloseOn(d: Desk, i: nat, e: Event, d2: Desk, wiped: seq<Position>)
    requires Healthy(d) && FeeInv(d, wiped) && i < |d.book| && Chunked(d.book[i], e)
    requires d2.events == d.events + [e] && d2.openings == d.openings
    requires d2.book == d.book[..i] + d.book[i + 1..] && Ids(d2.book) == Ids(d.book) - {d.book[i].id}
    ensures FeeInv(d2, wiped)
  {
    assert d.book[i].id in Ids(d.book);
    FeesAfter(d, d2, e, wiped);
    EvenKept(d, d2);
    forall id <- Ids(d2.openings) ensures Accounted(d2, id, wiped) {
      AccountedAfterClose(d, i, e, d2, id, wiped);
    }
  }

  lemma {:induction false} ClosedAccounted(d: Desk, d2: Desk, i: nat, e: Event, wiped: seq<Position>)
    requires Healthy(d) && FeeInv(d, wiped) && i < |d.book| && Chunked(d.book[i], e)
    requires d2.events == d.events + [e] && d2.openings == d.openings && d.book[i].id !in Ids(d2.book)
    requires Gap(d2, e.orderId, wiped) == d.book[i].entryFee - e.entryFee
    ensures Accounted(d2, e.orderId, wiped)
  {
    if e.cause == Netting {
      HeldAtMostOpened(d, i, wiped);
      SumNonNegative(d.openings, LotQuantity(e.orderId));
      assert Even(d, d.book[i]);
      ShortBounds(d.book[i].entryFee - e.entryFee, e.quantity, d.book[i].entryFee,
                  OpenedFee(d, e.orderId), OpenedQuantity(d, e.orderId));
    }
    LastCloseAccounts(d2, e, wiped);
  }

  lemma {:induction false} LastCloseAccounts(d: Desk, e: Event, wiped: seq<Position>)
    requires d.events != [] && d.events[|d.events| - 1] == e && e.PositionClosed? && e.orderId !in Ids(d.book)
    requires e.cause == Netting ==>
      && 0.0 <= Gap(d, e.orderId, wiped)
      && Within(Gap(d, e.orderId, wiped), OpenedQuantity(d, e.orderId), OpenedFee(d, e.orderId))
      && Within(Gap(d, e.orderId, wiped), e.quantity, OpenedFee(d, e.orderId))
    ensures Accounted(d, e.orderId, wiped)
  {
    assert LastCloseAt(d.events, e.orderId, |d.events| - 1);
  }

  /** A partial close splits the fee exactly between the booked chunk and the shrunken lot. */
  lemma {:induction false} PartialFeeExact(m: Match, fill: Fill, dropped: Option<real>)
    requires GoodMatch(m) && !m.full && m.lot.entryFee >= 0.0
    ensures MatchEvent(m, fill, dropped).entryFee + Shrunk(m).entryFee == m.lot.entryFee
    ensures 0.0 <= MatchEvent(m, fill, dropped).entryFee && 0.0 <= Shrunk(m).entryFee
    ensures Proportional(Shrunk(m).entryFee, Shrunk(m).quantity, m.lot.entryFee, m.lot.quantity)
  {
  }

  /** A full close books all of the fee but a share of at most EPS / quantity of it. */
  lemma {:induction false} FullFeeBound(m: Match, fill: Fill, dropped: Option<real>)
    requires GoodMatch(m) && m.full && m.lot.entryFee >= 0.0
    ensures Chunked(m.lot, MatchEvent(m, fill, dropped))
  {
  }

  lemma {:induction false} EvenKept(d: Desk, d2: Desk)
    requires d2.openings == d.openings && forall p <- d2.book :: p in d.book
    requires forall p <- d.book :: Even(d, p)
    ensures forall p <- d2.book :: Even(d2, p)
  {
    forall p <- d2.book ensures Even(d2, p) {
      assert Even(d, p);
    }
  }

  lemma {:induction false} EvenLeft(s: Position, p: Position, paid: real, whole: real)
    requires p.quantity > 0.0 && Proportional(s.entryFee, s.quantity, p.entryFee, p.quantity)
    requires p.entryFee == 0.0 || Proportional(p.entryFee, p.quantity, paid, whole)
    ensures s.entryFee == 0.0 || Proportional(s.entryFee, s.quantity, paid, whole)
  {
    if p.entryFee == 0.0 {
      Cancel(s.entryFee, 0.0, p.quantity);
    } else {
      ProportionalTrans(s.entryFee, s.quantity, p.entryFee, p.quantity, paid, whole);
    }
  }

  lemma {:induction false} EvenShrunk(d: Desk, i: nat, s: Position, d2: Desk)
    requires i < |d.book| && d.book[i].quantity > 0.0 && s.id == d.book[i].id
    requires d2.openings == d.openings && d2.book == d.book[i := s]
    requires Proportional(s.entryFee, s.quantity, d.book[i].entryFee, d.book[i].quantity)
    requires forall p <- d.book :: Even(d, p)
    ensures forall p <- d2.book :: Even(d2, p)
  {
    assert Even(d, d.book[i]);
    EvenLeft(s, d.book[i], OpenedFee(d, s.id), OpenedQuantity(d, s.id));
    forall p <- d2.book ensures Even(d2, p) {
      assert p == s || Even(d, p);
    }
  }

  lemma {:induction false} AccountedAfterShrink(d: Desk, i: nat, s: Position, e: Event, d2: Desk, id: string, wiped: seq<Position>)
    requires FeeInv(d, wiped) && i < |d.book| && s.id == d.book[i].id
    requires e.PositionClosed? && e.orderId == s.id && e.entryFee + s.entryFee == d.book[i].entryFee
    requires d2.events == d.events + [e] && d2.openings == d.openings
    requires d2.book == d.book[i := s] && Ids(d2.book) == Ids(d.book)
    requires id in Ids(d.openings)
    ensures Accounted(d2, id, wiped)
  {
    SumByUpdateAt(d.book, i, s, LotFee(id));
    assert Accounted(d, id, wiped);
    if id != s.id {
      OtherAccounted(d, d2, e, id, wiped);
    } else {
      assert id in Ids(d.book);
      GapAfter(d, d2, e, id, wiped);
    }
  }

  lemma {:induction false} UpdatedFees(book: seq<Position>, i: nat, s: Position)
    requires i < |book| && s.entryFee >= 0.0 && forall p <- book :: p.entryFee >= 0.0
    ensures forall p <- book[i := s] :: p.entryFee >= 0.0
  {
  }

  lemma {:induction false} FeeShrinkOn(d: Desk, i: nat, s: Position, e: Event, d2: Desk, wiped: seq<Position>)
    requires Healthy(d) && FeeInv(d, wiped) && i < |d.book| && s.id == d.book[i].id
    requires e.PositionClosed? && e.orderId == s.id && e.entryFee + s.entryFee == d.book[i].entryFee
    requires 0.0 <= e.entryFee && 0.0 <= s.entryFee
    requires Proportional(s.entryFee, s.quantity, d.book[i].entryFee, d.book[i].quantity)
    requires d2.events == d.events + [e] && d2.openings == d.openings
    requires d2.book == d.book[i := s] && Ids(d2.book) == Ids(d.book)
    ensures FeeInv(d2, wiped)
  {
    assert d.book[i].id in Ids(d.book);
    UpdatedFees(d.book, i, s);
    FeesAfter(d, d2, e, wiped);
    EvenShrunk(d, i, s, d2);
    AllAccountedAfterShrink(d, i, s, e, d2, wiped);
  }

  lemma {:induction false} AllAccountedAfterShrink(d: Desk, i: nat, s: Position, e: Event, d2: Desk, wiped: seq<Position>)
    requires FeeInv(d, wiped) && i < |d.book| && s.id == d.book[i].id
    requires e.PositionClosed? && e.orderId == s.id && e.entryFee + s.entryFee == d.book[i].entryFee
    requires d2.events == d.events + [e] && d2.openings == d.openings
    requires d2.book == d.book[i := s] && Ids(d2.book) == Ids(d.book)
    ensures forall id <- Ids(d2.openings) :: Accounted(d2, id, wiped)
  {
    forall id <- Ids(d2.openings) ensures Accounted(d2, id, wiped) {
      AccountedAfterShrink(d, i, s, e, d2, id, wiped);
    }
  }

  lemma {:induction false} ShrunkBook(d: Desk, i: nat, m: Match, fill: Fill, dropped: Option<real>)
    requires Healthy(d) && i < |d.book| && d.book[i] == m.lot && GoodMatch(m) && !m.full
    ensures var d2 := SettleMatch(d, m, fill, dropped);
      && d2.events == d.events + [MatchEvent(m, fill, dropped)] && d2.openings == d.openings
      && d2.book == d.book[i := Shrunk(m)] && Ids(d2.book) == Ids(d.book)
  {
    ShrinkLot(d, i, m, fill, dropped);
    SettleMatchEvents(d, m, fill, dropped);
    PutIds(d.book, Shrunk(m));
    assert d.book[i].id in Ids(d.book);
  }

  lemma {:induction false} FeeShrink(d: Desk, i: nat, m: Match, fill: Fill, dropped: Option<real>, wiped: seq<Position>)
    requires Healthy(d) && FeeInv(d, wiped) && i < |d.book| && d.book[i] == m.lot && GoodMatch(m) && !m.full
    ensures FeeInv(SettleMatch(d, m, fill, dropped), wiped)
  {
    var d2 := SettleMatch(d, m, fill, dropped);
    ShrunkBook(d, i, m, fill, dropped);
    PartialFeeExact(m, fill, dropped);
    FeeShrinkOn(d, i, Shrunk(m), MatchEvent(m, fill, dropped), d2, wiped);
  }

  lemma {:induction false} FeeMatch(d: Desk, i: nat, m: Match, fill: Fill, dropped: Option<real>, wiped: seq<Position>)
    requires Healthy(d) && FeeInv(d, wiped) && i < |d.book| && d.book[i] == m.lot && GoodMatch(m)
    ensures FeeInv(SettleMatch(d, m, fill, dropped), wiped)
  {
    if m.full {
      FullFeeBound(m, fill, dropped);
      FeeClose(d, i, MatchEvent(m, fill, dropped), fill.tripTime, wiped);
    } else {
      FeeShrink(d, i, m, fill, dropped, wiped);
    }
  }

  lemma {:induction false} FeeSettle(d: Desk, plan: seq<Match>, fill: Fill, dropped: Option<real>, wiped: seq<Position>)
    requires Healthy(d) && FeeInv(d, wiped) && GoodPlan(plan, d.book)
    ensures FeeInv(Settle(d, plan, fill, dropped), wiped)
    ensures Settle(d, plan, fill, dropped).openings == d.openings
    decreases plan
  {
    if plan != [] {
      var drop := if |plan| == 1 then dropped else None;
      var d1 := SettleMatch(d, plan[0], fill, drop);
      var i := PlanHead(plan, d.book);
      SettleMatchKeeps(d, i, plan[0], fill, drop);
      FeeMatch(d, i, plan[0], fill, drop, wiped);
      PlanRest(d.book, i, plan, d1.book);
      FeeSettle(d1, plan[1..], fill, dropped, wiped);
    }
  }

  lemma {:induction false} FeeExits(d: Desk, lots: seq<Position>, price: real, now: real, wiped: seq<Position>)
    requires Healthy(d) && FeeInv(d, wiped) && Drawn(lots, d.book)
    ensures FeeInv(ExitLots(d, lots, price, now), wiped)
    ensures ExitLots(d, lots, price, now).openings == d.openings
    decreases lots
  {
    if lots != [] {
      var i :| 0 <= i < |d.book| && d.book[i] == lots[0];
      var e := CloseEvent(lots[0], ExitPrice(lots[0], price).GetOr(0.0), 0.0, 0.0, lots[0].quantity, None, StopExit);
      var d1 := ExitLot(d, lots[0], price, now);
      CloseLot(d, i, e, now);
      assert Chunked(d.book[i], e);
      FeeClose(d, i, e, now, wiped);
      DrawnRest(lots, d.book, i, lots[0], d1.book);
      FeeExits(d1, lots[1..], price, now, wiped);
    }
  }

  lemma {:induction false} FeeLog(d: Desk, e: Event, wiped: seq<Position>)
    requires FeeInv(d, wiped) && !e.PositionClosed?
    ensures FeeInv(d.(events := d.events + [e]), wiped)
  {
    var d2 := d.(events := d.events + [e]);
    EvenKept(d, d2);
    forall id <- Ids(d2.openings) ensures Accounted(d2, id, wiped) {
      SumBySnoc(d.events, e, ChunkOf(id));
      StillAccounted(d, d2, id, wiped);
    }
  }

  lemma {:induction false} OpeningIds(openings: seq<Position>, p: Position)
    ensures Ids(openings + [p]) == Ids(openings) + {p.id}
  {
    var all := openings + [p];
    assert all[|openings|] == p;
    forall id | id in Ids(openings) ensures id in Ids(all) {
      var k :| 0 <= k < |openings| && openings[k].id == id;
      assert all[k] == openings[k];
    }
  }

  lemma {:induction false} FeeOpen(d: Desk, p: Position, wiped: seq<Position>)
    requires Healthy(d) && FeeInv(d, wiped) && p.id !in Ids(d.openings) && p.entryFee >= 0.0 && p.quantity > 0.0
    ensures FeeInv(OpenLot(d, p), wiped)
  {
    PutFresh(d.book, p);
    OpeningIds(d.book, p);
    OpeningIds(d.openings, p);
    FeeOpenOn(d, p, OpenLot(d, p), wiped);
  }

  lemma {:induction false} EvenAfterOpen(d: Desk, p: Position, d2: Desk, x: Position, wiped: seq<Position>)
    requires FeeInv(d, wiped) && p.id !in Ids(d.openings) && d2.openings == d.openings + [p]
    requires x == p || x in d.book
    ensures Even(d2, x)
  {
    SumBySnoc(d.openings, p, LotFee(x.id));
    SumBySnoc(d.openings, p, LotQuantity(x.id));
    if x == p {
      HeldNone(d.openings, p.id);
      SizeNone(d.openings, p.id);
    } else {
      var k :| 0 <= k < |d.book| && d.book[k] == x;
      assert x.id in Ids(d.book);
      assert Even(d, x);
    }
  }

  lemma {:induction false} FeeOpenOn(d: Desk, p: Position, d2: Desk, wiped: seq<Position>)
    requires FeeInv(d, wiped) && p.id !in Ids(d.openings) && p.entryFee >= 0.0 && p.quantity > 0.0
    requires d2.events == d.events && d2.book == d.book + [p] && d2.openings == d.openings + [p]
    requires Ids(d2.book) == Ids(d.book) + {p.id} && Ids(d2.openings) == Ids(d.openings) + {p.id}
    ensures FeeInv(d2, wiped)
  {
    forall x <- d2.book ensures Even(d2, x) {
      EvenAfterOpen(d, p, d2, x, wiped);
    }
    forall id <- Ids(d2.openings) ensures Accounted(d2, id, wiped) {
      SumBySnoc(d.book, p, LotFee(id));
      SumBySnoc(d.openings, p, LotQuantity(id));
      SumBySnoc(d.openings, p, LotFee(id));
      if id == p.id {
        NeverOpened(d, id, wiped);
      } else {
        StillAccounted(d, d2, id, wiped);
      }
    }
  }

  lemma {:induction false} NeverOpened(d: Desk, id: string, wiped: seq<Position>)
    requires FeeInv(d, wiped) && id !in Ids(d.openings)
    ensures Gap(d, id, wiped) == 0.0
  {
    HeldNone(d.openings, id);
    HeldNone(d.book, id);
    SumZero(d.events, ChunkOf(id));
    SumZero(wiped, LotFee(id));
  }

  // ------------------------------------------------------------------- runs

  lemma {:induction false} FeeMatchOrOpen(d: Desk, fill: Fill, wiped: seq<Position>)
    requires Healthy(d) && FeeInv(d, wiped) && fill.quantity > 0.0 && fill.fee >= 0.0
    requires fill.orderId !in Ids(d.openings)
    ensures FeeInv(MatchOrOpen(d, fill), wiped)
  {
    var (plan, left) := Plan(Candidates(d.book, fill), fill.quantity);
    var settled := Settle(d, plan, fill, Dropped(fill, left));
    PlanGood(d.book, fill);
    NettingKeeps(d, fill);
    FeeSettle(d, plan, fill, Dropped(fill, left), wiped);
    if left > EPS && fill.side == Buy {
      ResidueFee(fill, left);
      FeeOpen(settled, NewLot(fill, Residual(left)), wiped);
    } else if left > EPS && plan == [] {
      FeeLog(settled, SellResidualDropped(fill.orderId, fill.symbol, Residual(left)), wiped);
    }
  }

  lemma {:induction false} ResidueFee(fill: Fill, left: real)
    requires fill.quantity > 0.0 && fill.fee >= 0.0 && left > EPS
    ensures NewLot(fill, Residual(left)).entryFee >= 0.0
  {
  }

  lemma {:induction false} FeeCycle(d: Desk, cfg: Config, x: CycleInput, wiped: seq<Position>)
    requires Healthy(d) && FeeInv(d, wiped)
    requires x.execution.orderId !in Ids(d.openings) && x.execution.fee >= 0.0
    ensures FeeInv(Cycle(d, cfg, x).0, wiped)
  {
    if !Blocks(d.breaker, x.startTime) {
      ReadBreakerKeeps(d, x.startTime);
      var ready := ReadBreaker(d, x.startTime);
      SameLedgerFees(d, ready, wiped);
      if !(x.stub && !x.allowStub) {
        var n := ManagedKeeps(ready, x);
        var managed := Managed(ready, x);
        FilterDrawn(ready.book, Hit(x.symbol, x.entryPrice));
        if x.entryPrice > 0.0 {
          FeeExits(ready, Triggered(ready.book, x.symbol, x.entryPrice), x.entryPrice, x.tripTime, wiped);
        }
        FeeLogFill(managed, FillOf(cfg, x), wiped);
      }
    }
  }

  lemma {:induction false} FeeLogFill(d: Desk, fill: Fill, wiped: seq<Position>)
    requires Healthy(d) && FeeInv(d, wiped) && fill.fee >= 0.0 && fill.orderId !in Ids(d.openings)
    ensures FeeInv(LogFill(d, fill), wiped)
  {
    if fill.quantity > 0.0 && fill.price > 0.0 {
      var e := FillLogged(fill.orderId, fill.symbol, fill.side, fill.price, fill.quantity, fill.fee);
      LogOnly(d, e);
      FeeLog(d, e, wiped);
      FeeMatchOrOpen(d.(events := d.events + [e]), fill, wiped);
    }
  }

  lemma {:induction false} SameLedgerFees(d: Desk, d2: Desk, wiped: seq<Position>)
    requires FeeInv(d, wiped) && d2.book == d.book && d2.events == d.events && d2.openings == d.openings
    ensures FeeInv(d2, wiped)
  {
    EvenKept(d, d2);
    forall id <- Ids(d2.openings) ensures Accounted(d2, id, wiped) {
      StillAccounted(d, d2, id, wiped);
    }
  }

  // --------------------------------------------------------------- restarts

  lemma {:induction false} ZeroFeesHoldNone(book: seq<Position>, id: string)
    ensures SumBy(ZeroFees(book), LotFee(id)) == 0.0
  {
    forall p <- ZeroFees(book) ensures LotFee(id)(p) == 0.0 {
    }
    SumZero(ZeroFees(book), LotFee(id));
  }

  lemma {:induction false} ReloadedFees(book: seq<Position>, b2: seq<Position>)
    requires multiset(b2) == multiset(ZeroFees(book))
    ensures forall p <- b2 :: p.entryFee == 0.0
    ensures forall id :: SumBy(b2, LotFee(id)) == 0.0
  {
    forall p <- b2 ensures p.entryFee == 0.0 {
      assert p in multiset(ZeroFees(book));
      var j :| 0 <= j < |book| && ZeroFees(book)[j] == p;
    }
    forall id ensures SumBy(b2, LotFee(id)) == 0.0 {
      SumByPermute(b2, ZeroFees(book), LotFee(id));
      ZeroFeesHoldNone(book, id);
    }
  }

  /** A restart moves exactly the fee each lot still held to the wiped ones. */
  lemma {:induction false} RestartGap(d: Desk, order: seq<string>, id: string, wiped: seq<Position>)
    requires Healthy(d) && IsRowOrder(d.table, order)
    ensures var d2 := Restart(d, order);
      HeldFee(d2, id) == 0.0 && Gap(d2, id, wiped) == Gap(d, id, wiped) + HeldFee(d, id)
      && Gap(d2, id, wiped + d.book) == Gap(d, id, wiped)
  {
    RestartBook(d, order);
    ReloadedFees(d.book, Loaded(d.table, order));
    SumByConcat(wiped, d.book, LotFee(id));
  }

  lemma {:induction false} RestartIds(d: Desk, order: seq<string>)
    requires Healthy(d) && IsRowOrder(d.table, order)
    ensures Ids(Restart(d, order).book) == Ids(d.book)
  {
    RestartBook(d, order);
  }

  lemma {:induction false} FeeRestart(d: Desk, order: seq<string>, wiped: seq<Position>)
    requires Healthy(d) && FeeInv(d, wiped) && IsRowOrder(d.table, order)
    ensures FeeInv(Restart(d, order), wiped + d.book)
  {
    RestartBook(d, order);
    ReloadedFees(d.book, Loaded(d.table, order));
    RestartIds(d, order);
    WipedFees(d, wiped);
    RestartFees(d, Restart(d, order), order, wiped);
  }

  lemma {:induction false} WipedFees(d: Desk, wiped: seq<Position>)
    requires FeeInv(d, wiped)
    ensures forall p <- wiped + d.book :: p.entryFee >= 0.0 && p.id in Ids(d.openings)
  {
    forall p <- d.book ensures p.id in Ids(d.openings) {
      var k :| 0 <= k < |d.book| && d.book[k] == p;
      assert p.id in Ids(d.book);
    }
  }

  lemma {:induction false} RestartFees(d: Desk, d2: Desk, order: seq<string>, wiped: seq<Position>)
    requires Healthy(d) && FeeInv(d, wiped) && IsRowOrder(d.table, order) && d2 == Restart(d, order)
    requires Ids(d2.book) == Ids(d.book) && forall p <- d2.book :: p.entryFee == 0.0
    requires forall p <- wiped + d.book :: p.entryFee >= 0.0 && p.id in Ids(d.openings)
    ensures FeeInv(d2, wiped + d.book)
  {
    forall id <- Ids(d2.openings) ensures Accounted(d2, id, wiped + d.book) {
      assert Accounted(d, id, wiped);
      RestartGap(d, order, id, wiped);
      SameAccount(d, d2, id, wiped, wiped + d.book);
    }
  }

  lemma {:induction false} SameAccount(d: Desk, d2: Desk, id: string, wiped: seq<Position>, more: seq<Position>)
    requires d2.events == d.events && d2.openings == d.openings && Gap(d2, id, more) == Gap(d, id, wiped)
    requires id in Ids(d2.book) <==> id in Ids(d.book)
    requires Accounted(d, id, wiped)
    ensures Accounted(d2, id, more)
  {
  }

  // ------------------------------------------------------------- whole runs

  /** Fees are nonnegative and every fill has an id of its own. */
  ghost predicate FeeRun(d: Desk, cfg: Config, steps: seq<Step>)
    requires PossibleRun(d, cfg, steps)
    decreases steps
  {
    steps == [] ||
    (&& (steps[0].CycleStep? ==>
           && steps[0].input.execution.orderId !in Ids(d.openings)
           && steps[0].input.execution.fee >= 0.0)
     && FeeRun(Next(d, cfg, steps[0]), cfg, steps[1..]))
  }

  /** The lots as each restart of the run found them, whose fees it wiped. */
  function Wiped(d: Desk, cfg: Config, steps: seq<Step>): seq<Position>
    requires PossibleRun(d, cfg, steps)
    decreases steps
  {
    if steps == [] then []
    else (if steps[0].RestartStep? then d.book else []) + Wiped(Next(d, cfg, steps[0]), cfg, steps[1..])
  }

  lemma {:induction false} StepFees(d: Desk, cfg: Config, s: Step, wiped: seq<Position>)
    requires Healthy(d) && FeeInv(d, wiped) && Possible(d, s)
    requires s.CycleStep? ==> s.input.execution.orderId !in Ids(d.openings) && s.input.execution.fee >= 0.0
    ensures Healthy(Next(d, cfg, s))
    ensures FeeInv(Next(d, cfg, s), wiped + (if s.RestartStep? then d.book else []))
  {
    assert wiped + [] == wiped;
    match s {
      case CycleStep(x) =>
        FeeCycle(d, cfg, x, wiped);
        var n := CycleKeeps(d, cfg, x);
      case DailyResetStep(now) =>
        SameLedgerFees(d, DailyReset(d, now), wiped);
      case RestartStep(order) =>
        FeeRestart(d, order, wiped);
        RestartRestores(d, order, 0.0);
    }
  }

  /** Over whole runs, restarts included: an open lot's booked chunks, the fee still on it and the
      fee restarts wiped off it are exactly what it opened with; a lot that left by netting was
      booked in full but for what restarts wiped and at most fee * EPS / quantity, with the fee
      and the quantity it opened with; only a stop/TP exit drops the rest. */
  lemma {:induction false} RunFees(d: Desk, cfg: Config, steps: seq<Step>, wiped: seq<Position>)
    requires Healthy(d) && FeeInv(d, wiped) && PossibleRun(d, cfg, steps) && FeeRun(d, cfg, steps)
    ensures FeeInv(Run(d, cfg, steps), wiped + Wiped(d, cfg, steps))
    decreases steps
  {
    if steps == [] {
      assert wiped + [] == wiped;
    } else {
      var first := if steps[0].RestartStep? then d.book else [];
      var d1 := Next(d, cfg, steps[0]);
      StepFees(d, cfg, steps[0], wiped);
      RunFees(d1, cfg, steps[1..], wiped + first);
      SeqAssoc(wiped, first, Wiped(d1, cfg, steps[1..]));
    }
  }

  lemma {:induction false} EmptyRunFees(cfg: Config, steps: seq<Step>, id: string)
    requires PossibleRun(EMPTY_DESK, cfg, steps) && FeeRun(EMPTY_DESK, cfg, steps)
    requires id in Ids(Run(EMPTY_DESK, cfg, steps).openings)
    ensures Accounted(Run(EMPTY_DESK, cfg, steps), id, Wiped(EMPTY_DESK, cfg, steps))
  {
    RunFees(EMPTY_DESK, cfg, steps, []);
    assert [] + Wiped(EMPTY_DESK, cfg, steps) == Wiped(EMPTY_DESK, cfg, steps);
  }
}
