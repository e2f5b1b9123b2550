/** What the ledger says of every close: which lot, at which price, for which quantity and with
    which fees, for one fill, one stop/target check and whole histories. */
module DeskLedger {
  import opened Lists
  import opened TradingDesk
  import opened DeskInvariants
  import opened DeskCycle
  import opened DeskRestart
  import opened DeskBreaker
  import opened DeskCollisions

  // ---------------------------------------------------------- the FIFO queue

  /** A lot the fill can net: same symbol, other side. */
  function Against(fill: Fill): Position -> bool {
    (p: Position) => p.symbol == fill.symbol && p.side != fill.side
  }

  lemma {:induction false} FilterSame<T>(xs: seq<T>, p: T -> bool, q: T -> bool)
    requires forall x <- xs :: p(x) == q(x)
    ensures Filter(xs, p) == Filter(xs, q)
  {
    if xs != [] {
      FilterSame(xs[1..], p, q);
    }
  }

  /** The lots a fill meets: those it can net, oldest first, lots of one age in book order. */
  lemma {:induction false} QueueIsFifo(book: seq<Position>, fill: Fill)
    ensures var queue := Candidates(book, fill);
      && SortedBy(queue, OpenedAt) && multiset(queue) == multiset(Filter(book, Against(fill)))
      && forall t: real :: WithKey(queue, OpenedAt, t) == WithKey(Filter(book, Against(fill)), OpenedAt, t)
  {
    FilterSame(book, IsLot(fill.symbol, Opposite(fill.side)), Against(fill));
    var lots := Lots(book, fill.symbol, Opposite(fill.side));
    forall t: real ensures WithKey(StableSort(lots, OpenedAt), OpenedAt, t) == WithKey(lots, OpenedAt, t) {
      StableSortKeepsTies(lots, OpenedAt, t);
    }
  }

  /** What is left of the quantity when the first `k` lots have been taken whole. */
  function LeftAfter(lots: seq<Position>, quantity: real, k: nat): real
    requires k <= |lots|
  {
    quantity - SumBy(lots[..k], Quantity)
  }

  /** The quantity runs out, up to EPS, after exactly `m` lots, or they are all there are. */
  ghost predicate Meets(lots: seq<Position>, quantity: real, m: nat) {
    && m <= |lots| && (forall k :: 0 <= k < m ==> LeftAfter(lots, quantity, k) > EPS)
    && (m < |lots| ==> LeftAfter(lots, quantity, m) <= EPS)
  }

  lemma {:induction false} LeftAfterRest(lots: seq<Position>, quantity: real, k: nat)
    requires 0 < k <= |lots|
    ensures LeftAfter(lots, quantity, k) == LeftAfter(lots[1..], quantity - lots[0].quantity, k - 1)
  {
    assert lots[..k][0] == lots[0] && lots[..k][1..] == lots[1..][..k - 1];
  }

  lemma {:induction false} MeetsRest(lots: seq<Position>, quantity: real, m: nat)
    requires lots != [] && quantity > EPS && Meets(lots[1..], quantity - lots[0].quantity, m)
    ensures Meets(lots, quantity, m + 1)
  {
    forall k | 0 <= k < m + 1 ensures LeftAfter(lots, quantity, k) > EPS {
      if k > 0 {
        LeftAfterRest(lots, quantity, k);
      }
    }
    LeftAfterRest(lots, quantity, m + 1);
  }

  /** Match `k` of a plan takes what the first `k` lots left over, or the whole lot. */
  ghost predicate Takes(m: Match, lots: seq<Position>, quantity: real, k: nat)
    requires k < |lots|
  {
    && m.lot == lots[k] && m.matched == Min(LeftAfter(lots, quantity, k), lots[k].quantity)
    && (m.full <==> LeftAfter(lots, quantity, k) >= lots[k].quantity - EPS)
  }

  ghost predicate PlanTakes(plan: seq<Match>, left: real, lots: seq<Position>, quantity: real) {
    && Meets(lots, quantity, |plan|) && left == Max(LeftAfter(lots, quantity, |plan|), 0.0)
    && forall k :: 0 <= k < |plan| ==> Takes(plan[k], lots, quantity, k)
  }

  /** The FIFO plan in closed form: prefix sums of the queue say everything about it. */
  lemma {:induction false} PlanIs(lots: seq<Position>, quantity: real)
    requires quantity >= 0.0 && forall i :: 0 <= i < |lots| ==> lots[i].quantity > 0.0
    ensures PlanTakes(Plan(lots, quantity).0, Plan(lots, quantity).1, lots, quantity)
  {
    if lots != [] && quantity > EPS {
      var q := lots[0].quantity;
      if quantity >= q {
        PlanIs(lots[1..], quantity - q);
        PlanIsCons(lots, quantity, Plan(lots[1..], quantity - q).0, Plan(lots[1..], quantity - q).1);
      } else {
        assert Plan(lots[1..], 0.0) == ([], 0.0);
        LeftAfterRest(lots, quantity, 1);
      }
    }
  }

  lemma {:induction false} PlanIsCons(lots: seq<Position>, quantity: real, rest: seq<Match>, left: real)
    requires lots != [] && quantity > EPS && quantity >= lots[0].quantity
    requires PlanTakes(rest, left, lots[1..], quantity - lots[0].quantity)
    ensures PlanTakes([Match(lots[0], lots[0].quantity, true)] + rest, left, lots, quantity)
  {
    MeetsRest(lots, quantity, |rest|);
    LeftAfterRest(lots, quantity, |rest| + 1);
    var plan := [Match(lots[0], lots[0].quantity, true)] + rest;
    forall k | 0 <= k < |plan| ensures Takes(plan[k], lots, quantity, k) {
      if k > 0 {
        LeftAfterRest(lots, quantity, k);
        assert Takes(rest[k - 1], lots[1..], quantity - lots[0].quantity, k - 1);
      }
    }
  }

  // ------------------------------------------------------- the closes of a fill

  /** What the fill takes from lot `k` of its queue, and what the close of that lot books: the
      whole lot when no more than EPS of it would stay. */
  function Taken(lots: seq<Position>, quantity: real, k: nat): real
    requires k < |lots|
  {
    Min(LeftAfter(lots, quantity, k), lots[k].quantity)
  }

  function ClosedOf(lots: seq<Position>, quantity: real, k: nat): real
    requires k < |lots|
  {
    var left := LeftAfter(lots, quantity, k);
    if left >= lots[k].quantity - EPS then lots[k].quantity else left
  }

  /** The close of lot `k`: the lot's own side, symbol and entry price, at the fill's price, with
      the two fees in proportion to what was taken. */
  ghost predicate ClosesLotAt(e: Event, lots: seq<Position>, fill: Fill, k: nat, dropped: Option<real>)
    requires k < |lots| && lots[k].quantity > 0.0 && fill.quantity > 0.0
  {
    var p := lots[k];
    var taken := Taken(lots, fill.quantity, k);
    e == PositionClosed(p.id, p.symbol, p.side, p.entryPrice, fill.price, ClosedOf(lots, fill.quantity, k),
                        p.entryFee * (taken / p.quantity), fill.fee * (taken / fill.quantity), dropped, Netting)
  }

  /** The SELL quantity no lot could take, which the last close records. */
  function Unsold(lots: seq<Position>, fill: Fill, m: nat): Option<real>
    requires m <= |lots|
  {
    var left := LeftAfter(lots, fill.quantity, m);
    if fill.side == Sell && left > EPS then Some(left) else None
  }

  lemma {:induction false} PlanEventsAt(plan: seq<Match>, fill: Fill, dropped: Option<real>)
    ensures |PlanEvents(plan, fill, dropped)| == |plan|
    ensures forall k :: 0 <= k < |plan| ==>
              PlanEvents(plan, fill, dropped)[k] == MatchEvent(plan[k], fill, if k == |plan| - 1 then dropped else None)
  {
    if plan != [] {
      PlanEventsAt(plan[1..], fill, dropped);
    }
  }

  lemma {:induction false} MatchCloses(m: Match, lots: seq<Position>, fill: Fill, k: nat, dropped: Option<real>)
    requires k < |lots| && lots[k].quantity > 0.0 && fill.quantity > 0.0 && Takes(m, lots, fill.quantity, k)
    ensures ClosesLotAt(MatchEvent(m, fill, dropped), lots, fill, k, dropped)
  {
  }

  /** The closes a fill books, in closed form. It meets the first `m` lots of its queue, until its
      quantity has run out; each close is the lot's own, at the price of the fill. */
  ghost predicate ClosesQueue(more: seq<Event>, lots: seq<Position>, fill: Fill, m: nat)
    requires fill.quantity > 0.0 && forall i :: 0 <= i < |lots| ==> lots[i].quantity > 0.0
  {
    && Meets(lots, fill.quantity, m) && m <= |more|
    && forall k :: 0 <= k < m ==>
         ClosesLotAt(more[k], lots, fill, k, if k == m - 1 then Unsold(lots, fill, m) else None)
  }

  lemma {:induction false} PlanCloses(lots: seq<Position>, fill: Fill, plan: seq<Match>, left: real)
    requires fill.quantity > 0.0 && forall i :: 0 <= i < |lots| ==> lots[i].quantity > 0.0
    requires PlanTakes(plan, left, lots, fill.quantity)
    ensures ClosesQueue(PlanEvents(plan, fill, Dropped(fill, left)), lots, fill, |plan|)
  {
    var m := |plan|;
    var more := PlanEvents(plan, fill, Dropped(fill, left));
    PlanEventsAt(plan, fill, Dropped(fill, left));
    assert Dropped(fill, left) == Unsold(lots, fill, m);
    forall k | 0 <= k < m
      ensures ClosesLotAt(more[k], lots, fill, k, if k == m - 1 then Unsold(lots, fill, m) else None)
    {
      assert Takes(plan[k], lots, fill.quantity, k);
      MatchCloses(plan[k], lots, fill, k, if k == m - 1 then Unsold(lots, fill, m) else None);
    }
  }

  /** The records of a fill: its closes, and the audit of a SELL that met no lot at all. */
  ghost predicate BooksQueue(more: seq<Event>, lots: seq<Position>, fill: Fill, m: nat) {
    && fill.quantity > 0.0 && (forall i :: 0 <= i < |lots| ==> lots[i].quantity > 0.0)
    && ClosesQueue(more, lots, fill, m)
    && more[m..] == (if m == 0 && Unsold(lots, fill, m).Some?
                     then [SellResidualDropped(fill.orderId, fill.symbol, Unsold(lots, fill, m).value)] else [])
  }

  lemma {:induction false} PlanBooks(lots: seq<Position>, fill: Fill, plan: seq<Match>, left: real, audit: seq<Event>)
    requires fill.quantity > 0.0 && forall i :: 0 <= i < |lots| ==> lots[i].quantity > 0.0
    requires PlanTakes(plan, left, lots, fill.quantity)
    requires audit == (if left > EPS && fill.side == Sell && plan == []
                       then [SellResidualDropped(fill.orderId, fill.symbol, left)] else [])
    ensures BooksQueue(PlanEvents(plan, fill, Dropped(fill, left)) + audit, lots, fill, |plan|)
  {
    var closes := PlanEvents(plan, fill, Dropped(fill, left));
    var m := |plan|;
    PlanCloses(lots, fill, plan, left);
    PlanEventsAt(plan, fill, Dropped(fill, left));
    var more := closes + audit;
    assert more[m..] == audit;
    forall k | 0 <= k < m
      ensures ClosesLotAt(more[k], lots, fill, k, if k == m - 1 then Unsold(lots, fill, m) else None)
    {
      assert more[k] == closes[k];
    }
  }

  /** Everything a fill writes to the ledger, in closed form. */
  lemma {:induction false} FifoCloses(d: Desk, fill: Fill) returns (m: nat, more: seq<Event>)
    requires Keyed(d.book) && Sized(d.book) && fill.quantity > 0.0
    ensures MatchOrOpen(d, fill).events == d.events + more
    ensures BooksQueue(more, Candidates(d.book, fill), fill, m)
  {
    var queue := Candidates(d.book, fill);
    var (plan, left) := Plan(queue, fill.quantity);
    CandidatesGood(d.book, fill);
    PlanIs(queue, fill.quantity);
    var audit := if left > EPS && fill.side == Sell && plan == []
                 then [SellResidualDropped(fill.orderId, fill.symbol, left)] else [];
    PlanBooks(queue, fill, plan, left, audit);
    FifoEvents(d, fill);
    m, more := |plan|, PlanEvents(plan, fill, Dropped(fill, left)) + audit;
    SeqAssoc(d.events, PlanEvents(plan, fill, Dropped(fill, left)), audit);
  }

  lemma {:induction false} ProceedsAtPrice(es: seq<Event>, price: real)
    requires forall i :: 0 <= i < |es| && es[i].PositionClosed? ==> es[i].exitPrice == price
    ensures SumBy(es, Proceeds) == price * SumBy(es, QuantityClosed)
  {
    if es != [] {
      ProceedsAtPrice(es[1..], price);
      assert Proceeds(es[0]) == price * QuantityClosed(es[0]);
    }
  }

  function QuantityClosed(e: Event): real { if e.PositionClosed? then e.quantity else 0.0 }

  lemma {:induction false} QueueAtPrice(more: seq<Event>, lots: seq<Position>, fill: Fill, m: nat)
    requires BooksQueue(more, lots, fill, m)
    ensures forall i :: 0 <= i < |more| && more[i].PositionClosed? ==> more[i].exitPrice == fill.price
  {
    forall i | 0 <= i < |more| ensures more[i].PositionClosed? ==> more[i].exitPrice == fill.price {
      if i < m {
        assert ClosesLotAt(more[i], lots, fill, i, if i == m - 1 then Unsold(lots, fill, m) else None);
      } else {
        assert more[i] == more[m..][i - m];
      }
    }
  }

  lemma {:induction false} BooksProceeds(more: seq<Event>, lots: seq<Position>, fill: Fill, m: nat)
    requires BooksQueue(more, lots, fill, m)
    ensures SumBy(more, Proceeds) == fill.price * SumBy(more, QuantityClosed)
  {
    QueueAtPrice(more, lots, fill, m);
    ProceedsAtPrice(more, fill.price);
  }

  /** What a fill sells, it sells at its own price. */
  lemma {:induction false} FillProceeds(d: Desk, fill: Fill) returns (more: seq<Event>)
    requires Keyed(d.book) && Sized(d.book) && fill.quantity > 0.0
    ensures MatchOrOpen(d, fill).events == d.events + more
    ensures SumBy(more, Proceeds) == fill.price * SumBy(more, QuantityClosed)
  {
    var m;
    m, more := FifoCloses(d, fill);
    BooksProceeds(more, Candidates(d.book, fill), fill, m);
  }

  // ------------------------------------------------------- the lots after a fill

  /** What a fill leaves of lot `k` of its queue: less quantity, its fee in proportion, and
      nothing else changed. */
  ghost predicate Remains(p: Position, lots: seq<Position>, quantity: real, k: nat)
    requires k < |lots| && lots[k].quantity > 0.0
  {
    var left := lots[k].quantity - Taken(lots, quantity, k);
    && left > EPS
    && p == lots[k].(quantity := left, entryFee := lots[k].entryFee * (left / lots[k].quantity))
  }

  /** The lot a fill opens with what no lot of its queue could take. */
  ghost predicate Opens(p: Position, lots: seq<Position>, fill: Fill, m: nat)
    requires m <= |lots| && fill.quantity > 0.0
  {
    var left := LeftAfter(lots, fill.quantity, m);
    && fill.side == Buy && left > EPS
    && p == Position(fill.orderId, fill.symbol, Buy, fill.price, left, fill.stopLoss, fill.takeProfit,
                     fill.fee * (left / fill.quantity), fill.openedAt)
  }

  /** `p` is none of the first `m` lots of the queue. */
  ghost predicate Passed(p: Position, lots: seq<Position>, m: nat)
    requires m <= |lots|
  {
    forall k :: 0 <= k < m ==> lots[k] != p
  }

  /** `p` is what the fill leaves of `q`. */
  ghost predicate CutTo(p: Position, q: Position, lots: seq<Position>, quantity: real, m: nat)
    requires m <= |lots| && forall i :: 0 <= i < |lots| ==> lots[i].quantity > 0.0
  {
    exists k :: 0 <= k < m && lots[k] == q && Remains(p, lots, quantity, k)
  }

  ghost predicate NettedTo(p: Position, q: Position, lots: seq<Position>, quantity: real, m: nat)
    requires m <= |lots| && forall i :: 0 <= i < |lots| ==> lots[i].quantity > 0.0
  {
    (p == q && Passed(q, lots, m)) || CutTo(p, q, lots, quantity, m)
  }

  /** The lots of the book after a fill that met the first `m` lots of its queue: those it did not
      meet, what it left of the ones it met, and the one it opened. */
  ghost predicate HeldAfter(p: Position, book: seq<Position>, lots: seq<Position>, fill: Fill, m: nat)
    requires m <= |lots| && fill.quantity > 0.0 && forall i :: 0 <= i < |lots| ==> lots[i].quantity > 0.0
  {
    (exists i :: 0 <= i < |book| && NettedTo(p, book[i], lots, fill.quantity, m)) || Opens(p, lots, fill, m)
  }

  lemma {:induction false} NettedHit(p: Position, plan: seq<Match>, k: nat)
    requires k < |plan| && plan[k].lot.id == p.id && forall j :: 0 <= j < k ==> plan[j].lot.id != p.id
    ensures NettedLot(p, plan) == if plan[k].full then [] else [Shrunk(plan[k])]
  {
    if k > 0 {
      NettedHit(p, plan[1..], k - 1);
    }
  }

  lemma {:induction false} NettedMember(book: seq<Position>, plan: seq<Match>, p: Position)
    ensures p in NettedBook(book, plan) <==> exists i :: 0 <= i < |book| && p in NettedLot(book[i], plan)
  {
    if book != [] {
      NettedMember(book[1..], plan, p);
      assert forall i :: 0 < i < |book| ==> book[i] == book[1..][i - 1];
      assert forall i :: 0 <= i < |book| - 1 ==> book[1..][i] == book[i + 1];
    }
  }

  lemma {:induction false} ShrunkRemains(m: Match, lots: seq<Position>, quantity: real, k: nat, p: Position)
    requires k < |lots| && lots[k].quantity > 0.0 && Takes(m, lots, quantity, k)
    ensures !m.full && p == Shrunk(m) <==> Remains(p, lots, quantity, k)
  {
  }

  lemma {:induction false} SameLot(book: seq<Position>, p: Position, q: Position)
    requires Keyed(book) && p in book && q in book && p.id == q.id
    ensures p == q
  {
  }

  /** One lot of the book: gone, cut down or as it was, as the queue's prefix sums say. */
  lemma {:induction false} FateOf(book: seq<Position>, lots: seq<Position>, quantity: real, plan: seq<Match>, left: real,
                                  q: Position, p: Position)
    requires Keyed(book) && Drawn(lots, book) && q in book
    requires forall i :: 0 <= i < |lots| ==> lots[i].quantity > 0.0
    requires PlanTakes(plan, left, lots, quantity)
    ensures p in NettedLot(q, plan) <==> NettedTo(p, q, lots, quantity, |plan|)
  {
    assert forall k :: 0 <= k < |plan| ==> Takes(plan[k], lots, quantity, k);
    if k :| 0 <= k < |plan| && lots[k] == q {
      assert forall j :: 0 <= j < |plan| && j != k ==> lots[j].id != lots[k].id;
      NettedHit(q, plan, k);
      ShrunkRemains(plan[k], lots, quantity, k, p);
    } else {
      forall k | 0 <= k < |plan| ensures plan[k].lot.id != q.id {
        if lots[k].id == q.id {
          SameLot(book, lots[k], q);
        }
      }
      NettedLotSkip(q, plan);
    }
  }

  lemma {:induction false} MeetsOnce(lots: seq<Position>, quantity: real, m: nat, n: nat)
    requires Meets(lots, quantity, m) && Meets(lots, quantity, n)
    ensures m == n
  {
  }

  lemma {:induction false} NettedIs(book: seq<Position>, lots: seq<Position>, quantity: real, plan: seq<Match>, left: real,
                                    p: Position)
    requires Keyed(book) && Drawn(lots, book) && forall i :: 0 <= i < |lots| ==> lots[i].quantity > 0.0
    requires PlanTakes(plan, left, lots, quantity)
    ensures p in NettedBook(book, plan) <==>
              exists i :: 0 <= i < |book| && NettedTo(p, book[i], lots, quantity, |plan|)
  {
    NettedMember(book, plan, p);
    forall i | 0 <= i < |book|
      ensures p in NettedLot(book[i], plan) <==> NettedTo(p, book[i], lots, quantity, |plan|)
    {
      FateOf(book, lots, quantity, plan, left, book[i], p);
    }
  }

  /** The fill opens one lot of `left`, or nothing when that is not a purchase of more than EPS. */
  ghost predicate OpensLeft(added: seq<Position>, fill: Fill, left: real)
    requires fill.quantity > 0.0
  {
    added == if fill.side == Buy && left > EPS
             then [Position(fill.orderId, fill.symbol, Buy, fill.price, left, fill.stopLoss, fill.takeProfit,
                            fill.fee * (left / fill.quantity), fill.openedAt)] else []
  }

  lemma {:induction false} ResidueLeft(fill: Fill, left: real)
    requires fill.quantity > 0.0
    ensures OpensLeft(Residue(fill, Max(left, 0.0)), fill, left)
  {
    var got := Max(left, 0.0);
    if left > EPS && fill.side == Buy {
      assert got == left && Residual(got) == left;
      LotOfLeft(fill, left);
      assert Residue(fill, got) == [NewLot(fill, left)];
      assert OpensLeft([NewLot(fill, left)], fill, left);
    } else {
      assert Residue(fill, got) == [];
    }
  }

  lemma {:induction false} LotOfLeft(fill: Fill, left: real)
    requires fill.quantity > 0.0 && left > EPS && fill.side == Buy
    ensures NewLot(fill, left) == Position(fill.orderId, fill.symbol, Buy, fill.price, left, fill.stopLoss,
                                           fill.takeProfit, fill.fee * (left / fill.quantity), fill.openedAt)
    ensures OpensLeft([NewLot(fill, left)], fill, left)
  {
    var lot := Position(fill.orderId, fill.symbol, Buy, fill.price, left, fill.stopLoss, fill.takeProfit,
                        fill.fee * (left / fill.quantity), fill.openedAt);
    assert NewLot(fill, left) == lot;
    assert [NewLot(fill, left)] == [lot];
  }

  lemma {:induction false} ResidueOpens(lots: seq<Position>, fill: Fill, plan: seq<Match>, left: real, p: Position)
    requires PlanTakes(plan, left, lots, fill.quantity) && fill.quantity > 0.0
    ensures p in Residue(fill, left) <==> Opens(p, lots, fill, |plan|)
  {
    var l := LeftAfter(lots, fill.quantity, |plan|);
    if fill.side == Buy && l > EPS {
      assert left == l && Residual(l) == l;
      assert Residue(fill, left) == [NewLot(fill, l)];
      LotOfLeft(fill, l);
    }
  }

  /** What a fill leaves in the book, lot by lot, none missing and none besides. */
  lemma {:induction false} FifoLeaves(d: Desk, fill: Fill, m: nat, p: Position)
    requires Healthy(d) && fill.quantity > 0.0 && fill.orderId !in Ids(d.book)
    requires forall i :: 0 <= i < |Candidates(d.book, fill)| ==> Candidates(d.book, fill)[i].quantity > 0.0
    requires Meets(Candidates(d.book, fill), fill.quantity, m)
    ensures p in MatchOrOpen(d, fill).book <==> HeldAfter(p, d.book, Candidates(d.book, fill), fill, m)
  {
    var queue := Candidates(d.book, fill);
    var (plan, left) := Plan(queue, fill.quantity);
    CandidatesGood(d.book, fill);
    PlanIs(queue, fill.quantity);
    MeetsOnce(queue, fill.quantity, m, |plan|);
    FifoBook(d, fill);
    NettedIs(d.book, queue, fill.quantity, plan, left, p);
    ResidueOpens(queue, fill, plan, left, p);
  }

  // ---------------------------------------------------------- stops and targets

  function Reached(symbol: string, price: real): Position -> bool {
    (p: Position) => p.symbol == symbol && (AtStop(p, price) || AtTarget(p, price))
  }

  /** Where a lot whose stop or target was reached leaves. */
  function LevelOf(p: Position, price: real): real
    requires AtStop(p, price) || AtTarget(p, price)
  {
    if AtStop(p, price) then p.stopLoss.value else p.takeProfit.value
  }

  lemma {:induction false} TriggeredIs(book: seq<Position>, symbol: string, price: real)
    ensures Triggered(book, symbol, price) == Filter(book, Reached(symbol, price))
  {
    forall p ensures Hit(symbol, price)(p) == Reached(symbol, price)(p) {
      ExitAtLevel(p, price);
    }
    FilterSame(book, Hit(symbol, price), Reached(symbol, price));
  }

  /** The record of a lot leaving at its own level, whole and without fees. */
  ghost predicate LeavesAt(e: Event, p: Position, price: real) {
    && (AtStop(p, price) || AtTarget(p, price))
    && e == PositionClosed(p.id, p.symbol, p.side, p.entryPrice, LevelOf(p, price), p.quantity, 0.0, 0.0, None, StopExit)
  }

  ghost predicate LeaveAt(more: seq<Event>, lots: seq<Position>, price: real) {
    |more| == |lots| && forall i :: 0 <= i < |lots| ==> LeavesAt(more[i], lots[i], price)
  }

  lemma {:induction false} LeaveCons(e: Event, p: Position, more: seq<Event>, lots: seq<Position>, price: real)
    requires LeavesAt(e, p, price) && LeaveAt(more, lots, price)
    ensures LeaveAt([e] + more, [p] + lots, price)
  {
  }

  lemma {:induction false} ExitOne(d: Desk, p: Position, price: real, now: real) returns (e: Event)
    requires AtStop(p, price) || AtTarget(p, price)
    ensures ExitLot(d, p, price, now).events == d.events + [e] && LeavesAt(e, p, price)
    ensures ExitLot(d, p, price, now).openings == d.openings
  {
    ExitAtLevel(p, price);
    e := CloseEvent(p, LevelOf(p, price), 0.0, 0.0, p.quantity, None, StopExit);
  }

  lemma {:induction false} ExitLotsClose(d: Desk, lots: seq<Position>, price: real, now: real) returns (more: seq<Event>)
    requires forall i :: 0 <= i < |lots| ==> AtStop(lots[i], price) || AtTarget(lots[i], price)
    ensures ExitLots(d, lots, price, now).events == d.events + more && LeaveAt(more, lots, price)
    ensures ExitLots(d, lots, price, now).openings == d.openings
    decreases lots
  {
    more := [];
    if lots != [] {
      var e := ExitOne(d, lots[0], price, now);
      var d1 := ExitLot(d, lots[0], price, now);
      var rest := ExitLotsClose(d1, lots[1..], price, now);
      SeqAssoc(d.events, [e], rest);
      LeaveCons(e, lots[0], rest, lots[1..], price);
      assert lots == [lots[0]] + lots[1..];
      more := [e] + rest;
    }
  }

  /** What a stop/target check writes: one close per lot of the symbol whose stop or target the
      price reached, in book order, at the stop if both were. */
  lemma {:induction false} ExitCloses(d: Desk, symbol: string, price: real, now: real) returns (more: seq<Event>)
    ensures CheckOpenPositions(d, symbol, price, now).events == d.events + more
    ensures LeaveAt(more, Filter(d.book, Reached(symbol, price)), price)
    ensures CheckOpenPositions(d, symbol, price, now).openings == d.openings
  {
    TriggeredIs(d.book, symbol, price);
    var lots := Filter(d.book, Reached(symbol, price));
    forall i | 0 <= i < |lots| ensures AtStop(lots[i], price) || AtTarget(lots[i], price) {
      FilterMember(d.book, Reached(symbol, price), lots[i]);
    }
    more := ExitLotsClose(d, lots, price, now);
  }

  // ------------------------------------------------------------- whole histories

  /** `p` is the lot opened as `o`, whole or cut down: everything but quantity and fee is as it opened. */
  ghost predicate ComesFrom(p: Position, o: Position) {
    && p.id == o.id && p.symbol == o.symbol && p.side == o.side && p.entryPrice == o.entryPrice
    && p.stopLoss == o.stopLoss && p.takeProfit == o.takeProfit && p.openedAt == o.openedAt && p.quantity <= o.quantity
  }

  ghost predicate Originated(p: Position, openings: seq<Position>) { exists o <- openings :: ComesFrom(p, o) }

  /** The logged fill `f` opened the lot `o`: a BUY of at least its quantity at its entry price, with its share of the fee. */
  ghost predicate OpenedBy(o: Position, f: Event) {
    && f.FillLogged? && f.orderId == o.id && f.symbol == o.symbol && f.side == Buy && o.side == Buy
    && f.price == o.entryPrice && 0.0 < o.quantity <= f.quantity && o.entryFee * f.quantity == f.fee * o.quantity
  }

  ghost predicate OpenedByFill(o: Position, events: seq<Event>) { exists f <- events :: OpenedBy(o, f) }

  /** Event `f` is the last logged fill before event `k`. */
  ghost predicate LastFill(events: seq<Event>, f: int, k: int) {
    0 <= f < k < |events| && events[f].FillLogged? && forall j :: f < j < k ==> !events[j].FillLogged?
  }

  /** Close `k` was made by the last fill logged before it: same symbol, other side, its price. */
  ghost predicate NettedBy(events: seq<Event>, f: int, k: int) {
    && LastFill(events, f, k) && events[k].PositionClosed?
    && events[k].exitPrice == events[f].price && events[k].symbol == events[f].symbol && events[k].side != events[f].side
  }

  /** Close `k` is of a lot once opened, at its entry price; it left at the price of a fill that
      netted it, or whole at the stop or the target it was opened with. */
  ghost predicate ExplainedBy(events: seq<Event>, o: Position, k: int)
    requires 0 <= k < |events| && events[k].PositionClosed?
  {
    var e := events[k];
    && o.id == e.orderId && o.symbol == e.symbol && o.side == e.side && o.entryPrice == e.entryPrice
    && e.quantity <= o.quantity
    && match e.cause
       case Netting => exists f :: NettedBy(events, f, k)
       case StopExit => e.entryFee == 0.0 && e.exitFee == 0.0
                        && (o.stopLoss == Some(e.exitPrice) || o.takeProfit == Some(e.exitPrice))
  }

  ghost predicate Explained(events: seq<Event>, openings: seq<Position>, k: int) {
    0 <= k < |events| && (events[k].PositionClosed? ==> exists o <- openings :: ExplainedBy(events, o, k))
  }

  ghost predicate LedgerTrue(d: Desk) {
    && (forall i :: 0 <= i < |d.book| ==> Originated(d.book[i], d.openings))
    && (forall i :: 0 <= i < |d.openings| ==> OpenedByFill(d.openings[i], d.events))
    && (forall k :: 0 <= k < |d.events| ==> Explained(d.events, d.openings, k))
  }

  lemma {:induction false} OriginatedGrows(p: Position, a: seq<Position>, b: seq<Position>)
    requires Originated(p, a) && a <= b
    ensures Originated(p, b)
  {
  }

  lemma {:induction false} ExplainedGrows(events: seq<Event>, openings: seq<Position>, k: int,
                                          more: seq<Event>, openings2: seq<Position>)
    requires Explained(events, openings, k) && openings <= openings2
    ensures Explained(events + more, openings2, k)
  {
    var events2 := events + more;
    if events[k].PositionClosed? {
      var o :| o in openings && ExplainedBy(events, o, k);
      if events[k].cause == Netting {
        var f :| NettedBy(events, f, k);
        assert NettedBy(events2, f, k);
      }
      assert ExplainedBy(events2, o, k);
    }
  }

  /** Appending explained records, and openings that a fill explains, keeps the ledger true. */
  lemma {:induction false} LedgerGrows(d: Desk, d2: Desk, more: seq<Event>)
    requires LedgerTrue(d) && d2.events == d.events + more && d.openings <= d2.openings
    requires forall i :: 0 <= i < |d2.book| ==> Originated(d2.book[i], d2.openings)
    requires forall i :: |d.openings| <= i < |d2.openings| ==> OpenedByFill(d2.openings[i], d2.events)
    requires forall k :: |d.events| <= k < |d2.events| ==> Explained(d2.events, d2.openings, k)
    ensures LedgerTrue(d2)
  {
    forall i | 0 <= i < |d.openings| ensures OpenedByFill(d2.openings[i], d2.events) {
      assert d2.openings[i] == d.openings[i];
      var f :| f in d.events && OpenedBy(d.openings[i], f);
      assert f in d2.events;
    }
    forall k | 0 <= k < |d.events| ensures Explained(d2.events, d2.openings, k) {
      ExplainedGrows(d.events, d.openings, k, more, d2.openings);
    }
  }

  lemma {:induction false} ExitsOriginated(d: Desk, symbol: string, price: real, now: real)
    requires Healthy(d) && forall i :: 0 <= i < |d.book| ==> Originated(d.book[i], d.openings)
    ensures var book := CheckOpenPositions(d, symbol, price, now).book;
      forall i :: 0 <= i < |book| ==> Originated(book[i], d.openings)
  {
    ExitsRemoveTriggered(d, symbol, price, now);
    FilteredOriginated(d.book, Not(Hit(symbol, price)), d.openings);
  }

  lemma {:induction false} FilteredOriginated(book: seq<Position>, p: Position -> bool, openings: seq<Position>)
    requires forall i :: 0 <= i < |book| ==> Originated(book[i], openings)
    ensures forall i :: 0 <= i < |Filter(book, p)| ==> Originated(Filter(book, p)[i], openings)
  {
    forall i | 0 <= i < |Filter(book, p)| ensures Originated(Filter(book, p)[i], openings) {
      FilterMember(book, p, Filter(book, p)[i]);
    }
  }

  lemma {:induction false} LeaveExplained(events: seq<Event>, more: seq<Event>, lots: seq<Position>, price: real,
                                          openings: seq<Position>)
    requires LeaveAt(more, lots, price)
    requires forall i :: 0 <= i < |lots| ==> Originated(lots[i], openings)
    ensures forall k :: |events| <= k < |events + more| ==> Explained(events + more, openings, k)
  {
    forall k | |events| <= k < |events + more| ensures Explained(events + more, openings, k) {
      assert LeavesAt(more[k - |events|], lots[k - |events|], price);
      ExitExplained(events + more, openings, k, lots[k - |events|], price);
    }
  }

  lemma {:induction false} ExitsTrue(d: Desk, symbol: string, price: real, now: real)
    requires Healthy(d) && LedgerTrue(d)
    ensures LedgerTrue(CheckOpenPositions(d, symbol, price, now))
  {
    var more := ExitCloses(d, symbol, price, now);
    var lots := Filter(d.book, Reached(symbol, price));
    ExitsOriginated(d, symbol, price, now);
    FilteredOriginated(d.book, Reached(symbol, price), d.openings);
    LeaveExplained(d.events, more, lots, price, d.openings);
    LedgerGrows(d, CheckOpenPositions(d, symbol, price, now), more);
  }

  lemma {:induction false} ExitExplained(events: seq<Event>, openings: seq<Position>, k: int, p: Position, price: real)
    requires 0 <= k < |events| && LeavesAt(events[k], p, price) && Originated(p, openings)
    ensures Explained(events, openings, k)
  {
    var o :| o in openings && ComesFrom(p, o);
    assert ExplainedBy(events, o, k);
  }

  lemma {:induction false} QueueNoFill(more: seq<Event>, lots: seq<Position>, fill: Fill, m: nat)
    requires BooksQueue(more, lots, fill, m)
    ensures forall j :: 0 <= j < |more| ==> !more[j].FillLogged? && (more[j].PositionClosed? <==> j < m)
  {
    forall j | 0 <= j < |more| ensures !more[j].FillLogged? && (more[j].PositionClosed? <==> j < m) {
      if j < m {
        assert ClosesLotAt(more[j], lots, fill, j, if j == m - 1 then Unsold(lots, fill, m) else None);
      } else {
        assert more[j] == more[m..][j - m];
      }
    }
  }

  /** The records of a fill, right after the fill itself was logged, explain themselves. */
  lemma {:induction false} QueueExplained(events: seq<Event>, openings: seq<Position>, n: nat, lots: seq<Position>,
                                          fill: Fill, m: nat)
    requires n < |events| && events[n].FillLogged?
    requires events[n].symbol == fill.symbol && events[n].side == fill.side && events[n].price == fill.price
    requires BooksQueue(events[n + 1..], lots, fill, m)
    requires forall i :: 0 <= i < |lots| ==>
      Originated(lots[i], openings) && lots[i].symbol == fill.symbol && lots[i].side != fill.side
    ensures forall k :: n < k < |events| ==> Explained(events, openings, k)
  {
    var more := events[n + 1..];
    QueueNoFill(more, lots, fill, m);
    assert forall j :: n < j < |events| ==> events[j] == more[j - n - 1];
    forall k | n < k < |events| ensures Explained(events, openings, k) {
      if events[k].PositionClosed? {
        var j := k - n - 1;
        assert ClosesLotAt(more[j], lots, fill, j, if j == m - 1 then Unsold(lots, fill, m) else None);
        NettingExplained(events, openings, n, k, lots, fill, j, events[k].residualDropped);
      }
    }
  }

  lemma {:induction false} NettingExplained(events: seq<Event>, openings: seq<Position>, n: nat, k: nat,
                                            lots: seq<Position>, fill: Fill, j: nat, dropped: Option<real>)
    requires n < k < |events| && LastFill(events, n, k) && fill.quantity > 0.0
    requires events[n].symbol == fill.symbol && events[n].side == fill.side && events[n].price == fill.price
    requires j < |lots| && lots[j].quantity > 0.0 && ClosesLotAt(events[k], lots, fill, j, dropped)
    requires Originated(lots[j], openings) && lots[j].symbol == fill.symbol && lots[j].side != fill.side
    ensures Explained(events, openings, k)
  {
    var o :| o in openings && ComesFrom(lots[j], o);
    assert NettedBy(events, n, k);
    assert ExplainedBy(events, o, k);
  }

  /** The lots a fill leaves come from the same openings as before, or from the one it adds. */
  lemma {:induction false} LeavesOriginated(book: seq<Position>, lots: seq<Position>, quantity: real, plan: seq<Match>,
                                            left: real, openings: seq<Position>)
    requires Keyed(book) && Drawn(lots, book) && forall i :: 0 <= i < |lots| ==> lots[i].quantity > 0.0
    requires PlanTakes(plan, left, lots, quantity)
    requires forall i :: 0 <= i < |book| ==> Originated(book[i], openings)
    ensures forall p <- NettedBook(book, plan) :: Originated(p, openings)
  {
    forall p | p in NettedBook(book, plan) ensures Originated(p, openings) {
      NettedIs(book, lots, quantity, plan, left, p);
      var i :| 0 <= i < |book| && NettedTo(p, book[i], lots, quantity, |plan|);
      var o :| o in openings && ComesFrom(book[i], o);
      if CutTo(p, book[i], lots, quantity, |plan|) {
        var k :| 0 <= k < |plan| && lots[k] == book[i] && Remains(p, lots, quantity, k);
        assert LeftAfter(lots, quantity, k) > EPS;
      }
      assert ComesFrom(p, o);
    }
  }

  lemma {:induction false} ShareOf(fee: real, part: real, whole: real)
    requires whole > 0.0
    ensures fee * (part / whole) * whole == fee * part
  {
    assert (part / whole) * whole == part;
  }

  /** What a fill adds to the openings: the lot it opens, if it opens one. */
  lemma {:induction false} FillOpens(d: Desk, fill: Fill) returns (m: nat, added: seq<Position>)
    requires Healthy(d) && fill.quantity > 0.0
    ensures MatchOrOpen(d, fill).openings == d.openings + added
    ensures Meets(Candidates(d.book, fill), fill.quantity, m)
    ensures OpensLeft(added, fill, LeftAfter(Candidates(d.book, fill), fill.quantity, m))
  {
    var queue := Candidates(d.book, fill);
    var (plan, left) := Plan(queue, fill.quantity);
    CandidatesGood(d.book, fill);
    PlanIs(queue, fill.quantity);
    var settled := Netted(d, fill);
    m, added := |plan|, Residue(fill, left);
    ResidueLeft(fill, LeftAfter(queue, fill.quantity, m));
  }

  lemma {:induction false} AddedOpened(added: seq<Position>, lots: seq<Position>, fill: Fill, m: nat, f: Event)
    requires m <= |lots| && fill.quantity > 0.0 && OpensLeft(added, fill, LeftAfter(lots, fill.quantity, m))
    requires forall i :: 0 <= i < |lots| ==> lots[i].quantity > 0.0
    requires f == FillLogged(fill.orderId, fill.symbol, fill.side, fill.price, fill.quantity, fill.fee)
    ensures forall i :: 0 <= i < |added| ==> OpenedBy(added[i], f)
  {
    SumNonNegative(lots[..m], Quantity);
    ShareOf(fill.fee, LeftAfter(lots, fill.quantity, m), fill.quantity);
  }

  /** Which lots a fill leaves, whatever its order id. */
  lemma {:induction false} FillLots(d: Desk, fill: Fill)
    requires Healthy(d) && fill.quantity > 0.0
    requires forall i :: 0 <= i < |d.book| ==> Originated(d.book[i], d.openings)
    ensures forall i :: 0 <= i < |MatchOrOpen(d, fill).book| ==>
              Originated(MatchOrOpen(d, fill).book[i], MatchOrOpen(d, fill).openings)
  {
    var queue := Candidates(d.book, fill);
    var (plan, left) := Plan(queue, fill.quantity);
    CandidatesGood(d.book, fill);
    PlanIs(queue, fill.quantity);
    var settled := Netted(d, fill);
    LeavesOriginated(d.book, queue, fill.quantity, plan, left, d.openings);
    ResiduePut(settled, fill, left, plan == []);
  }

  lemma {:induction false} ResiduePut(d: Desk, fill: Fill, left: real, nothingNetted: bool)
    requires forall p <- d.book :: Originated(p, d.openings)
    ensures var d2 := OpenResidue(d, fill, Residual(left), nothingNetted);
      forall i :: 0 <= i < |d2.book| ==> Originated(d2.book[i], d2.openings)
  {
    var d2 := OpenResidue(d, fill, Residual(left), nothingNetted);
    forall i | 0 <= i < |d2.book| ensures Originated(d2.book[i], d2.openings) {
      if d2.book[i] in d.book {
        OriginatedGrows(d2.book[i], d.openings, d2.openings);
      } else {
        assert d2.book[i] == NewLot(fill, Residual(left));
        assert ComesFrom(d2.book[i], d2.openings[|d.openings|]);
      }
    }
  }

  /** The openings of a fill that was just logged are explained by it. */
  lemma {:induction false} FillOpened(d: Desk, fill: Fill, events: seq<Event>) returns (added: seq<Position>)
    requires Healthy(d) && fill.quantity > 0.0
    requires FillLogged(fill.orderId, fill.symbol, fill.side, fill.price, fill.quantity, fill.fee) in events
    ensures MatchOrOpen(d, fill).openings == d.openings + added
    ensures forall i :: 0 <= i < |added| ==> OpenedByFill(added[i], events)
  {
    var m;
    m, added := FillOpens(d, fill);
    CandidatesGood(d.book, fill);
    var f := FillLogged(fill.orderId, fill.symbol, fill.side, fill.price, fill.quantity, fill.fee);
    AddedOpened(added, Candidates(d.book, fill), fill, m, f);
  }

  lemma {:induction false} FillTrue(d: Desk, fill: Fill)
    requires Healthy(d) && LedgerTrue(d) && fill.quantity > 0.0
    requires d.events != [] && d.events[|d.events| - 1]
          == FillLogged(fill.orderId, fill.symbol, fill.side, fill.price, fill.quantity, fill.fee)
    ensures LedgerTrue(MatchOrOpen(d, fill))
  {
    var queue := Candidates(d.book, fill);
    var d2 := MatchOrOpen(d, fill);
    var n := |d.events| - 1;
    var m, more := FifoCloses(d, fill);
    assert d2.events[n] == d.events[n];
    var added := FillOpened(d, fill, d2.events);
    FillLots(d, fill);
    QueueLots(d, fill, d2.openings);
    assert d2.events[n + 1..] == more;
    QueueExplained(d2.events, d2.openings, n, queue, fill, m);
    LedgerGrows(d, d2, more);
  }

  lemma {:induction false} QueueLots(d: Desk, fill: Fill, openings: seq<Position>)
    requires Healthy(d) && d.openings <= openings
    requires forall i :: 0 <= i < |d.book| ==> Originated(d.book[i], d.openings)
    ensures var queue := Candidates(d.book, fill);
      forall i :: 0 <= i < |queue| ==>
        Originated(queue[i], openings) && queue[i].symbol == fill.symbol && queue[i].side != fill.side
  {
    var queue := Candidates(d.book, fill);
    CandidatesGood(d.book, fill);
    forall i | 0 <= i < |queue| ensures Originated(queue[i], openings) {
      var k :| 0 <= k < |d.book| && d.book[k] == queue[i];
      OriginatedGrows(d.book[k], d.openings, openings);
    }
  }

  lemma {:induction false} LogFillTrue(d: Desk, fill: Fill)
    requires Healthy(d) && LedgerTrue(d)
    ensures LedgerTrue(LogFill(d, fill))
  {
    if fill.quantity > 0.0 && fill.price > 0.0 {
      var e := FillLogged(fill.orderId, fill.symbol, fill.side, fill.price, fill.quantity, fill.fee);
      var logged := d.(events := d.events + [e]);
      LogOnly(d, e);
      LedgerGrows(d, logged, [e]);
      FillTrue(logged, fill);
    }
  }

  lemma {:induction false} CycleTrue(d: Desk, cfg: Config, x: CycleInput)
    requires Healthy(d) && LedgerTrue(d)
    ensures LedgerTrue(Cycle(d, cfg, x).0)
  {
    if !Blocks(d.breaker, x.startTime) {
      ReadBreakerKeeps(d, x.startTime);
      var ready := ReadBreaker(d, x.startTime);
      assert LedgerTrue(ready);
      if !(x.stub && !x.allowStub) {
        var n := ManagedKeeps(ready, x);
        if x.entryPrice > 0.0 {
          ExitsTrue(ready, x.symbol, x.entryPrice, x.tripTime);
        }
        var managed := Managed(ready, x);
        if Gate(managed, cfg, x) == Traded(true) {
          LogFillTrue(managed, FillOf(cfg, x));
        }
      }
    }
  }

  lemma {:induction false} PermutedOriginated(book: seq<Position>, b2: seq<Position>, openings: seq<Position>)
    requires multiset(b2) == multiset(ZeroFees(book))
    requires forall i :: 0 <= i < |book| ==> Originated(book[i], openings)
    ensures forall i :: 0 <= i < |b2| ==> Originated(b2[i], openings)
  {
    forall i | 0 <= i < |b2| ensures Originated(b2[i], openings) {
      assert b2[i] in multiset(ZeroFees(book));
      var j :| 0 <= j < |book| && ZeroFees(book)[j] == b2[i];
      var o :| o in openings && ComesFrom(book[j], o);
      assert ComesFrom(b2[i], o);
    }
  }

  lemma {:induction false} RestartTrue(d: Desk, order: seq<string>)
    requires Healthy(d) && LedgerTrue(d) && IsRowOrder(d.table, order)
    ensures LedgerTrue(Restart(d, order))
  {
    var d2 := Restart(d, order);
    RestartRestores(d, order, 0.0);
    PermutedOriginated(d.book, d2.book, d.openings);
    assert d2.openings == d.openings && d2.events == d.events;
  }

  /** The ledger accounts for itself over every history: each lot still open is one that a logged
      BUY opened, at its price and with its levels, and each close is of such a lot, at its entry
      price, either made by the last fill logged before it, at that fill's price, or a stop or
      target exit at the level the lot was opened with. */
  lemma {:induction false} RunTrue(d: Desk, cfg: Config, steps: seq<Step>)
    requires Healthy(d) && LedgerTrue(d) && PossibleRun(d, cfg, steps)
    ensures LedgerTrue(Run(d, cfg, steps))
    decreases steps
  {
    if steps != [] {
      match steps[0] {
        case CycleStep(x) =>
          var n := CycleKeeps(d, cfg, x);
          CycleTrue(d, cfg, x);
        case DailyResetStep(now) =>
        case RestartStep(order) =>
          RestartRestores(d, order, 0.0);
          RestartTrue(d, order);
      }
      RunTrue(Next(d, cfg, steps[0]), cfg, steps[1..]);
    }
  }

  lemma {:induction false} EmptyRunTrue(cfg: Config, steps: seq<Step>)
    requires PossibleRun(EMPTY_DESK, cfg, steps)
    ensures LedgerTrue(Run(EMPTY_DESK, cfg, steps))
  {
    RunTrue(EMPTY_DESK, cfg, steps);
  }

  /** The percentage the breaker is fed is the close's result relative to what the closed quantity
      cost, in hundredths, and nothing for a quantity that cost nothing. */
  lemma {:induction false} PctOfCost(e: Event)
    requires e.PositionClosed?
    ensures var cost := e.entryPrice * e.quantity;
      if cost == 0.0 then PnlPct(e) == 0.0 else PnlPct(e) * cost == 100.0 * Pnl(e)
  {
    var cost := e.entryPrice * e.quantity;
    if cost != 0.0 {
      assert Pnl(e) / cost * cost == Pnl(e);
    }
  }
}
