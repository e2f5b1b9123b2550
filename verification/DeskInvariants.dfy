/** What every desk operation keeps: the book invariant, the mirror, the breaker
    bound and the cash basis, over one operation, one cycle and whole runs. */
module DeskInvariants {
  import opened Lists
  import opened TradingDesk

  // ------------------------------------------------------------- invariants

  /** Dictionary keys are distinct. */
  ghost predicate Keyed(book: seq<Position>) {
    forall i, j :: 0 <= i < j < |book| ==> book[i].id != book[j].id
  }

  ghost predicate Sized(book: seq<Position>) {
    forall i :: 0 <= i < |book| ==> book[i].quantity > EPS
  }

  ghost predicate LongOnly(book: seq<Position>) {
    forall i :: 0 <= i < |book| ==> book[i].side == Buy
  }

  ghost function Ids(book: seq<Position>): set<string> {
    set i | 0 <= i < |book| :: book[i].id
  }

  /** The stored table is the book projected to the persisted columns. */
  ghost predicate Mirrors(book: seq<Position>, table: map<string, Row>) {
    && (forall i :: 0 <= i < |book| ==> book[i].id in table && table[book[i].id] == ToRow(book[i]))
    && table.Keys == Ids(book)
  }

  ghost predicate BreakerSaved(d: Desk) {
    d.row.GetOr(CLOSED_BREAKER) == d.breaker
  }

  ghost predicate Armed(b: Breaker) {
    b.trippedAt.None? ==> b.losses < 3
  }

  ghost predicate Healthy(d: Desk) {
    Keyed(d.book) && Sized(d.book) && Mirrors(d.book, d.table) && BreakerSaved(d) && Armed(d.breaker)
  }

  ghost predicate LongHistory(events: seq<Event>) {
    forall i :: 0 <= i < |events| && events[i].PositionClosed? ==> events[i].side == Buy
  }

  ghost predicate Long(d: Desk) { LongOnly(d.book) && LongHistory(d.events) }

  function CloseCount(events: seq<Event>): nat {
    if events == [] then 0
    else CloseCount(events[..|events| - 1]) + (if events[|events| - 1].PositionClosed? then 1 else 0)
  }

  function ClosedBasis(e: Event): real { if e.PositionClosed? then e.entryPrice * e.quantity else 0.0 }
  function Proceeds(e: Event): real { if e.PositionClosed? then e.exitPrice * e.quantity else 0.0 }
  function FeesBooked(e: Event): real { if e.PositionClosed? then e.entryFee + e.exitFee else 0.0 }

  /** Entry notional is conserved: open plus closed at entry, less opened. */
  function Basis(d: Desk): real {
    SumBy(d.book, Notional) + SumBy(d.events, ClosedBasis) - SumBy(d.openings, Notional)
  }

  /** The desk after an operation that booked `n` closes, opened no lot and kept the invariant. */
  ghost predicate Kept(d: Desk, d2: Desk, n: nat) {
    && Healthy(d2) && (Long(d) ==> Long(d2))
    && Basis(d2) == Basis(d) && d2.openings == d.openings
    && |d2.book| <= |d.book|
    && d2.breaker.losses <= d.breaker.losses + n
    && CloseCount(d2.events) == CloseCount(d.events) + n
  }

  // -------------------------------------------------------- single operations

  lemma {:induction false} RecordResultArms(b: Breaker, pnlPct: real, now: real)
    ensures Armed(RecordResult(b, pnlPct, now))
    ensures RecordResult(b, pnlPct, now).losses <= b.losses + 1
    ensures b.trippedAt.Some? ==> RecordResult(b, pnlPct, now).trippedAt == b.trippedAt
  {
  }

  lemma {:induction false} IndexOfKeyed(book: seq<Position>, i: nat)
    requires Keyed(book) && i < |book|
    ensures IndexOf(book, book[i].id) == i
  {
  }

  lemma {:induction false} RemoveKeyed(book: seq<Position>, i: nat)
    requires Keyed(book) && i < |book|
    ensures Keyed(book[..i] + book[i + 1..])
  {
  }

  lemma {:induction false} RemoveIds(book: seq<Position>, i: nat)
    requires Keyed(book) && i < |book|
    ensures Remove(book, book[i].id) == book[..i] + book[i + 1..]
    ensures Ids(book[..i] + book[i + 1..]) == Ids(book) - {book[i].id}
  {
    IndexOfKeyed(book, i);
    var b2 := book[..i] + book[i + 1..];
    forall id | id in Ids(b2) ensures id in Ids(book) - {book[i].id} {
      var k :| 0 <= k < |b2| && b2[k].id == id;
      assert b2[k] == book[if k < i then k else k + 1];
    }
    forall id | id in Ids(book) - {book[i].id} ensures id in Ids(b2) {
      var k :| 0 <= k < |book| && book[k].id == id;
      assert b2[if k < i then k else k - 1] == book[k];
    }
  }

  lemma {:induction false} RemoveMirrors(book: seq<Position>, table: map<string, Row>, i: nat)
    requires Keyed(book) && i < |book| && Mirrors(book, table)
    ensures Remove(book, book[i].id) == book[..i] + book[i + 1..]
    ensures Keyed(Remove(book, book[i].id))
    ensures Mirrors(Remove(book, book[i].id), table - {book[i].id})
  {
    RemoveIds(book, i);
    RemoveKeyed(book, i);
    var b2 := book[..i] + book[i + 1..];
    forall j | 0 <= j < |b2| ensures b2[j].id in table - {book[i].id} && table[b2[j].id] == ToRow(b2[j]) {
      var k := if j < i then j else j + 1;
      assert b2[j] == book[k];
    }
  }

  lemma {:induction false} PutIds(book: seq<Position>, p: Position)
    requires Keyed(book)
    ensures Keyed(Put(book, p)) && Ids(Put(book, p)) == Ids(book) + {p.id}
  {
    var k := IndexOf(book, p.id);
    var b2 := Put(book, p);
    assert b2[k].id == p.id;
    forall id | id in Ids(book) ensures id in Ids(b2) {
      var j :| 0 <= j < |book| && book[j].id == id;
      assert b2[j].id == id;
    }
  }

  lemma {:induction false} PutMirrors(book: seq<Position>, table: map<string, Row>, p: Position)
    requires Keyed(book) && Mirrors(book, table)
    ensures Keyed(Put(book, p)) && Mirrors(Put(book, p), table[p.id := ToRow(p)])
  {
    PutIds(book, p);
    var k := IndexOf(book, p.id);
    var b2 := Put(book, p);
    var t2 := table[p.id := ToRow(p)];
    forall j | 0 <= j < |b2| ensures b2[j].id in t2 && t2[b2[j].id] == ToRow(b2[j]) {
      assert j != k ==> b2[j] == book[j];
    }
  }

  /** Booking a close extends the history by that one event. */
  lemma {:induction false} RecordCloseLedger(d: Desk, e: Event, keepOpen: bool, now: real)
    requires e.PositionClosed?
    ensures var d2 := RecordClose(d, e, keepOpen, now);
      && CloseCount(d2.events) == CloseCount(d.events) + 1
      && SumBy(d2.events, ClosedBasis) == SumBy(d.events, ClosedBasis) + ClosedBasis(e)
      && (LongHistory(d.events) && e.side == Buy ==> LongHistory(d2.events))
      && BreakerSaved(d2) && Armed(d2.breaker) && d2.breaker.losses <= d.breaker.losses + 1
  {
    RecordResultArms(d.breaker, PnlPct(e), now);
    SumBySnoc(d.events, e, ClosedBasis);
    var es := d.events + [e];
    assert es[..|es| - 1] == d.events;
  }

  lemma {:induction false} RemoveKeeps(book: seq<Position>, i: nat)
    requires Keyed(book) && Sized(book) && i < |book|
    ensures var b2 := Remove(book, book[i].id);
      && |b2| == |book| - 1 && Sized(b2) && (LongOnly(book) ==> LongOnly(b2))
      && SumBy(b2, Notional) == SumBy(book, Notional) - Notional(book[i])
  {
    IndexOfKeyed(book, i);
    SumByRemoveAt(book, i, Notional);
  }

  lemma {:induction false} PutKeeps(book: seq<Position>, i: nat, p: Position)
    requires Keyed(book) && Sized(book) && i < |book|
    requires p.id == book[i].id && p.side == book[i].side && p.quantity > EPS
    ensures var b2 := Put(book, p);
      && b2 == book[i := p] && Sized(b2) && (LongOnly(book) ==> LongOnly(b2))
      && SumBy(b2, Notional) == SumBy(book, Notional) - Notional(book[i]) + Notional(p)
  {
    IndexOfKeyed(book, i);
    SumByUpdateAt(book, i, p, Notional);
  }

  lemma {:induction false} BasisMoves(d: Desk, d2: Desk)
    requires d2.openings == d.openings
    requires SumBy(d2.book, Notional) - SumBy(d.book, Notional)
          == SumBy(d.events, ClosedBasis) - SumBy(d2.events, ClosedBasis)
    ensures Basis(d2) == Basis(d)
  {
  }

  lemma {:induction false} BasisOfClose(e: Event, p: Position)
    requires e.PositionClosed? && e.entryPrice == p.entryPrice && e.quantity == p.quantity
    ensures ClosedBasis(e) == Notional(p)
  {
  }

  lemma {:induction false} BasisOfShrink(m: Match, fill: Fill, dropped: Option<real>)
    requires !m.full
    ensures Notional(Shrunk(m)) == Notional(m.lot) - ClosedBasis(MatchEvent(m, fill, dropped))
  {
  }

  lemma {:induction false} CloseLot(d: Desk, i: nat, e: Event, now: real)
    requires Healthy(d) && i < |d.book| && e.PositionClosed?
    requires e.orderId == d.book[i].id && e.side == d.book[i].side
    requires e.entryPrice == d.book[i].entryPrice && e.quantity == d.book[i].quantity
    ensures Kept(d, RecordClose(d, e, false, now), 1)
    ensures RecordClose(d, e, false, now).book == d.book[..i] + d.book[i + 1..]
  {
    RemoveMirrors(d.book, d.table, i);
    RemoveKeeps(d.book, i);
    RecordCloseLedger(d, e, false, now);
    var d2 := RecordClose(d, e, false, now);
    assert d2.book == Remove(d.book, d.book[i].id);
    assert d2.table == d.table - {d.book[i].id};
    BasisOfClose(e, d.book[i]);
    BasisMoves(d, d2);
  }

  ghost predicate GoodMatch(m: Match) {
    && 0.0 < m.matched <= m.lot.quantity
    && (m.full <==> m.matched >= m.lot.quantity - EPS)
  }

  lemma {:induction false} ShrinkLot(d: Desk, i: nat, m: Match, fill: Fill, dropped: Option<real>)
    requires Healthy(d) && i < |d.book| && d.book[i] == m.lot && GoodMatch(m) && !m.full
    ensures Kept(d, SettleMatch(d, m, fill, dropped), 1)
    ensures SettleMatch(d, m, fill, dropped).book == d.book[i := Shrunk(m)]
  {
    PutMirrors(d.book, d.table, Shrunk(m));
    PutKeeps(d.book, i, Shrunk(m));
    BasisOfShrink(m, fill, dropped);
    RecordCloseLedger(d, MatchEvent(m, fill, dropped), true, fill.tripTime);
    var d2 := SettleMatch(d, m, fill, dropped);
    assert d2.book == Put(d.book, Shrunk(m));
    assert d2.table == d.table[m.lot.id := ToRow(Shrunk(m))];
    BasisMoves(d, d2);
  }

  lemma {:induction false} SettleMatchKeeps(d: Desk, i: nat, m: Match, fill: Fill, dropped: Option<real>)
    requires Healthy(d) && i < |d.book| && d.book[i] == m.lot && GoodMatch(m)
    ensures Kept(d, SettleMatch(d, m, fill, dropped), 1)
    ensures SettleMatch(d, m, fill, dropped).book
         == if m.full then d.book[..i] + d.book[i + 1..] else d.book[i := Shrunk(m)]
  {
    if m.full {
      CloseLot(d, i, MatchEvent(m, fill, dropped), fill.tripTime);
    } else {
      ShrinkLot(d, i, m, fill, dropped);
    }
  }

  // --------------------------------------------------------- netting, in order

  /** `lots` are entries of `book` under distinct keys. */
  ghost predicate Drawn(lots: seq<Position>, book: seq<Position>) {
    Keyed(lots) && forall i :: 0 <= i < |lots| ==> lots[i] in book
  }

  function Matched(m: Match): real { m.matched }
  function ClosedQuantity(m: Match): real { if m.full then m.lot.quantity else m.matched }

  function PlanLots(plan: seq<Match>): (r: seq<Position>)
    ensures |r| == |plan| && forall k :: 0 <= k < |plan| ==> r[k] == plan[k].lot
  {
    seq(|plan|, i requires 0 <= i < |plan| => plan[i].lot)
  }

  /** The book after a plan, lot by lot: full matches gone, a partial one shrunk, the rest as it was. */
  function NettedBook(book: seq<Position>, plan: seq<Match>): seq<Position> {
    if book == [] then []
    else NettedLot(book[0], plan) + NettedBook(book[1..], plan)
  }

  function NettedLot(p: Position, plan: seq<Match>): seq<Position> {
    if plan == [] then [p]
    else if plan[0].lot.id == p.id then (if plan[0].full then [] else [Shrunk(plan[0])])
    else NettedLot(p, plan[1..])
  }

  lemma {:induction false} NettedBookConcat(a: seq<Position>, b: seq<Position>, plan: seq<Match>)
    ensures NettedBook(a + b, plan) == NettedBook(a, plan) + NettedBook(b, plan)
  {
    if a == [] {
      assert a + b == b;
    } else {
      NettedBookConcat(a[1..], b, plan);
      assert (a + b)[0] == a[0] && (a + b)[1..] == a[1..] + b;
      SeqAssoc(NettedLot(a[0], plan), NettedBook(a[1..], plan), NettedBook(b, plan));
    }
  }

  lemma {:induction false} NettedBookSkip(book: seq<Position>, plan: seq<Match>)
    requires plan != [] && plan[0].lot.id !in Ids(book)
    ensures NettedBook(book, plan) == NettedBook(book, plan[1..])
  {
    if book != [] {
      assert book[0].id in Ids(book);
      forall id | id in Ids(book[1..]) ensures id in Ids(book) {
        var k :| 0 <= k < |book[1..]| && book[1..][k].id == id;
        assert book[k + 1].id == id;
      }
      NettedBookSkip(book[1..], plan);
    }
  }

  lemma {:induction false} NettedBookNone(book: seq<Position>)
    ensures NettedBook(book, []) == book
  {
    if book != [] {
      NettedBookNone(book[1..]);
    }
  }

  lemma {:induction false} NettedLotSkip(p: Position, plan: seq<Match>)
    requires forall k :: 0 <= k < |plan| ==> plan[k].lot.id != p.id
    ensures NettedLot(p, plan) == [p]
  {
    if plan != [] {
      NettedLotSkip(p, plan[1..]);
    }
  }

  lemma {:induction false} NettedBookSplit(a: seq<Position>, p: Position, b: seq<Position>, plan: seq<Match>)
    ensures NettedBook(a + [p] + b, plan) == NettedBook(a, plan) + NettedLot(p, plan) + NettedBook(b, plan)
  {
    NettedBookConcat(a + [p], b, plan);
    NettedBookConcat(a, [p], plan);
    assert [p][1..] == [];
    assert NettedBook([p], plan) == NettedLot(p, plan) + NettedBook([], plan);
  }

  lemma {:induction false} ShrunkOnce(plan: seq<Match>)
    requires plan != [] && Keyed(PlanLots(plan))
    ensures NettedLot(Shrunk(plan[0]), plan[1..]) == [Shrunk(plan[0])]
  {
    forall k | 0 <= k < |plan[1..]| ensures plan[1..][k].lot.id != plan[0].lot.id {
      assert PlanLots(plan)[k + 1].id != PlanLots(plan)[0].id;
    }
    NettedLotSkip(Shrunk(plan[0]), plan[1..]);
  }

  /** Settling the first match commutes with settling the rest. */
  lemma {:induction false} NettedBookStep(book: seq<Position>, i: nat, plan: seq<Match>)
    requires Keyed(book) && i < |book| && plan != [] && book[i] == plan[0].lot
    requires Keyed(PlanLots(plan))
    ensures NettedBook(if plan[0].full then book[..i] + book[i + 1..] else book[i := Shrunk(plan[0])], plan[1..])
         == NettedBook(book, plan)
  {
    var a, b := book[..i], book[i + 1..];
    assert book == a + [book[i]] + b;
    NettedBookSplit(a, book[i], b, plan);
    NettedBookSkip(a, plan);
    NettedBookSkip(b, plan);
    if plan[0].full {
      NettedBookConcat(a, b, plan[1..]);
    } else {
      assert book[i := Shrunk(plan[0])] == a + [Shrunk(plan[0])] + b;
      NettedBookSplit(a, Shrunk(plan[0]), b, plan[1..]);
      ShrunkOnce(plan);
    }
  }

  // ---------------------------------------------------------------- the plan

  /** A match that takes the whole lot. */
  ghost predicate Exact(m: Match) { m.full && m.matched == m.lot.quantity }

  ghost predicate AllExact(plan: seq<Match>) {
    forall k :: 0 <= k < |plan| ==> Exact(plan[k])
  }

  ghost predicate FollowsLots(plan: seq<Match>, lots: seq<Position>) {
    |plan| <= |lots| && forall k :: 0 <= k < |plan| ==> plan[k].lot == lots[k] && GoodMatch(plan[k])
  }

  lemma {:induction false} PlanTotals(lots: seq<Position>, remaining: real)
    requires forall i :: 0 <= i < |lots| ==> lots[i].quantity > 0.0
    ensures var (plan, left) := Plan(lots, remaining);
      (remaining >= 0.0 ==> left >= 0.0) && SumBy(plan, Matched) + left == remaining
  {
    if lots != [] && remaining > EPS {
      var m := Min(remaining, lots[0].quantity);
      PlanTotals(lots[1..], remaining - m);
      assert Plan(lots, remaining).0[1..] == Plan(lots[1..], remaining - m).0;
    }
  }

  /** Everything the FIFO plan promises, for any list of positive lots. */
  lemma {:induction false} PlanShape(lots: seq<Position>, remaining: real)
    requires forall i :: 0 <= i < |lots| ==> lots[i].quantity > 0.0
    ensures var (plan, left) := Plan(lots, remaining);
      && FollowsLots(plan, lots)
      && (plan != [] ==> AllExact(plan[..|plan| - 1]))
      && (left > EPS ==> |plan| == |lots| && AllExact(plan))
      && (remaining >= 0.0 ==> left >= 0.0)
      && (plan == [] <==> lots == [] || remaining <= EPS)
      && SumBy(plan, Matched) + left == remaining
  {
    PlanTotals(lots, remaining);
    if lots != [] && remaining > EPS {
      var m := Min(remaining, lots[0].quantity);
      PlanShape(lots[1..], remaining - m);
      var rest := Plan(lots[1..], remaining - m);
      var plan := Plan(lots, remaining).0;
      PlanCons(plan[0], rest.0, lots);
      assert plan == [plan[0]] + rest.0;
    }
  }

  lemma {:induction false} PlanCons(m: Match, rest: seq<Match>, lots: seq<Position>)
    requires lots != [] && m.lot == lots[0] && GoodMatch(m) && FollowsLots(rest, lots[1..])
    ensures FollowsLots([m] + rest, lots)
    ensures Exact(m) && AllExact(rest) ==> AllExact([m] + rest)
    ensures Exact(m) && rest != [] && AllExact(rest[..|rest| - 1]) ==> AllExact(([m] + rest)[..|rest|])
    ensures rest == [] ==> AllExact(([m] + rest)[..|rest|])
  {
  }

  lemma {:induction false} ClosedOverMatched(lots: seq<Position>, remaining: real)
    requires forall i :: 0 <= i < |lots| ==> lots[i].quantity > 0.0
    ensures var (plan, left) := Plan(lots, remaining);
      var over := SumBy(plan, ClosedQuantity) - SumBy(plan, Matched);
      0.0 <= over <= EPS && (over > 0.0 ==> left == 0.0)
  {
    if lots != [] && remaining > EPS {
      var m := Min(remaining, lots[0].quantity);
      ClosedOverMatched(lots[1..], remaining - m);
      assert Plan(lots, remaining).0[1..] == Plan(lots[1..], remaining - m).0;
    }
  }

  /** Closed quantity plus the residue is the fill quantity, up to EPS either way. */
  lemma {:induction false} NettingExact(lots: seq<Position>, quantity: real)
    requires forall i :: 0 <= i < |lots| ==> lots[i].quantity > 0.0
    requires quantity >= 0.0
    ensures var (plan, left) := Plan(lots, quantity);
      -EPS <= SumBy(plan, ClosedQuantity) + Residual(left) - quantity <= EPS
  {
    PlanShape(lots, quantity);
    ClosedOverMatched(lots, quantity);
  }

  // ------------------------------------------------------------ whole fills

  lemma {:induction false} KeptTrans(a: Desk, b: Desk, c: Desk, n: nat, m: nat)
    requires Kept(a, b, n) && Kept(b, c, m)
    ensures Kept(a, c, n + m)
  {
  }

  /** What is left of a drawn list after its first entry was dealt with is still drawn. */
  lemma {:induction false} DrawnRest(lots: seq<Position>, book: seq<Position>, i: nat, p: Position, b2: seq<Position>)
    requires Drawn(lots, book) && lots != [] && i < |book| && book[i] == lots[0]
    requires b2 == book[..i] + book[i + 1..] || b2 == book[i := p]
    ensures Drawn(lots[1..], b2)
  {
    forall k | 0 <= k < |lots[1..]| ensures lots[1..][k] in b2 {
      assert lots[1..][k] == lots[k + 1] && lots[k + 1].id != lots[0].id;
      var j :| 0 <= j < |book| && book[j] == lots[k + 1];
      assert b2[if |b2| == |book| || j < i then j else j - 1] == lots[k + 1];
    }
  }

  ghost predicate GoodPlan(plan: seq<Match>, book: seq<Position>) {
    Drawn(PlanLots(plan), book) && forall k :: 0 <= k < |plan| ==> GoodMatch(plan[k])
  }

  function FullCount(plan: seq<Match>): nat {
    if plan == [] then 0 else (if plan[0].full then 1 else 0) + FullCount(plan[1..])
  }

  lemma {:induction false} PlanRest(book: seq<Position>, i: nat, plan: seq<Match>, b1: seq<Position>)
    requires Keyed(book) && GoodPlan(plan, book) && plan != [] && i < |book| && book[i] == plan[0].lot
    requires b1 == if plan[0].full then book[..i] + book[i + 1..] else book[i := Shrunk(plan[0])]
    ensures GoodPlan(plan[1..], b1) && NettedBook(b1, plan[1..]) == NettedBook(book, plan)
    ensures |b1| == |book| - (if plan[0].full then 1 else 0)
  {
    NettedBookStep(book, i, plan);
    DrawnRest(PlanLots(plan), book, i, Shrunk(plan[0]), b1);
    assert PlanLots(plan[1..]) == PlanLots(plan)[1..];
  }

  lemma {:induction false} PlanHead(plan: seq<Match>, book: seq<Position>) returns (i: nat)
    requires GoodPlan(plan, book) && plan != []
    ensures i < |book| && book[i] == plan[0].lot && GoodMatch(plan[0])
  {
    assert PlanLots(plan)[0] in book;
    i :| 0 <= i < |book| && book[i] == plan[0].lot;
  }

  lemma {:induction false} SettleKeeps(d: Desk, plan: seq<Match>, fill: Fill, dropped: Option<real>)
    requires Healthy(d) && GoodPlan(plan, d.book)
    ensures Kept(d, Settle(d, plan, fill, dropped), |plan|)
    ensures Settle(d, plan, fill, dropped).book == NettedBook(d.book, plan)
    ensures |Settle(d, plan, fill, dropped).book| == |d.book| - FullCount(plan)
    decreases plan
  {
    if plan == [] {
      NettedBookNone(d.book);
    } else {
      var drop := if |plan| == 1 then dropped else None;
      var d1 := SettleMatch(d, plan[0], fill, drop);
      var i := PlanHead(plan, d.book);
      SettleMatchKeeps(d, i, plan[0], fill, drop);
      PlanRest(d.book, i, plan, d1.book);
      SettleKeeps(d1, plan[1..], fill, dropped);
      KeptTrans(d, d1, Settle(d1, plan[1..], fill, dropped), 1, |plan| - 1);
    }
  }

  lemma {:induction false} ExitLotsKeeps(d: Desk, lots: seq<Position>, price: real, now: real)
    requires Healthy(d) && Drawn(lots, d.book)
    ensures Kept(d, ExitLots(d, lots, price, now), |lots|)
    ensures |ExitLots(d, lots, price, now).book| == |d.book| - |lots|
    decreases lots
  {
    if lots != [] {
      assert lots[0] in d.book;
      var i :| 0 <= i < |d.book| && d.book[i] == lots[0];
      var e := CloseEvent(lots[0], ExitPrice(lots[0], price).GetOr(0.0), 0.0, 0.0, lots[0].quantity, None, StopExit);
      var d1 := ExitLot(d, lots[0], price, now);
      CloseLot(d, i, e, now);
      DrawnRest(lots, d.book, i, lots[0], d1.book);
      ExitLotsKeeps(d1, lots[1..], price, now);
      KeptTrans(d, d1, ExitLots(d1, lots[1..], price, now), 1, |lots| - 1);
    }
  }

  lemma {:induction false} DrawnCons(book: seq<Position>, rest: seq<Position>)
    requires book != [] && Keyed(book) && Drawn(rest, book[1..])
    ensures Drawn(rest, book) && Drawn([book[0]] + rest, book)
  {
  }

  lemma {:induction false} FilterDrawn(book: seq<Position>, p: Position -> bool)
    requires Keyed(book)
    ensures Drawn(Filter(book, p), book)
  {
    if book != [] {
      assert Keyed(book[1..]);
      FilterDrawn(book[1..], p);
      DrawnCons(book, Filter(book[1..], p));
    }
  }

  lemma {:induction false} DrawnPermutes(lots: seq<Position>, perm: seq<Position>, book: seq<Position>)
    requires Drawn(lots, book) && multiset(lots) == multiset(perm)
    ensures Drawn(perm, book)
  {
    forall i | 0 <= i < |perm| ensures perm[i] in book {
      assert perm[i] in multiset(lots);
    }
    forall i, j | 0 <= i < j < |perm| ensures perm[i].id != perm[j].id {
      assert perm[i] in multiset(lots) && perm[j] in multiset(lots);
      if perm[i].id == perm[j].id {
        assert perm[i] in lots && perm[j] in lots;
        assert perm[i] == perm[j];
        TwiceInList(perm, i, j);
        KeyedOnce(lots, perm[i]);
      }
    }
  }

  lemma {:induction false} KeyedOnce(lots: seq<Position>, p: Position)
    requires Keyed(lots)
    ensures multiset(lots)[p] <= 1
  {
    if p in lots {
      var a :| 0 <= a < |lots| && lots[a] == p;
      assert lots == lots[..a] + [lots[a]] + lots[a + 1..];
      assert p !in lots[..a] && p !in lots[a + 1..];
    }
  }
}
