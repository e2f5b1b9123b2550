/** The HITL order lifecycle shared by two processes: the API decides, the loop executes.
    Each store method is one atomic step; any steps may run between two polls of the loop. */
module Orders {
  import opened Lists

  datatype Status = Pending | Approved | Filled | Rejected | Cancelled

  datatype Draft = Draft(id: string, pair: string, side: string, quantity: real, price: real, critical: bool)

  datatype Order = Order(
    draft: Draft, status: Status, autoApproved: bool, operatorId: Option<string>, note: Option<string>,
    resolvedAt: Option<real>, filledAt: Option<real>)

  function Notional(d: Draft): real { d.price * d.quantity }

  datatype Event =
    | Submitted(id: string)
    | HitlApproval(id: string, approved: bool, user: string)
    | OrderApproved(id: string, actor: string)
    | OrderRejected(id: string, actor: string)
    | OrderCancelled(id: string, reason: string)
    | OrderFill(id: string, price: real, quantity: real)
    | OrderFilled(id: string, actor: string, auto: bool)

  /** `limits` remembers the threshold each order was submitted under (history, not a column). */
  datatype Store = Store(orders: map<string, Order>, events: seq<Event>, limits: map<string, real>)

  const EMPTY := Store(map[], [], map[])

  datatype Guard = NoGuardrails | Passed | Violated(reason: string)

  datatype Op =
    | SubmitOp(draft: Draft, guard: Guard, threshold: real, now: real)
    | ResolveOp(id: string, approved: bool, operator: string, note: Option<string>, now: real)
    | MarkFilledOp(id: string, operator: string, now: real)
    | CancelOp(id: string, reason: string, now: real)

  /** What the caller sees; the last two are raised exceptions. */
  datatype Answer = Row(order: Order) | NoRow | DuplicateId | UnknownId | Conflict(order: Order)

  // ----------------------------------------------------------- the four methods

  function FillEvents(o: Order, operator: string): seq<Event> {
    [HitlApproval(o.draft.id, true, operator),
     OrderFill(o.draft.id, o.draft.price, o.draft.quantity),
     OrderFilled(o.draft.id, operator, o.autoApproved)]
  }

  function Auto(d: Draft, threshold: real): bool {
    threshold > 0.0 && Notional(d) <= threshold && !d.critical
  }

  function NewOrder(d: Draft): Order { Order(d, Pending, false, None, None, None, None) }

  function Submit(s: Store, d: Draft, guard: Guard, threshold: real, now: real): (Store, Answer) {
    if d.id in s.orders then (s, DuplicateId)
    else
      var row := NewOrder(d);
      var logged := s.events + [Submitted(d.id)];
      if guard.Violated? then
        var o := row.(status := Rejected, resolvedAt := Some(now), note := Some(guard.reason));
        (Store(s.orders[d.id := o],
               logged + [HitlApproval(d.id, false, "guardrails"), OrderRejected(d.id, "guardrails")],
               s.limits[d.id := threshold]), Row(o))
      else if Auto(d, threshold) then
        var o := row.(status := Filled, autoApproved := true, resolvedAt := Some(now), filledAt := Some(now));
        (Store(s.orders[d.id := o], logged + FillEvents(o, "auto"), s.limits[d.id := threshold]), Row(o))
      else (Store(s.orders[d.id := row], logged, s.limits[d.id := threshold]), Row(row))
  }

  function Resolve(s: Store, id: string, approved: bool, operator: string, note: Option<string>, now: real)
    : (Store, Answer)
  {
    if id !in s.orders then (s, UnknownId)
    else if s.orders[id].status != Pending then (s, Conflict(s.orders[id]))
    else
      var o := s.orders[id].(status := if approved then Approved else Rejected, operatorId := Some(operator),
                             note := note, resolvedAt := Some(now));
      (s.(orders := s.orders[id := o],
          events := s.events + [HitlApproval(id, approved, operator),
                                if approved then OrderApproved(id, operator) else OrderRejected(id, operator)]),
       Row(o))
  }

  function MarkFilled(s: Store, id: string, operator: string, now: real): (Store, Answer) {
    if id !in s.orders then (s, NoRow)
    else if s.orders[id].status != Approved then (s, Row(s.orders[id]))
    else
      var was := s.orders[id];
      var o := was.(status := Filled, filledAt := Some(now),
                    resolvedAt := if was.resolvedAt.Some? then was.resolvedAt else Some(now));
      (s.(orders := s.orders[id := o], events := s.events + FillEvents(o, operator)), Row(o))
  }

  function Cancel(s: Store, id: string, reason: string, now: real): (Store, Answer) {
    if id !in s.orders then (s, NoRow)
    else if s.orders[id].status != Pending then (s, Row(s.orders[id]))
    else
      var o := s.orders[id].(status := Cancelled, resolvedAt := Some(now), note := Some(reason));
      (s.(orders := s.orders[id := o], events := s.events + [OrderCancelled(id, reason)]), Row(o))
  }

  function Apply(s: Store, op: Op): Store {
    match op
    case SubmitOp(d, g, t, now) => Submit(s, d, g, t, now).0
    case ResolveOp(id, ok, who, note, now) => Resolve(s, id, ok, who, note, now).0
    case MarkFilledOp(id, who, now) => MarkFilled(s, id, who, now).0
    case CancelOp(id, why, now) => Cancel(s, id, why, now).0
  }

  function ApplyAll(s: Store, ops: seq<Op>): Store
    decreases ops
  {
    if ops == [] then s else ApplyAll(Apply(s, ops[0]), ops[1..])
  }

  // ------------------------------------------------------------ the handshake

  /** `clock(k)` is the loop's reading before poll `k`; `env(k)` are the steps other processes
      take while the loop sleeps after poll `k`. Each sleep lasts at least `poll` seconds. */
  datatype Wait = Wait(clock: nat -> real, env: nat -> seq<Op>, poll: real, cancelTime: real)

  ghost predicate Ticking(w: Wait) {
    w.poll > 0.0 && forall k: nat :: w.clock(k + 1) >= w.clock(k) + w.poll
  }

  function PollsLeft(left: real, poll: real): nat
    requires poll > 0.0
  {
    if left <= 0.0 then 0 else (left / poll).Floor + 1
  }

  lemma {:induction false} PollsDecrease(left: real, next: real, poll: real)
    requires poll > 0.0 && left > 0.0 && next <= left - poll
    ensures PollsLeft(next, poll) < PollsLeft(left, poll)
  {
    if next > 0.0 {
      var a, b := left / poll, next / poll;
      assert a * poll == left && b * poll == next;
      assert (a - b - 1.0) * poll >= 0.0;
      NonNegativeFactor(a - b - 1.0, poll);
    }
  }

  function Decided(s: Store, id: string): Option<bool> {
    if id !in s.orders then Some(false)
    else match s.orders[id].status
      case Approved => Some(true)
      case Filled => Some(true)
      case Rejected => Some(false)
      case Cancelled => Some(false)
      case Pending => None
  }

  /** `wait_for_decision` from poll `k` on: the store it leaves and its answer. */
  ghost function WaitFrom(s: Store, id: string, w: Wait, deadline: real, k: nat): (Store, bool)
    requires Ticking(w)
    decreases PollsLeft(deadline - w.clock(k), w.poll)
  {
    if w.clock(k) < deadline then
      var decided := Decided(s, id);
      if decided.Some? then (s, decided.value)
      else
        PollsDecrease(deadline - w.clock(k), deadline - w.clock(k + 1), w.poll);
        WaitFrom(ApplyAll(s, w.env(k)), id, w, deadline, k + 1)
    else (Cancel(s, id, "decision_timeout", w.cancelTime).0, false)
  }

  datatype Signal = Signal(id: string, pair: string, action: string, entryPrice: real, sizePct: real,
                           quantity: real, critical: bool)

  function DerivedQuantity(capital: real, sizePct: real, price: real): real
    requires price > 0.0
  {
    capital * sizePct / 100.0 / price
  }

  /** The order an approval request is turned into, or none when it cannot be sized. */
  function Sized(x: Signal, capital: real): Option<Draft> {
    var q := if x.quantity <= 0.0 && x.entryPrice > 0.0 && x.sizePct > 0.0
             then DerivedQuantity(capital, x.sizePct, x.entryPrice) else x.quantity;
    if q <= 0.0 || x.entryPrice <= 0.0 then None
    else Some(Draft(x.id, x.pair, x.action, q, x.entryPrice, x.critical))
  }

  /** The approval handler: the id of an approved or filled order, or none. `between` are the
      steps others take between the submission and the first poll. */
  ghost function Handle(s: Store, x: Signal, capital: real, guard: Guard, threshold: real, now: real,
                        between: seq<Op>, w: Wait, deadline: real): (Store, Option<string>)
    requires Ticking(w)
  {
    var draft := Sized(x, capital);
    if draft.None? then (s, None)
    else
      var (s1, answer) := Submit(s, draft.value, guard, threshold, now);
      match answer
      case Row(o) =>
        if o.status == Filled then (s1, Some(x.id))
        else if o.status == Rejected || o.status == Cancelled then (s1, None)
        else
          var (s2, ok) := WaitFrom(ApplyAll(s1, between), x.id, w, deadline, 0);
          (s2, if ok then Some(x.id) else None)
      case _ => (s1, None)
  }

  // ---------------------------------------------------------------- properties

  function StatusOf(s: Store, id: string): Option<Status> {
    if id in s.orders then Some(s.orders[id].status) else None
  }

  /** The only status changes any step can make. */
  ghost predicate CanBecome(a: Option<Status>, b: Option<Status>) {
    || a == b
    || (a == None && b != Some(Approved))
    || (a == Some(Pending) && b != None)
    || (a == Some(Approved) && b == Some(Filled))
  }

  ghost predicate Absorbing(st: Status) { st == Filled || st == Rejected || st == Cancelled }

  /** One step, any order: the lifecycle, and rows in an absorbing status never change again. */
  lemma {:induction false} StepLifecycle(s: Store, op: Op, id: string)
    ensures CanBecome(StatusOf(s, id), StatusOf(Apply(s, op), id))
    ensures id in s.orders && Absorbing(s.orders[id].status) ==>
              id in Apply(s, op).orders && Apply(s, op).orders[id] == s.orders[id]
    ensures id in s.orders ==> id in Apply(s, op).orders && Apply(s, op).orders[id].draft == s.orders[id].draft
  {
  }

  ghost predicate Reaches(a: Option<Status>, b: Option<Status>) {
    CanBecome(a, b) || a == None
  }

  /** Whole runs of any steps by any process: `rejected`, `cancelled` and `filled` rows stay
      exactly as they are, and an approved order can only stay approved or become filled. */
  lemma {:induction false} RunLifecycle(s: Store, ops: seq<Op>, id: string)
    ensures Reaches(StatusOf(s, id), StatusOf(ApplyAll(s, ops), id))
    ensures id in s.orders && Absorbing(s.orders[id].status) ==>
              id in ApplyAll(s, ops).orders && ApplyAll(s, ops).orders[id] == s.orders[id]
    decreases ops
  {
    if ops != [] {
      StepLifecycle(s, ops[0], id);
      RunLifecycle(Apply(s, ops[0]), ops[1..], id);
    }
  }

  function FillCount(events: seq<Event>, id: string): nat {
    if events == [] then 0
    else FillCount(events[..|events| - 1], id) + (if events[|events| - 1].OrderFill? && events[|events| - 1].id == id then 1 else 0)
  }

  lemma {:induction false} FillCountConcat(a: seq<Event>, b: seq<Event>, id: string)
    ensures FillCount(a + b, id) == FillCount(a, id) + FillCount(b, id)
  {
    if b == [] {
      assert a + b == a;
    } else {
      FillCountConcat(a, b[..|b| - 1], id);
      assert (a + b)[..|a + b| - 1] == a + b[..|b| - 1];
    }
  }

  ghost predicate HumanApproved(s: Store, id: string) {
    exists who :: OrderApproved(id, who) in s.events
  }

  ghost predicate AutoAllowed(s: Store, id: string)
    requires id in s.orders
  {
    && id in s.limits && s.limits[id] > 0.0
    && Notional(s.orders[id].draft) <= s.limits[id] && !s.orders[id].draft.critical
  }

  /** What holds of one order id in every reachable store. */
  ghost predicate Honest(s: Store, id: string) {
    && FillCount(s.events, id) == (if StatusOf(s, id) == Some(Filled) then 1 else 0)
    && (id in s.orders ==>
          && s.orders[id].draft.id == id
          && (s.orders[id].status == Approved ==> HumanApproved(s, id))
          && (s.orders[id].status == Filled ==> HumanApproved(s, id) || AutoAllowed(s, id)))
  }

  lemma {:induction false} ApprovalKept(s: Store, t: Store, id: string)
    requires s.events <= t.events && HumanApproved(s, id)
    ensures HumanApproved(t, id)
  {
  }

  lemma {:induction false} EventsGrow(s: Store, op: Op)
    ensures s.events <= Apply(s, op).events
  {
  }

  lemma {:induction false} FillCountOne(e: Event, id: string)
    ensures FillCount([e], id) == if e.OrderFill? && e.id == id then 1 else 0
  {
  }

  lemma {:induction false} FillEventsCount(o: Order, operator: string, id: string)
    ensures FillCount(FillEvents(o, operator), id) == if o.draft.id == id then 1 else 0
  {
    var es := FillEvents(o, operator);
    FillCountConcat([es[0]], [es[1], es[2]], id);
    FillCountConcat([es[1]], [es[2]], id);
    assert es == [es[0]] + [es[1], es[2]] && [es[1], es[2]] == [es[1]] + [es[2]];
    FillCountOne(es[0], id);
    FillCountOne(es[1], id);
    FillCountOne(es[2], id);
  }

  lemma {:induction false} NoFillCount(es: seq<Event>, id: string)
    requires |es| <= 3 && forall e <- es :: !e.OrderFill?
    ensures FillCount(es, id) == 0
  {
    if es != [] {
      NoFillCount(es[..|es| - 1], id);
    }
  }

  lemma {:induction false} SubmitHonest(s: Store, op: Op, id: string)
    requires op.SubmitOp? && Honest(s, id)
    ensures Honest(Apply(s, op), id)
  {
    var d := op.draft;
    var t := Apply(s, op);
    EventsGrow(s, op);
    if d.id !in s.orders {
      var o := t.orders[d.id];
      var logged := s.events + [Submitted(d.id)];
      FillCountConcat(s.events, [Submitted(d.id)], id);
      NoFillCount([Submitted(d.id)], id);
      if op.guard.Violated? {
        var es := [HitlApproval(d.id, false, "guardrails"), OrderRejected(d.id, "guardrails")];
        FillCountConcat(logged, es, id);
        NoFillCount(es, id);
      } else if Auto(d, op.threshold) {
        FillCountConcat(logged, FillEvents(o, "auto"), id);
        FillEventsCount(o, "auto", id);
      }
      if id != d.id && HumanApproved(s, id) {
        ApprovalKept(s, t, id);
      }
    }
  }

  /** Booking `es` and moving the one order `k` to `o`, in the three ways the store does it. */
  lemma {:induction false} MoveHonest(s: Store, t: Store, k: string, o: Order, es: seq<Event>, id: string)
    requires Honest(s, id) && Honest(s, k) && k in s.orders && o.draft == s.orders[k].draft
    requires t.orders == s.orders[k := o] && t.events == s.events + es && t.limits == s.limits
    requires FillCount(es, id) == if id == k && o.status == Filled then 1 else 0
    requires s.orders[k].status != Filled
    requires o.status == Approved || o.status == Filled ==> HumanApproved(t, k)
    ensures Honest(t, id)
  {
    FillCountConcat(s.events, es, id);
    if HumanApproved(s, id) {
      ApprovalKept(s, t, id);
    }
  }

  lemma {:induction false} ResolveHonest(s: Store, op: Op, id: string)
    requires op.ResolveOp? && Honest(s, id) && Honest(s, op.id)
    ensures Honest(Apply(s, op), id)
  {
    var t := Apply(s, op);
    if op.id in s.orders && s.orders[op.id].status == Pending {
      var es := [HitlApproval(op.id, op.approved, op.operator),
                 if op.approved then OrderApproved(op.id, op.operator) else OrderRejected(op.id, op.operator)];
      assert t.events == s.events + es && es[1] in t.events;
      NoFillCount(es, id);
      MoveHonest(s, t, op.id, t.orders[op.id], es, id);
    }
  }

  lemma {:induction false} MarkFilledHonest(s: Store, op: Op, id: string)
    requires op.MarkFilledOp? && Honest(s, id) && Honest(s, op.id)
    ensures Honest(Apply(s, op), id)
  {
    var t := Apply(s, op);
    if op.id in s.orders && s.orders[op.id].status == Approved {
      var o := t.orders[op.id];
      FillEventsCount(o, op.operator, id);
      ApprovalKept(s, t, op.id);
      MoveHonest(s, t, op.id, o, FillEvents(o, op.operator), id);
    }
  }

  lemma {:induction false} CancelHonest(s: Store, op: Op, id: string)
    requires op.CancelOp? && Honest(s, id) && Honest(s, op.id)
    ensures Honest(Apply(s, op), id)
  {
  }

  lemma {:induction false} StepHonest(s: Store, op: Op, id: string)
    requires AllHonest(s)
    ensures Honest(Apply(s, op), id)
  {
    match op
    case SubmitOp(d, g, th, now) => SubmitHonest(s, op, id);
    case ResolveOp(k, ok, who, note, now) => ResolveHonest(s, op, id);
    case MarkFilledOp(k, who, now) => MarkFilledHonest(s, op, id);
    case CancelOp(k, why, now) => CancelHonest(s, op, id);
  }

  ghost predicate AllHonest(s: Store) { forall id :: Honest(s, id) }

  lemma {:induction false} RunHonest(s: Store, ops: seq<Op>)
    requires AllHonest(s)
    ensures AllHonest(ApplyAll(s, ops))
    decreases ops
  {
    if ops != [] {
      forall id ensures Honest(Apply(s, ops[0]), id) {
        StepHonest(s, ops[0], id);
      }
      RunHonest(Apply(s, ops[0]), ops[1..]);
    }
  }

  /** From an empty store, whatever the two processes do: an order has exactly one `order_fill`
      event if it is filled and none otherwise, and a filled order was approved by a human or
      was a non-critical order within a positive threshold when it was submitted. */
  lemma {:induction false} EveryRunHonest(ops: seq<Op>, id: string)
    ensures Honest(ApplyAll(EMPTY, ops), id)
  {
    forall k ensures Honest(EMPTY, k) {
    }
    RunHonest(EMPTY, ops);
  }

  // ------------------------------------------------------ waiting and executing

  /** However the wait ends, a `true` means approved or filled, and a `false` leaves no order
      pending: it is gone, rejected or cancelled, or was decided after the last poll. */
  lemma {:induction false} WaitOutcome(s: Store, id: string, w: Wait, deadline: real, k: nat)
    requires Ticking(w)
    ensures var (t, ok) := WaitFrom(s, id, w, deadline, k);
      && (ok ==> StatusOf(t, id) == Some(Approved) || StatusOf(t, id) == Some(Filled))
      && StatusOf(t, id) != Some(Pending)
    decreases PollsLeft(deadline - w.clock(k), w.poll)
  {
    if w.clock(k) < deadline && Decided(s, id).None? {
      PollsDecrease(deadline - w.clock(k), deadline - w.clock(k + 1), w.poll);
      WaitOutcome(ApplyAll(s, w.env(k)), id, w, deadline, k + 1);
    }
  }

  /** An id the handler returned can be executed: after any further steps of any process the
      order is still approved or filled, and `mark_filled` leaves it filled. */
  lemma {:induction false} HandshakeCompletes(s: Store, x: Signal, capital: real, guard: Guard, threshold: real,
                                              now: real, between: seq<Op>, w: Wait, deadline: real,
                                              later: seq<Op>, operator: string, fillTime: real)
    requires Ticking(w)
    requires Handle(s, x, capital, guard, threshold, now, between, w, deadline).1.Some?
    ensures var (t, id) := Handle(s, x, capital, guard, threshold, now, between, w, deadline);
      var u := ApplyAll(t, later);
      && (StatusOf(u, id.value) == Some(Approved) || StatusOf(u, id.value) == Some(Filled))
      && StatusOf(MarkFilled(u, id.value, operator, fillTime).0, id.value) == Some(Filled)
  {
    var (t, id) := Handle(s, x, capital, guard, threshold, now, between, w, deadline);
    var d := Sized(x, capital).value;
    var (s1, answer) := Submit(s, d, guard, threshold, now);
    if answer.Row? && answer.order.status == Pending {
      WaitOutcome(ApplyAll(s1, between), x.id, w, deadline, 0);
    }
    RunLifecycle(t, later, id.value);
  }

  /** A signal that gives no positive size never becomes an order: the handler returns no id
      and leaves the table and the ledger as they were. */
  lemma {:induction false} UnsizedNeverInserted(s: Store, x: Signal, capital: real, guard: Guard, threshold: real,
                                                now: real, between: seq<Op>, w: Wait, deadline: real)
    requires Ticking(w)
    ensures Sized(x, capital).None? <==>
              x.entryPrice <= 0.0 || (x.quantity <= 0.0 && (x.sizePct <= 0.0 || capital <= 0.0))
    ensures Sized(x, capital).None? ==>
              Handle(s, x, capital, guard, threshold, now, between, w, deadline) == (s, None)
  {
  }

  /** The race the timeout leaves open: an approval landing after the last poll is kept, but
      the loop was told `false`, so the order stays approved and unfilled. */
  lemma {:induction false} LateApprovalStranded(s: Store, id: string, w: Wait, deadline: real,
                                                operator: string, note: Option<string>, now: real)
    requires Ticking(w) && StatusOf(s, id) == Some(Pending)
    requires w.clock(0) < deadline <= w.clock(1)
    requires w.env(0) == [ResolveOp(id, true, operator, note, now)]
    ensures var (t, ok) := WaitFrom(s, id, w, deadline, 0);
      !ok && StatusOf(t, id) == Some(Approved)
  {
    var ops := w.env(0);
    assert ops[1..] == [];
    assert ApplyAll(s, ops) == ApplyAll(Apply(s, ops[0]), []);
    assert WaitFrom(s, id, w, deadline, 0) == WaitFrom(ApplyAll(s, ops), id, w, deadline, 1);
  }

  predicate Decides(op: Op, id: string) {
    (op.ResolveOp? || op.CancelOp?) && op.id == id
  }

  ghost predicate Undecided(ops: seq<Op>, id: string) { forall i :: 0 <= i < |ops| ==> !Decides(ops[i], id) }

  /** The first decision on `id` approves it at step `i`, and no later step marks it filled. */
  ghost predicate ApprovesAt(ops: seq<Op>, id: string, i: int) {
    && 0 <= i < |ops| && Decides(ops[i], id) && ops[i].ResolveOp? && ops[i].approved
    && Undecided(ops[..i], id)
    && NoFill(ops[i + 1..], id)
  }

  ghost predicate NoFill(ops: seq<Op>, id: string) {
    forall i :: 0 <= i < |ops| ==> !(ops[i].MarkFilledOp? && ops[i].id == id)
  }

  ghost predicate LeavesApproved(ops: seq<Op>, id: string) { exists i :: ApprovesAt(ops, id, i) }

  lemma {:induction false} StaysPending(s: Store, ops: seq<Op>, id: string)
    requires StatusOf(s, id) == Some(Pending)
    ensures StatusOf(ApplyAll(s, ops), id) == Some(Pending) <==> Undecided(ops, id)
    decreases ops
  {
    if ops != [] {
      var t := Apply(s, ops[0]);
      assert Undecided(ops, id) <==> !Decides(ops[0], id) && Undecided(ops[1..], id) by {
        assert forall i :: 0 < i < |ops| ==> ops[i] == ops[1..][i - 1];
      }
      if Decides(ops[0], id) {
        RunLifecycle(t, ops[1..], id);
      } else {
        StaysPending(t, ops[1..], id);
      }
    }
  }

  lemma {:induction false} StaysApproved(s: Store, ops: seq<Op>, id: string)
    requires StatusOf(s, id) == Some(Approved)
    ensures StatusOf(ApplyAll(s, ops), id) == Some(Approved) <==> NoFill(ops, id)
    decreases ops
  {
    if ops != [] {
      var t := Apply(s, ops[0]);
      assert forall i :: 0 < i < |ops| ==> ops[i] == ops[1..][i - 1];
      if ops[0].MarkFilledOp? && ops[0].id == id {
        RunLifecycle(t, ops[1..], id);
      } else {
        StaysApproved(t, ops[1..], id);
      }
    }
  }

  lemma {:induction false} ApprovesLater(ops: seq<Op>, id: string, i: int)
    requires ops != [] && !Decides(ops[0], id)
    ensures ApprovesAt(ops, id, i) <==> i > 0 && ApprovesAt(ops[1..], id, i - 1)
  {
    if 0 < i < |ops| {
      assert ops[1..][..i - 1] == ops[..i][1..] && ops[1..][i..] == ops[i + 1..];
      assert Undecided(ops[..i], id) <==> Undecided(ops[..i][1..], id) by {
        assert forall j :: 0 < j < i ==> ops[..i][j] == ops[..i][1..][j - 1];
      }
    }
  }

  /** What a series of steps makes of a pending order. */
  lemma {:induction false} BecomesApproved(s: Store, ops: seq<Op>, id: string)
    requires StatusOf(s, id) == Some(Pending)
    ensures StatusOf(ApplyAll(s, ops), id) == Some(Approved) <==> LeavesApproved(ops, id)
    decreases ops
  {
    if ops != [] {
      var t := Apply(s, ops[0]);
      if !Decides(ops[0], id) {
        BecomesApproved(t, ops[1..], id);
        forall i ensures ApprovesAt(ops, id, i) <==> i > 0 && ApprovesAt(ops[1..], id, i - 1) {
          ApprovesLater(ops, id, i);
        }
        if LeavesApproved(ops[1..], id) {
          var i :| ApprovesAt(ops[1..], id, i);
          assert ApprovesAt(ops, id, i + 1);
        }
      } else {
        forall i ensures ApprovesAt(ops, id, i) <==> i == 0 && ApprovesAt(ops, id, 0) {
          assert i > 0 && i < |ops| ==> Decides(ops[..i][0], id);
        }
        if ops[0].ResolveOp? && ops[0].approved {
          StaysApproved(t, ops[1..], id);
          assert ApprovesAt(ops, id, 0) <==> NoFill(ops[1..], id);
        } else {
          RunLifecycle(t, ops[1..], id);
        }
      }
    }
  }

  /** Poll `n` is the last one before the deadline. */
  ghost predicate LastPoll(w: Wait, deadline: real, n: nat) { w.clock(n) < deadline <= w.clock(n + 1) }

  /** Nobody decides the order during the sleeps after polls `k` to `n - 1`, and the steps
      during the sleep after poll `n` leave it approved. */
  ghost predicate ApprovedTooLate(w: Wait, id: string, k: nat, n: nat) {
    && k <= n && LeavesApproved(w.env(n), id)
    && forall j: nat :: k <= j < n ==> Undecided(w.env(j), id)
  }

  lemma {:induction false} ClockGrows(w: Wait, k: nat, n: nat)
    requires Ticking(w) && k <= n
    ensures w.clock(k) <= w.clock(n)
    decreases n
  {
    if k < n {
      ClockGrows(w, k, n - 1);
      assert w.clock((n - 1) + 1) >= w.clock(n - 1) + w.poll;
    }
  }

  ghost predicate Stranded(s: Store, id: string, w: Wait, deadline: real, k: nat)
    requires Ticking(w)
  {
    var (t, ok) := WaitFrom(s, id, w, deadline, k);
    !ok && StatusOf(t, id) == Some(Approved)
  }

  /** Exactly which steps of the other processes strand an approval: the wait started at or past
      its deadline on an approved order, or it started in time on a pending one that nobody
      decided before the last poll and that the steps after that poll left approved. */
  lemma {:induction false} StrandedIff(s: Store, id: string, w: Wait, deadline: real, k: nat)
    requires Ticking(w)
    ensures Stranded(s, id, w, deadline, k) <==>
      if w.clock(k) >= deadline then StatusOf(s, id) == Some(Approved)
      else StatusOf(s, id) == Some(Pending)
           && exists n: nat :: LastPoll(w, deadline, n) && ApprovedTooLate(w, id, k, n)
    decreases PollsLeft(deadline - w.clock(k), w.poll)
  {
    if w.clock(k) < deadline && StatusOf(s, id) == Some(Pending) {
      var t := ApplyAll(s, w.env(k));
      StaysPending(s, w.env(k), id);
      BecomesApproved(s, w.env(k), id);
      PollsDecrease(deadline - w.clock(k), deadline - w.clock(k + 1), w.poll);
      StrandedIff(t, id, w, deadline, k + 1);
      assert Stranded(s, id, w, deadline, k) == Stranded(t, id, w, deadline, k + 1);
      forall n: nat | LastPoll(w, deadline, n) && k <= n ensures n == k <==> w.clock(k + 1) >= deadline {
        if k < n {
          ClockGrows(w, k + 1, n);
        }
      }
      if w.clock(k + 1) >= deadline {
        assert LastPoll(w, deadline, k);
      } else {
        forall n: nat | LastPoll(w, deadline, n)
          ensures ApprovedTooLate(w, id, k, n) <==> Undecided(w.env(k), id) && ApprovedTooLate(w, id, k + 1, n)
        {
        }
      }
    }
  }
}
