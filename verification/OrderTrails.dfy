/** What a submission becomes, what the ledger says of every order, and when a wait ends. */
module OrderTrails {
  import opened Lists
  import opened Orders

  // ------------------------------------------------------------- submissions

  /** An order the system may fill by itself. */
  predicate SmallEnough(d: Draft, threshold: real) {
    !d.critical && threshold > 0.0 && d.price * d.quantity <= threshold
  }

  /** What a submission makes of an id the store does not have, whatever happened before it and
      whatever happens after it: a violated guardrail rejects for good, before any threshold is
      looked at; otherwise a small enough order is filled at once and any other waits. */
  lemma {:induction false} SubmissionDecides(before: seq<Op>, d: Draft, guard: Guard, threshold: real, now: real,
                                             after: seq<Op>)
    requires d.id !in ApplyAll(EMPTY, before).orders
    ensures var t := Apply(ApplyAll(EMPTY, before), SubmitOp(d, guard, threshold, now));
      var u := ApplyAll(t, after);
      && d.id in t.orders && t.orders[d.id].draft == d
      && StatusOf(t, d.id) == Some(if guard.Violated? then Rejected else if SmallEnough(d, threshold) then Filled else Pending)
      && (guard.Violated? ==>
            StatusOf(u, d.id) == Some(Rejected) && u.orders[d.id] == t.orders[d.id] && FillCount(u.events, d.id) == 0)
      && (!guard.Violated? && SmallEnough(d, threshold) ==>
            StatusOf(u, d.id) == Some(Filled) && u.orders[d.id] == t.orders[d.id] && FillCount(u.events, d.id) == 1)
  {
    var s := ApplyAll(EMPTY, before);
    var op := SubmitOp(d, guard, threshold, now);
    var t := Apply(s, op);
    forall k ensures Honest(EMPTY, k) {
    }
    RunHonest(EMPTY, before);
    RunHonest(s, [op]);
    assert [op][1..] == [] && ApplyAll(s, [op]) == t;
    RunHonest(t, after);
    RunLifecycle(t, after, d.id);
    assert Honest(ApplyAll(t, after), d.id);
  }

  /** What each call answers: the row as the store then has it, or that there is none. */
  lemma {:induction false} AnswersAreRows(s: Store, d: Draft, guard: Guard, threshold: real, id: string, approved: bool,
                                          who: string, note: Option<string>, why: string, now: real)
    ensures var (t, a) := Submit(s, d, guard, threshold, now);
      if d.id in s.orders then t == s && a == DuplicateId else d.id in t.orders && a == Row(t.orders[d.id])
    ensures var (t, a) := Resolve(s, id, approved, who, note, now);
      if StatusOf(s, id) == Some(Pending)
      then && id in t.orders && a == Row(t.orders[id])
           && t.orders[id].operatorId == Some(who) && t.orders[id].note == note && t.orders[id].resolvedAt == Some(now)
      else t == s && a == if id in s.orders then Conflict(s.orders[id]) else UnknownId
    ensures var (t, a) := MarkFilled(s, id, who, now); a == if id in t.orders then Row(t.orders[id]) else NoRow
    ensures var (t, a) := Cancel(s, id, why, now); a == if id in t.orders then Row(t.orders[id]) else NoRow
  {
  }

  /** A decision is on record for good: no later step changes when it was made, by whom or with what
      note, not even the fill. */
  lemma {:induction false} DecisionStands(s: Store, ops: seq<Op>, id: string)
    requires id in s.orders && s.orders[id].resolvedAt.Some? && s.orders[id].status != Pending
    ensures id in ApplyAll(s, ops).orders
    ensures var o, later := s.orders[id], ApplyAll(s, ops).orders[id];
      && later.draft == o.draft && later.resolvedAt == o.resolvedAt && later.operatorId == o.operatorId
      && later.note == o.note && later.autoApproved == o.autoApproved
    decreases ops
  {
    if ops != [] {
      DecisionStands(Apply(s, ops[0]), ops[1..], id);
    }
  }

  // ------------------------------------------------------------------ trails

  function About(id: string): Event -> bool { (e: Event) => e.id == id }

  /** The six ways an order's events can read, each with the status and the columns it leaves. */
  ghost predicate TrailOf(es: seq<Event>, o: Order) {
    var id := o.draft.id;
    var decider := o.operatorId.GetOr("guardrails");
    match o.status
    case Pending => es == [Submitted(id)] && o.operatorId == None
    case Approved => o.operatorId.Some? && es == [Submitted(id), HitlApproval(id, true, decider), OrderApproved(id, decider)]
    case Rejected => es == [Submitted(id), HitlApproval(id, false, decider), OrderRejected(id, decider)]
    case Cancelled => o.note.Some? && es == [Submitted(id), OrderCancelled(id, o.note.value)]
    case Filled =>
      if o.autoApproved then
        es == [Submitted(id), HitlApproval(id, true, "auto"), OrderFill(id, o.draft.price, o.draft.quantity),
               OrderFilled(id, "auto", true)]
      else
        && o.operatorId.Some?
        && exists who ::
             es == [Submitted(id), HitlApproval(id, true, decider), OrderApproved(id, decider), HitlApproval(id, true, who),
                    OrderFill(id, o.draft.price, o.draft.quantity), OrderFilled(id, who, false)]
  }

  /** The columns that go with a status. */
  ghost predicate Dated(o: Order) {
    && (o.resolvedAt.Some? <==> o.status != Pending) && (o.filledAt.Some? <==> o.status == Filled)
    && (o.autoApproved ==> o.status == Filled && o.resolvedAt == o.filledAt)
  }

  /** The events of an id tell the story of its row, and an id without a row has none. */
  ghost predicate Trailed(s: Store, id: string) {
    if id in s.orders then
      s.orders[id].draft.id == id && TrailOf(Filter(s.events, About(id)), s.orders[id]) && Dated(s.orders[id])
    else Filter(s.events, About(id)) == []
  }

  lemma {:induction false} FilterOwn(es: seq<Event>, id: string, k: string)
    requires forall e <- es :: e.id == k
    ensures Filter(es, About(id)) == if id == k then es else []
  {
    if es != [] {
      FilterOwn(es[1..], id, k);
      assert es == [es[0]] + es[1..];
    }
  }

  lemma {:induction false} MoveTrailed(s: Store, t: Store, k: string, o: Order, more: seq<Event>, id: string)
    requires Trailed(s, id) && o.draft.id == k && Dated(o)
    requires t.orders == s.orders[k := o] && t.events == s.events + more && forall e <- more :: e.id == k
    requires TrailOf(Filter(s.events, About(k)) + more, o)
    ensures Trailed(t, id)
  {
    FilterConcat(s.events, more, About(id));
    FilterOwn(more, id, k);
    assert Filter(s.events, About(id)) + [] == Filter(s.events, About(id));
  }

  /** A new row and its first events, which are all there is about its id. */
  lemma {:induction false} NewTrailed(s: Store, t: Store, o: Order, more: seq<Event>, id: string)
    requires o.draft.id !in s.orders && Trailed(s, id) && Trailed(s, o.draft.id) && Dated(o)
    requires t.orders == s.orders[o.draft.id := o] && t.events == s.events + more
    requires forall e <- more :: e.id == o.draft.id
    requires TrailOf(more, o)
    ensures Trailed(t, id)
  {
    assert Filter(s.events, About(o.draft.id)) + more == more;
    MoveTrailed(s, t, o.draft.id, o, more, id);
  }

  lemma {:induction false} RejectedTrailed(s: Store, d: Draft, guard: Guard, threshold: real, now: real, id: string)
    requires guard.Violated? && d.id !in s.orders && Trailed(s, id) && Trailed(s, d.id)
    ensures Trailed(Submit(s, d, guard, threshold, now).0, id)
  {
    var t := Submit(s, d, guard, threshold, now).0;
    var more := [Submitted(d.id), HitlApproval(d.id, false, "guardrails"), OrderRejected(d.id, "guardrails")];
    assert t.events == s.events + more;
    NewTrailed(s, t, t.orders[d.id], more, id);
  }

  lemma {:induction false} AutoTrailed(s: Store, d: Draft, guard: Guard, threshold: real, now: real, id: string)
    requires !guard.Violated? && Auto(d, threshold) && d.id !in s.orders && Trailed(s, id) && Trailed(s, d.id)
    ensures Trailed(Submit(s, d, guard, threshold, now).0, id)
  {
    var t := Submit(s, d, guard, threshold, now).0;
    var more := [Submitted(d.id), HitlApproval(d.id, true, "auto"), OrderFill(d.id, d.price, d.quantity),
                 OrderFilled(d.id, "auto", true)];
    assert t.events == s.events + more;
    NewTrailed(s, t, t.orders[d.id], more, id);
  }

  lemma {:induction false} PendingTrailed(s: Store, d: Draft, guard: Guard, threshold: real, now: real, id: string)
    requires !guard.Violated? && !Auto(d, threshold) && d.id !in s.orders && Trailed(s, id) && Trailed(s, d.id)
    ensures Trailed(Submit(s, d, guard, threshold, now).0, id)
  {
    var t := Submit(s, d, guard, threshold, now).0;
    NewTrailed(s, t, NewOrder(d), [Submitted(d.id)], id);
  }

  lemma {:induction false} SubmitTrailed(s: Store, op: Op, id: string)
    requires op.SubmitOp? && Trailed(s, id) && Trailed(s, op.draft.id)
    ensures Trailed(Apply(s, op), id)
  {
    if op.draft.id !in s.orders {
      if op.guard.Violated? {
        RejectedTrailed(s, op.draft, op.guard, op.threshold, op.now, id);
      } else if Auto(op.draft, op.threshold) {
        AutoTrailed(s, op.draft, op.guard, op.threshold, op.now, id);
      } else {
        PendingTrailed(s, op.draft, op.guard, op.threshold, op.now, id);
      }
    }
  }

  lemma {:induction false} ResolveTrailed(s: Store, op: Op, id: string)
    requires op.ResolveOp? && Trailed(s, id) && Trailed(s, op.id)
    ensures Trailed(Apply(s, op), id)
  {
    if StatusOf(s, op.id) == Some(Pending) {
      var t := Apply(s, op);
      var more := [HitlApproval(op.id, op.approved, op.operator),
                   if op.approved then OrderApproved(op.id, op.operator) else OrderRejected(op.id, op.operator)];
      assert [Submitted(op.id)] + more == [Submitted(op.id), more[0], more[1]];
      MoveTrailed(s, t, op.id, t.orders[op.id], more, id);
    }
  }

  lemma {:induction false} FillTrailed(s: Store, op: Op, id: string)
    requires op.MarkFilledOp? && Trailed(s, id) && Trailed(s, op.id)
    ensures Trailed(Apply(s, op), id)
  {
    if StatusOf(s, op.id) == Some(Approved) {
      var t := Apply(s, op);
      var o := t.orders[op.id];
      var es, more := Filter(s.events, About(op.id)), FillEvents(o, op.operator);
      assert es + more == [es[0], es[1], es[2], more[0], more[1], more[2]];
      assert TrailOf(es + more, o);
      MoveTrailed(s, t, op.id, o, more, id);
    }
  }

  lemma {:induction false} CancelTrailed(s: Store, op: Op, id: string)
    requires op.CancelOp? && Trailed(s, id) && Trailed(s, op.id)
    ensures Trailed(Apply(s, op), id)
  {
    if StatusOf(s, op.id) == Some(Pending) {
      var t := Apply(s, op);
      MoveTrailed(s, t, op.id, t.orders[op.id], [OrderCancelled(op.id, op.reason)], id);
    }
  }

  lemma {:induction false} StepTrailed(s: Store, op: Op, id: string)
    requires forall k :: Trailed(s, k)
    ensures Trailed(Apply(s, op), id)
  {
    match op
    case SubmitOp(d, g, th, now) => SubmitTrailed(s, op, id);
    case ResolveOp(k, ok, who, note, now) => ResolveTrailed(s, op, id);
    case MarkFilledOp(k, who, now) => FillTrailed(s, op, id);
    case CancelOp(k, why, now) => CancelTrailed(s, op, id);
  }

  lemma {:induction false} RunTrailed(s: Store, ops: seq<Op>)
    requires forall k :: Trailed(s, k)
    ensures forall k :: Trailed(ApplyAll(s, ops), k)
    decreases ops
  {
    if ops != [] {
      forall k ensures Trailed(Apply(s, ops[0]), k) {
        StepTrailed(s, ops[0], k);
      }
      RunTrailed(Apply(s, ops[0]), ops[1..]);
    }
  }

  /** In every reachable store the events of an order are one of six words, and the word says what
      its row says: its status, who decided, the reason it was cancelled for, and, when it was
      filled, its own price and quantity. */
  lemma {:induction false} EveryRunTrailed(ops: seq<Op>, id: string)
    ensures Trailed(ApplyAll(EMPTY, ops), id)
  {
    forall k ensures Trailed(EMPTY, k) {
    }
    RunTrailed(EMPTY, ops);
  }

  // ---------------------------------------------------------------- the wait

  /** The store at poll `n` of a wait that began at poll `k`, with nobody but the others at work. */
  ghost function StoreAt(s: Store, w: Wait, k: nat, n: nat): Store
    requires k <= n
  {
    if n == k then s else ApplyAll(StoreAt(s, w, k, n - 1), w.env(n - 1))
  }

  lemma {:induction false} StoreAtShift(s: Store, w: Wait, k: nat, n: nat)
    requires k < n
    ensures StoreAt(s, w, k, n) == StoreAt(ApplyAll(s, w.env(k)), w, k + 1, n)
    decreases n
  {
    if k + 1 < n {
      StoreAtShift(s, w, k, n - 1);
    } else {
      assert StoreAt(s, w, k, k) == s;
    }
  }

  /** Poll `j` is in time and finds the order pending. */
  ghost predicate GoesOn(s: Store, id: string, w: Wait, deadline: real, k: nat, j: nat)
    requires k <= j
  {
    w.clock(j) < deadline && StatusOf(StoreAt(s, w, k, j), id) == Some(Pending)
  }

  /** Poll `n` is the first that does not. */
  ghost predicate EndsAt(s: Store, id: string, w: Wait, deadline: real, k: nat, n: nat) {
    && k <= n && !GoesOn(s, id, w, deadline, k, n)
    && forall j: nat :: k <= j < n ==> GoesOn(s, id, w, deadline, k, j)
  }

  /** The wait ends at the first poll that is late or finds the order decided or gone. In time, it
      answers what it found and changes nothing; late, it cancels and answers no. */
  lemma {:induction false} WaitIs(s: Store, id: string, w: Wait, deadline: real, k: nat) returns (n: nat)
    requires Ticking(w)
    ensures EndsAt(s, id, w, deadline, k, n)
    ensures var found := StoreAt(s, w, k, n);
      WaitFrom(s, id, w, deadline, k) ==
        if w.clock(n) < deadline then (found, StatusOf(found, id) == Some(Approved) || StatusOf(found, id) == Some(Filled))
        else (Apply(found, CancelOp(id, "decision_timeout", w.cancelTime)), false)
    decreases PollsLeft(deadline - w.clock(k), w.poll)
  {
    n := k;
    if GoesOn(s, id, w, deadline, k, k) {
      PollsDecrease(deadline - w.clock(k), deadline - w.clock(k + 1), w.poll);
      var t := ApplyAll(s, w.env(k));
      n := WaitIs(t, id, w, deadline, k + 1);
      forall j: nat | k < j <= n ensures GoesOn(s, id, w, deadline, k, j) == GoesOn(t, id, w, deadline, k + 1, j) {
        StoreAtShift(s, w, k, j);
      }
      StoreAtShift(s, w, k, n);
    }
  }

  // -------------------------------------------------------------- the handler

  /** The order a signal becomes: its own quantity where it has one, otherwise the quantity that
      spends its share of the capital. */
  lemma {:induction false} SizedOrder(x: Signal, capital: real)
    requires Sized(x, capital).Some?
    ensures var d := Sized(x, capital).value;
      && d.id == x.id && d.pair == x.pair && d.side == x.action && d.price == x.entryPrice && d.critical == x.critical
      && d.price > 0.0 && d.quantity > 0.0
      && (if x.quantity > 0.0 then d.quantity == x.quantity else d.quantity * d.price == capital * (x.sizePct / 100.0))
  {
    var d := Sized(x, capital).value;
    if x.quantity <= 0.0 {
      var spent := capital * x.sizePct / 100.0;
      assert d.quantity == spent / x.entryPrice && d.quantity * x.entryPrice == spent;
    }
  }

  lemma {:induction false} RunKeepsDraft(s: Store, ops: seq<Op>, id: string)
    requires id in s.orders
    ensures id in ApplyAll(s, ops).orders && ApplyAll(s, ops).orders[id].draft == s.orders[id].draft
    decreases ops
  {
    if ops != [] {
      StepLifecycle(s, ops[0], id);
      RunKeepsDraft(Apply(s, ops[0]), ops[1..], id);
    }
  }

  lemma {:induction false} StoreAtKeepsDraft(s: Store, w: Wait, k: nat, n: nat, id: string)
    requires k <= n && id in s.orders
    ensures id in StoreAt(s, w, k, n).orders && StoreAt(s, w, k, n).orders[id].draft == s.orders[id].draft
    decreases n
  {
    if k < n {
      StoreAtKeepsDraft(s, w, k, n - 1, id);
      RunKeepsDraft(StoreAt(s, w, k, n - 1), w.env(n - 1), id);
    }
  }

  /** Poll `n` finds the order approved or filled, in time. */
  ghost predicate FoundReady(s: Store, id: string, w: Wait, deadline: real, n: nat) {
    && w.clock(n) < deadline
    && (StatusOf(StoreAt(s, w, 0, n), id) == Some(Approved) || StatusOf(StoreAt(s, w, 0, n), id) == Some(Filled))
  }

  /** What the handler leaves of a signal with a new id: the order it sized is in the store and not
      waiting for a decision any more. It gives no id for a rejected submission, the id at once for one
      that filled itself, and for any other exactly when the poll that ended the wait found the order
      approved or filled in time. */
  lemma {:induction false} HandleAnswers(s: Store, x: Signal, capital: real, guard: Guard, threshold: real,
                                         now: real, between: seq<Op>, w: Wait, deadline: real) returns (n: nat)
    requires Ticking(w) && Sized(x, capital).Some? && x.id !in s.orders
    ensures var d := Sized(x, capital).value;
      var (t, id) := Handle(s, x, capital, guard, threshold, now, between, w, deadline);
      && x.id in t.orders && t.orders[x.id].draft == d && t.orders[x.id].status != Pending
      && (id.Some? ==> id == Some(x.id))
      && if guard.Violated? then id == None && t.orders[x.id].status == Rejected
         else if SmallEnough(d, threshold) then id == Some(x.id) && t.orders[x.id].status == Filled
         else var submitted := ApplyAll(Apply(s, SubmitOp(d, guard, threshold, now)), between);
           && EndsAt(submitted, x.id, w, deadline, 0, n)
           && (id.Some? <==> FoundReady(submitted, x.id, w, deadline, n))
  {
    n := 0;
    var d := Sized(x, capital).value;
    SizedOrder(x, capital);
    if !guard.Violated? && !SmallEnough(d, threshold) {
      var s1 := Apply(s, SubmitOp(d, guard, threshold, now));
      var s2 := ApplyAll(s1, between);
      RunKeepsDraft(s1, between, x.id);
      WaitOutcome(s2, x.id, w, deadline, 0);
      n := WaitIs(s2, x.id, w, deadline, 0);
      StoreAtKeepsDraft(s2, w, 0, n, x.id);
      StepLifecycle(StoreAt(s2, w, 0, n), CancelOp(x.id, "decision_timeout", w.cancelTime), x.id);
    }
  }
}
