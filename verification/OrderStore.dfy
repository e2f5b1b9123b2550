/** The imperative order store and its approval handler, proved to be the steps of `Orders`. */
module OrderBridge {
  import opened Lists
  import opened Orders

  class OrderStore {
    var orders: map<string, Order>
    var events: seq<Event>
    ghost var limits: map<string, real>

    ghost function Contents(): Store
      reads this
    {
      Store(orders, events, limits)
    }

    /** The id column is the primary key. */
    ghost predicate Valid()
      reads this
    {
      forall k <- orders :: orders[k].draft.id == k
    }

    constructor ()
      ensures Valid() && Contents() == EMPTY
    {
      orders, events, limits := map[], [], map[];
    }

    method LogFillEvents(o: Order, operator: string)
      modifies this`events
      ensures events == old(events) + FillEvents(o, operator)
    {
      events := events + [HitlApproval(o.draft.id, true, operator)];
      events := events + [OrderFill(o.draft.id, o.draft.price, o.draft.quantity)];
      events := events + [OrderFilled(o.draft.id, operator, o.autoApproved)];
    }

    method Submit(d: Draft, guard: Guard, threshold: real, now: real) returns (answer: Answer)
      requires Valid()
      modifies this
      ensures Valid() && (Contents(), answer) == Orders.Submit(old(Contents()), d, guard, threshold, now)
      ensures d.id !in old(orders) ==>
        && d.id in orders && orders[d.id].draft == d
        && orders[d.id].status ==
             if guard.Violated? then Rejected
             else if !d.critical && threshold > 0.0 && d.price * d.quantity <= threshold then Filled else Pending
    {
      if d.id in orders {
        return DuplicateId;
      }
      var o := NewOrder(d);
      orders := orders[d.id := o];
      limits := limits[d.id := threshold];
      events := events + [Submitted(d.id)];
      if guard.Violated? {
        o := o.(status := Rejected, resolvedAt := Some(now), note := Some(guard.reason));
        orders := orders[d.id := o];
        events := events + [HitlApproval(d.id, false, "guardrails"), OrderRejected(d.id, "guardrails")];
        assert orders == old(orders)[d.id := o];
        return Row(o);
      }
      if threshold > 0.0 && Notional(d) <= threshold && !d.critical {
        o := o.(status := Filled, autoApproved := true, resolvedAt := Some(now), filledAt := Some(now));
        orders := orders[d.id := o];
        LogFillEvents(o, "auto");
        assert orders == old(orders)[d.id := o];
      }
      return Row(o);
    }

    method Resolve(id: string, approved: bool, operator: string, note: Option<string>, now: real)
      returns (answer: Answer)
      requires Valid()
      modifies this
      ensures Valid() && (Contents(), answer) == Orders.Resolve(old(Contents()), id, approved, operator, note, now)
    {
      if id !in orders {
        return UnknownId;
      }
      var o := orders[id];
      if o.status != Pending {
        return Conflict(o);
      }
      o := o.(operatorId := Some(operator), note := note, resolvedAt := Some(now));
      if approved {
        o := o.(status := Approved);
        orders := orders[id := o];
        events := events + [HitlApproval(id, true, operator), OrderApproved(id, operator)];
      } else {
        o := o.(status := Rejected);
        orders := orders[id := o];
        events := events + [HitlApproval(id, false, operator), OrderRejected(id, operator)];
      }
      return Row(o);
    }

    method MarkFilled(id: string, operator: string, now: real) returns (answer: Answer)
      requires Valid()
      modifies this
      ensures Valid() && (Contents(), answer) == Orders.MarkFilled(old(Contents()), id, operator, now)
    {
      var affected := id in orders && orders[id].status == Approved;
      if affected {
        var o := orders[id];
        var resolved := if o.resolvedAt.Some? then o.resolvedAt else Some(now);
        orders := orders[id := o.(status := Filled, filledAt := Some(now), resolvedAt := resolved)];
      }
      if id !in orders {
        return NoRow;
      }
      if affected {
        LogFillEvents(orders[id], operator);
      }
      return Row(orders[id]);
    }

    method Cancel(id: string, reason: string, now: real) returns (answer: Answer)
      requires Valid()
      modifies this
      ensures Valid() && (Contents(), answer) == Orders.Cancel(old(Contents()), id, reason, now)
    {
      if id !in orders {
        return NoRow;
      }
      var o := orders[id];
      if o.status != Pending {
        return Row(o);
      }
      o := o.(status := Cancelled, resolvedAt := Some(now), note := Some(reason));
      orders := orders[id := o];
      events := events + [OrderCancelled(id, reason)];
      return Row(o);
    }

    /** The steps other processes take while the loop sleeps. */
    method Others(ops: seq<Op>)
      requires Valid()
      modifies this
      ensures Valid() && Contents() == ApplyAll(old(Contents()), ops)
    {
      var i := 0;
      while i < |ops|
        invariant i <= |ops|
        invariant ApplyAll(Contents(), ops[i..]) == ApplyAll(old(Contents()), ops)
        invariant Valid()
      {
        assert ops[i..][1..] == ops[i + 1..];
        var answer;
        match ops[i] {
          case SubmitOp(d, g, t, now) => answer := Submit(d, g, t, now);
          case ResolveOp(id, ok, who, note, now) => answer := Resolve(id, ok, who, note, now);
          case MarkFilledOp(id, who, now) => answer := MarkFilled(id, who, now);
          case CancelOp(id, why, now) => answer := Cancel(id, why, now);
        }
        i := i + 1;
      }
    }

    /** Polls the shared status until it is decided or the deadline passes; terminates because
        every sleep moves the clock by at least the poll interval. */
    method WaitForDecision(id: string, w: Wait, deadline: real) returns (ok: bool)
      requires Ticking(w)
      requires Valid()
      modifies this
      ensures Valid() && (Contents(), ok) == WaitFrom(old(Contents()), id, w, deadline, 0)
    {
      var k: nat := 0;
      while w.clock(k) < deadline
        invariant WaitFrom(Contents(), id, w, deadline, k) == WaitFrom(old(Contents()), id, w, deadline, 0)
        invariant Valid()
        decreases PollsLeft(deadline - w.clock(k), w.poll)
      {
        if id !in orders {
          return false;
        }
        var status := orders[id].status;
        if status == Approved || status == Filled {
          return true;
        }
        if status == Rejected || status == Cancelled {
          return false;
        }
        PollsDecrease(deadline - w.clock(k), deadline - w.clock(k + 1), w.poll);
        Others(w.env(k));
        k := k + 1;
      }
      var answer := Cancel(id, "decision_timeout", w.cancelTime);
      return false;
    }

    method Handle(x: Signal, capital: real, guard: Guard, threshold: real, now: real,
                  between: seq<Op>, w: Wait, deadline: real) returns (approved: Option<string>)
      requires Ticking(w)
      requires Valid()
      modifies this
      ensures Valid() && (Contents(), approved)
           == Orders.Handle(old(Contents()), x, capital, guard, threshold, now, between, w, deadline)
    {
      var quantity := x.quantity;
      if quantity <= 0.0 && x.entryPrice > 0.0 && x.sizePct > 0.0 {
        quantity := DerivedQuantity(capital, x.sizePct, x.entryPrice);
      }
      if quantity <= 0.0 || x.entryPrice <= 0.0 {
        return None;
      }
      var answer := Submit(Draft(x.id, x.pair, x.action, quantity, x.entryPrice, x.critical), guard, threshold, now);
      if !answer.Row? {
        return None;
      }
      if answer.order.status == Filled {
        return Some(x.id);
      }
      if answer.order.status == Rejected || answer.order.status == Cancelled {
        return None;
      }
      Others(between);
      var ok := WaitForDecision(x.id, w, deadline);
      return if ok then Some(x.id) else None;
    }
  }
}
