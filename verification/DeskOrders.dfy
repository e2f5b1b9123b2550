/** The order handshake and the desk cycle together: the cycle asks the approval handler, trades
    on its answer, and reports the execution back to the order store. */
module DeskOrders {
  import opened Lists
  import D = TradingDesk
  import O = Orders

  /** What the handler and the store meet while a cycle waits, trades and reports. */
  datatype Meeting = Meeting(
    signal: O.Signal, capital: real, guard: O.Guard, threshold: real, now: real, between: seq<O.Op>,
    wait: O.Wait, deadline: real, later: seq<O.Op>, operator: string, fillTime: real)

  /** The cycle gets as far as asking for approval. */
  predicate Asks(d: D.Desk, cfg: D.Config, x: D.CycleInput) {
    D.Cycle(d, cfg, x.(humanApproves := false)).1 == D.HumanRejected
  }

  /** One cycle with the handler as the approval callback and `mark_filled` as the fill callback;
      `later` are the steps other processes take while the trade executes. */
  ghost function JointCycle(d: D.Desk, s: O.Store, cfg: D.Config, x: D.CycleInput, m: Meeting)
    : (D.Desk, O.Store, D.Outcome)
    requires O.Ticking(m.wait)
  {
    if !Asks(d, cfg, x) then
      var (d2, outcome) := D.Cycle(d, cfg, x);
      (d2, s, outcome)
    else
      var (s1, id) := O.Handle(s, m.signal, m.capital, m.guard, m.threshold, m.now, m.between, m.wait, m.deadline);
      var (d2, outcome) := D.Cycle(d, cfg, x.(humanApproves := id.Some?));
      var s2 := O.ApplyAll(s1, m.later);
      if outcome == D.Traded(true) && id.Some? then (d2, O.MarkFilled(s2, id.value, m.operator, m.fillTime).0, outcome)
      else (d2, s2, outcome)
  }

  lemma {:induction false} GateAsks(d: D.Desk, cfg: D.Config, x: D.CycleInput)
    ensures var asked := D.Gate(d, cfg, x.(humanApproves := false));
      D.Gate(d, cfg, x)
      == if asked == D.HumanRejected && x.humanApproves then D.Traded(x.execution.success) else asked
  {
  }

  /** The approval flag changes nothing before the approval gate. */
  lemma {:induction false} AskedBeforeTrading(d: D.Desk, cfg: D.Config, x: D.CycleInput)
    ensures D.Cycle(d, cfg, x).1.Traded? ==> Asks(d, cfg, x)
  {
    if !D.Blocks(d.breaker, x.startTime) && !(x.stub && !x.allowStub) {
      var ready := D.ReadBreaker(d, x.startTime);
      var managed := D.Managed(ready, x);
      assert D.Managed(ready, x.(humanApproves := false)) == managed;
      GateAsks(managed, cfg, x);
    }
  }

  lemma {:induction false} TradesOnlyApproved(d: D.Desk, cfg: D.Config, x: D.CycleInput)
    requires D.Cycle(d, cfg, x).1.Traded?
    ensures x.humanApproves
  {
  }

  lemma {:induction false} WaitHonest(s: O.Store, id: string, w: O.Wait, deadline: real, k: nat)
    requires O.Ticking(w) && O.AllHonest(s)
    ensures O.AllHonest(O.WaitFrom(s, id, w, deadline, k).0)
    decreases O.PollsLeft(deadline - w.clock(k), w.poll)
  {
    if w.clock(k) >= deadline {
      O.RunHonest(s, [O.CancelOp(id, "decision_timeout", w.cancelTime)]);
      OneStep(s, O.CancelOp(id, "decision_timeout", w.cancelTime));
    } else if O.Decided(s, id).None? {
      O.PollsDecrease(deadline - w.clock(k), deadline - w.clock(k + 1), w.poll);
      O.RunHonest(s, w.env(k));
      WaitHonest(O.ApplyAll(s, w.env(k)), id, w, deadline, k + 1);
    }
  }

  lemma {:induction false} OneStep(s: O.Store, op: O.Op)
    ensures O.ApplyAll(s, [op]) == O.Apply(s, op)
  {
    assert [op][1..] == [];
  }

  lemma {:induction false} HandleHonest(s: O.Store, m: Meeting)
    requires O.Ticking(m.wait) && O.AllHonest(s)
    ensures O.AllHonest(O.Handle(s, m.signal, m.capital, m.guard, m.threshold, m.now, m.between, m.wait, m.deadline).0)
  {
    var draft := O.Sized(m.signal, m.capital);
    if draft.Some? {
      var op := O.SubmitOp(draft.value, m.guard, m.threshold, m.now);
      var s1 := O.Apply(s, op);
      O.RunHonest(s, [op]);
      OneStep(s, op);
      O.RunHonest(s1, m.between);
      WaitHonest(O.ApplyAll(s1, m.between), m.signal.id, m.wait, m.deadline, 0);
    }
  }

  lemma {:induction false} ReportedIsFilled(s: O.Store, id: string, operator: string, now: real)
    requires O.AllHonest(s)
    requires O.StatusOf(O.MarkFilled(s, id, operator, now).0, id) == Some(O.Filled)
    ensures var t := O.MarkFilled(s, id, operator, now).0;
      O.AllHonest(t) && O.FillCount(t.events, id) == 1 && (O.HumanApproved(t, id) || O.AutoAllowed(t, id))
  {
    var fill := O.MarkFilledOp(id, operator, now);
    O.RunHonest(s, [fill]);
    OneStep(s, fill);
    assert O.Honest(O.Apply(s, fill), id);
  }

  ghost predicate FilledOnce(t: O.Store, id: string) {
    && O.AllHonest(t) && O.StatusOf(t, id) == Some(O.Filled) && O.FillCount(t.events, id) == 1
    && (O.HumanApproved(t, id) || O.AutoAllowed(t, id))
  }

  /** An id the handler gives is the signal's, and reporting it fills that order. */
  lemma {:induction false} AnswerHolds(s: O.Store, m: Meeting) returns (s1: O.Store, id: Option<string>)
    requires O.Ticking(m.wait) && O.AllHonest(s)
    ensures (s1, id) == O.Handle(s, m.signal, m.capital, m.guard, m.threshold, m.now, m.between, m.wait, m.deadline)
    ensures O.AllHonest(O.ApplyAll(s1, m.later))
    ensures id.Some? ==> id.value == m.signal.id
    ensures id.Some? ==> FilledOnce(O.MarkFilled(O.ApplyAll(s1, m.later), id.value, m.operator, m.fillTime).0, id.value)
  {
    var r := O.Handle(s, m.signal, m.capital, m.guard, m.threshold, m.now, m.between, m.wait, m.deadline);
    s1, id := r.0, r.1;
    HandleHonest(s, m);
    O.RunHonest(s1, m.later);
    if id.Some? {
      O.HandshakeCompletes(s, m.signal, m.capital, m.guard, m.threshold, m.now, m.between, m.wait, m.deadline,
                           m.later, m.operator, m.fillTime);
      ReportedIsFilled(O.ApplyAll(s1, m.later), id.value, m.operator, m.fillTime);
    }
  }

  /** Every successful execution ends with its order filled, logged as filled exactly once, and
      approved by a human or within the automatic threshold. */
  lemma {:induction false} ExecutedIsFilled(d: D.Desk, s: O.Store, cfg: D.Config, x: D.CycleInput, m: Meeting)
    requires O.Ticking(m.wait) && O.AllHonest(s)
    ensures var (d2, t, outcome) := JointCycle(d, s, cfg, x, m);
      O.AllHonest(t) && (outcome == D.Traded(true) ==> FilledOnce(t, m.signal.id))
  {
    AskedBeforeTrading(d, cfg, x);
    if Asks(d, cfg, x) {
      var s1, id := AnswerHolds(s, m);
      if D.Cycle(d, cfg, x.(humanApproves := id.Some?)).1.Traded? {
        TradesOnlyApproved(d, cfg, x.(humanApproves := id.Some?));
      }
    }
  }
}
