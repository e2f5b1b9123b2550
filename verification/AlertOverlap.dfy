/** Exactly when the dispatcher claims a byte of the file twice, over every history of the
    workers, shrink branch included. */
module AlertOverlap {
  import opened Lists
  import opened AlertClaims

  /** The greatest end claimed so far. */
  function Furthest(claims: seq<Claim>, c0: nat): nat {
    if claims == [] then c0
    else
      var before := Furthest(claims[..|claims| - 1], c0);
      var to := claims[|claims| - 1].to;
      if to > before then to else before
  }

  /** Worker `w` is about to win a claim while the cursor is back behind bytes already claimed. */
  predicate ClaimsBehind(s: State, step: Step, c0: nat) {
    && step.TryClaim? && step.w < |s.phases| && s.phases[step.w].Ready?
    && Cursor(s) == s.phases[step.w].pos && Cursor(s) < Furthest(s.claims, c0)
  }

  predicate NeverBehind(s: State, steps: seq<Step>, c0: nat)
    decreases steps
  {
    steps == [] || (!ClaimsBehind(s, steps[0], c0) && NeverBehind(Next(s, steps[0]), steps[1..], c0))
  }

  predicate Covers(c: Claim, x: int) { c.from <= x < c.to }

  /** No byte belongs to two claims. */
  ghost predicate ClaimedOnce(claims: seq<Claim>) {
    forall i, j, x :: 0 <= i < j < |claims| ==> !(Covers(claims[i], x) && Covers(claims[j], x))
  }

  // --------------------------------------------------------------- invariant

  ghost predicate Covered(claims: seq<Claim>, x: int) {
    exists k :: 0 <= k < |claims| && Covers(claims[k], x)
  }

  /** The claims cover exactly the bytes from the initial cursor to the furthest end. */
  ghost predicate Spans(claims: seq<Claim>, c0: nat) {
    && (forall k :: 0 <= k < |claims| ==> claims[k].from < claims[k].to)
    && (forall x :: Covered(claims, x) <==> c0 <= x < Furthest(claims, c0))
  }

  ghost predicate Placed(c0: nat, furthest: nat, size: nat, p: Phase) {
    match p
    case Sized(n) => c0 <= n <= size
    case Shrinking(n, pos) => c0 <= n < furthest
    case Ready(pos, upto) => pos < upto
    case _ => true
  }

  ghost predicate AllPlaced(c0: nat, furthest: nat, size: nat, phases: seq<Phase>) {
    forall w :: 0 <= w < |phases| ==> Placed(c0, furthest, size, phases[w])
  }

  /** What holds in every history, resets included. */
  ghost predicate Ranged(s: State, c0: nat) {
    && c0 <= Cursor(s) <= Furthest(s.claims, c0) && c0 <= |s.file|
    && Spans(s.claims, c0)
    && AllPlaced(c0, Furthest(s.claims, c0), |s.file|, s.phases)
  }

  lemma {:induction false} FurthestSnoc(claims: seq<Claim>, c: Claim, c0: nat)
    ensures Furthest(claims + [c], c0) == if c.to > Furthest(claims, c0) then c.to else Furthest(claims, c0)
  {
    assert (claims + [c])[..|claims|] == claims;
  }

  lemma {:induction false} FurthestUpdate(claims: seq<Claim>, k: nat, c: Claim, c0: nat)
    requires k < |claims| && c.to == claims[k].to
    ensures Furthest(claims[k := c], c0) == Furthest(claims, c0)
  {
    var n := |claims| - 1;
    if k == n {
      assert claims[k := c][..n] == claims[..n];
    } else {
      assert claims[k := c][..n] == claims[..n][k := c];
      FurthestUpdate(claims[..n], k, c, c0);
    }
  }

  lemma {:induction false} SpansSnoc(claims: seq<Claim>, c: Claim, c0: nat)
    requires Spans(claims, c0) && c.from < c.to && c0 <= c.from <= Furthest(claims, c0)
    ensures Spans(claims + [c], c0)
  {
    FurthestSnoc(claims, c, c0);
    var more := claims + [c];
    forall x ensures Covered(more, x) <==> Covered(claims, x) || Covers(c, x) {
      if Covered(claims, x) {
        var k :| 0 <= k < |claims| && Covers(claims[k], x);
        assert Covers(more[k], x);
      }
      if Covers(c, x) {
        assert Covers(more[|claims|], x);
      }
    }
  }

  lemma {:induction false} SpansUpdate(claims: seq<Claim>, k: nat, c: Claim, c0: nat)
    requires Spans(claims, c0) && k < |claims| && c.from == claims[k].from && c.to == claims[k].to
    ensures Spans(claims[k := c], c0)
  {
    FurthestUpdate(claims, k, c, c0);
    var more := claims[k := c];
    forall x ensures Covered(more, x) <==> Covered(claims, x) {
      if Covered(claims, x) {
        var j :| 0 <= j < |claims| && Covers(claims[j], x);
        assert Covers(more[j], x);
      }
      if Covered(more, x) {
        var j :| 0 <= j < |more| && Covers(more[j], x);
        assert Covers(claims[j], x);
      }
    }
  }

  lemma {:induction false} PhaseRanged(s: State, w: nat, p: Phase, cursor: Option<nat>, c0: nat)
    requires Ranged(s, c0) && w < |s.phases| && Placed(c0, Furthest(s.claims, c0), |s.file|, p)
    requires c0 <= cursor.GetOr(0) <= Furthest(s.claims, c0)
    ensures Ranged(SetPhase(s, w, p).(cursor := cursor), c0)
  {
  }

  lemma {:induction false} PlacedFurther(c0: nat, f: nat, f2: nat, size: nat, phases: seq<Phase>, w: nat, k: nat)
    requires w < |phases| && f <= f2 && AllPlaced(c0, f, size, phases)
    ensures AllPlaced(c0, f2, size, phases[w := Routing(k)])
  {
    var after := phases[w := Routing(k)];
    forall v | 0 <= v < |after| ensures Placed(c0, f2, size, after[v]) {
      assert v != w ==> Placed(c0, f, size, phases[v]);
    }
  }

  lemma {:induction false} ClaimRanged(s: State, w: nat, c0: nat)
    requires Ranged(s, c0) && w < |s.phases| && s.phases[w].Ready? && Cursor(s) == s.phases[w].pos
    ensures Ranged(Next(s, TryClaim(w)), c0)
  {
    var p := s.phases[w];
    assert Placed(c0, Furthest(s.claims, c0), |s.file|, p);
    ClaimedRanged(s, w, Claim(w, p.pos, p.upto, p.pos, [], false), c0);
  }

  lemma {:induction false} ClaimedRanged(s: State, w: nat, c: Claim, c0: nat)
    requires Ranged(s, c0) && w < |s.phases| && c.from < c.to && c.from == Cursor(s)
    ensures Ranged(s.(phases := s.phases[w := Routing(|s.claims|)], cursor := Some(c.to), claims := s.claims + [c]), c0)
  {
    FurthestSnoc(s.claims, c, c0);
    SpansSnoc(s.claims, c, c0);
    PlacedFurther(c0, Furthest(s.claims, c0), Furthest(s.claims + [c], c0), |s.file|, s.phases, w, |s.claims|);
  }

  lemma {:induction false} HeldRanged(s: State, w: nat, k: nat, c: Claim, p: Phase, c0: nat)
    requires Ranged(s, c0) && w < |s.phases| && k < |s.claims| && (p.Idle? || p.Routing?)
    requires c.from == s.claims[k].from && c.to == s.claims[k].to
    ensures Ranged(Held(s, w, k, c, p), c0)
  {
    FurthestUpdate(s.claims, k, c, c0);
    SpansUpdate(s.claims, k, c, c0);
  }

  lemma {:induction false} ReadsPlaced(file: seq<byte>, size: nat, cursor: nat, c0: nat, furthest: nat)
    requires c0 <= size <= |file| && cursor <= furthest
    ensures Placed(c0, furthest, |file|, AfterReads(file, size, cursor))
  {
  }

  lemma {:induction false} StepRanged(s: State, step: Step, c0: nat)
    requires Ranged(s, c0)
    ensures Ranged(Next(s, step), c0)
  {
    if step.Append? {
      forall w | 0 <= w < |s.phases| ensures Placed(c0, Furthest(s.claims, c0), |s.file + step.bytes|, s.phases[w]) {
        assert Placed(c0, Furthest(s.claims, c0), |s.file|, s.phases[w]);
      }
    } else if step.w < |s.phases| {
      WorkerRanged(s, step.w, step, c0);
    }
  }

  lemma {:induction false} WorkerRanged(s: State, w: nat, step: Step, c0: nat)
    requires Ranged(s, c0) && w < |s.phases| && !step.Append? && step.w == w
    ensures Ranged(WorkerStep(s, w, step), c0)
  {
    assert Placed(c0, Furthest(s.claims, c0), |s.file|, s.phases[w]);
    match (step, s.phases[w])
    case (ReadSize(_), Idle) => PhaseRanged(s, w, Sized(|s.file|), s.cursor, c0);
    case (ReadCursor(_), Sized(size)) =>
      ReadsPlaced(s.file, size, Cursor(s), c0, Furthest(s.claims, c0));
      PhaseRanged(s, w, AfterReads(s.file, size, Cursor(s)), s.cursor, c0);
    case (Snapshot(_), Idle) =>
      ReadsPlaced(s.file, |s.file|, Cursor(s), c0, Furthest(s.claims, c0));
      PhaseRanged(s, w, AfterReads(s.file, |s.file|, Cursor(s)), s.cursor, c0);
    case (Reset(_), Shrinking(size, _)) => PhaseRanged(s, w, Idle, Some(size), c0);
    case (TryClaim(_), Ready(pos, upto)) =>
      if Cursor(s) == pos {
        ClaimRanged(s, w, c0);
      } else {
        PhaseRanged(s, w, Idle, Some(Cursor(s)), c0);
      }
    case (RouteLine(_), Routing(k)) =>
      if k < |s.claims| && s.claims[k].done <= |s.file| {
        var c := RouteNext(s.file, s.claims[k]);
        HeldRanged(s, w, k, c, if c.done >= c.to then Idle else Routing(k), c0);
      }
    case (Crash(_), Routing(k)) =>
      if k < |s.claims| {
        HeldRanged(s, w, k, s.claims[k].(crashed := true), Idle, c0);
      }
    case (Crash(_), _) => PhaseRanged(s, w, Idle, s.cursor, c0);
    case _ =>
  }

  // ------------------------------------------------------ the exact condition

  lemma {:induction false} OnceUpdate(claims: seq<Claim>, k: nat, c: Claim)
    requires k < |claims| && c.from == claims[k].from && c.to == claims[k].to
    ensures ClaimedOnce(claims[k := c]) <==> ClaimedOnce(claims)
  {
    var more := claims[k := c];
    forall i, x | 0 <= i < |claims| ensures Covers(more[i], x) <==> Covers(claims[i], x) {
    }
    if ClaimedOnce(claims) {
      forall i, j, x | 0 <= i < j < |more| ensures !(Covers(more[i], x) && Covers(more[j], x)) {
        assert !(Covers(claims[i], x) && Covers(claims[j], x));
      }
    }
    if ClaimedOnce(more) {
      forall i, j, x | 0 <= i < j < |claims| ensures !(Covers(claims[i], x) && Covers(claims[j], x)) {
        assert !(Covers(more[i], x) && Covers(more[j], x));
      }
    }
  }

  /** A new claim that starts inside the covered bytes meets an old one, and one that starts at
      their end meets none. */
  lemma {:induction false} OnceSnoc(claims: seq<Claim>, c: Claim, c0: nat)
    requires Spans(claims, c0) && c.from < c.to && c0 <= c.from <= Furthest(claims, c0)
    ensures ClaimedOnce(claims + [c]) <==> ClaimedOnce(claims) && c.from == Furthest(claims, c0)
  {
    var n, more := |claims|, claims + [c];
    if ClaimedOnce(more) {
      forall i, j, x | 0 <= i < j < n ensures !(Covers(claims[i], x) && Covers(claims[j], x)) {
        assert !(Covers(more[i], x) && Covers(more[j], x));
      }
      if c.from < Furthest(claims, c0) {
        assert Covered(claims, c.from);
        var k :| 0 <= k < n && Covers(claims[k], c.from);
        assert Covers(more[k], c.from) && Covers(more[n], c.from);
      }
    }
    if ClaimedOnce(claims) && c.from == Furthest(claims, c0) {
      forall i, j, x | 0 <= i < j < |more| ensures !(Covers(more[i], x) && Covers(more[j], x)) {
        if j < n {
          assert !(Covers(claims[i], x) && Covers(claims[j], x));
        } else if Covers(claims[i], x) {
          assert Covered(claims, x);
        }
      }
    }
  }

  lemma {:induction false} StepOnceIff(s: State, step: Step, c0: nat)
    requires Ranged(s, c0)
    ensures ClaimedOnce(Next(s, step).claims) <==> ClaimedOnce(s.claims) && !ClaimsBehind(s, step, c0)
  {
    if !step.Append? && step.w < |s.phases| {
      var p := s.phases[step.w];
      assert Placed(c0, Furthest(s.claims, c0), |s.file|, p);
      if step.TryClaim? && p.Ready? && Cursor(s) == p.pos {
        OnceSnoc(s.claims, Claim(step.w, p.pos, p.upto, p.pos, [], false), c0);
      } else if step.RouteLine? && p.Routing? && p.claim < |s.claims| && s.claims[p.claim].done <= |s.file| {
        OnceUpdate(s.claims, p.claim, RouteNext(s.file, s.claims[p.claim]));
      } else if step.Crash? && p.Routing? && p.claim < |s.claims| {
        OnceUpdate(s.claims, p.claim, s.claims[p.claim].(crashed := true));
      }
    }
  }

  lemma {:induction false} RunOnceIff(s: State, steps: seq<Step>, c0: nat)
    requires Ranged(s, c0)
    ensures ClaimedOnce(Run(s, steps).claims) <==> ClaimedOnce(s.claims) && NeverBehind(s, steps, c0)
    decreases steps
  {
    if steps != [] {
      StepRanged(s, steps[0], c0);
      StepOnceIff(s, steps[0], c0);
      RunOnceIff(Next(s, steps[0]), steps[1..], c0);
    }
  }

  lemma {:induction false} InitialRanged(s: State, c0: nat)
    requires Initial(s, c0)
    ensures Ranged(s, c0) && ClaimedOnce(s.claims)
  {
  }

  /** One winner for every byte, over any number of workers, any interleaving, any crash points
      and any resets: if and only if no claim is won with the cursor behind bytes already claimed. */
  lemma {:induction false} ClaimedOnceIff(s: State, steps: seq<Step>, c0: nat)
    requires Initial(s, c0)
    ensures ClaimedOnce(Run(s, steps).claims) <==> NeverBehind(s, steps, c0)
  {
    InitialRanged(s, c0);
    RunOnceIff(s, steps, c0);
  }

  // ------------------------------------------------------------ lines, too

  /** The state with the cursor moved up to the furthest byte claimed. */
  function AtFurthest(s: State, c0: nat): State { s.(cursor := Some(Furthest(s.claims, c0))) }

  /** While no claim is won behind, the state is sound up to its furthest claim, wherever resets
      have taken the cursor. */
  ghost predicate SoundFurther(s: State, c0: nat) {
    Cursor(s) <= Furthest(s.claims, c0) && Sound(AtFurthest(s, c0), c0)
  }

  lemma {:induction false} PhaseFurther(s: State, w: nat, p: Phase, cursor: Option<nat>, c0: nat)
    requires SoundFurther(s, c0) && w < |s.phases| && !s.phases[w].Routing? && !p.Routing?
    requires GoodPhase(s.file, s.claims, Furthest(s.claims, c0), w, p) && cursor.GetOr(0) <= Furthest(s.claims, c0)
    ensures SoundFurther(SetPhase(s, w, p).(cursor := cursor), c0)
  {
    var v := AtFurthest(s, c0);
    PhaseSound(v, w, p, v.cursor, c0);
    assert AtFurthest(SetPhase(s, w, p).(cursor := cursor), c0) == SetPhase(v, w, p).(cursor := v.cursor);
  }

  /** A winning claim that is not behind starts where the claims so far end. */
  lemma {:induction false} ClaimFurther(s: State, w: nat, c0: nat)
    requires SoundFurther(s, c0) && w < |s.phases| && s.phases[w].Ready? && Cursor(s) == s.phases[w].pos
    requires Cursor(s) == Furthest(s.claims, c0)
    ensures SoundFurther(Claimed(s, w, s.phases[w].pos, s.phases[w].upto), c0)
  {
    var v := AtFurthest(s, c0);
    var p := s.phases[w];
    assert GoodPhase(v.file, v.claims, Cursor(v), w, p);
    FurthestSnoc(s.claims, Claim(w, p.pos, p.upto, p.pos, [], false), c0);
    ClaimSound(v, w, c0);
    assert AtFurthest(Claimed(s, w, p.pos, p.upto), c0) == Claimed(v, w, p.pos, p.upto);
  }

  /** Routing and crashing move neither the cursor nor the furthest claim. */
  lemma {:induction false} HeldFurther(s: State, w: nat, k: nat, c: Claim, p: Phase, c0: nat)
    requires SoundFurther(s, c0) && w < |s.phases| && s.phases[w] == Routing(k) && k < |s.claims|
    requires GoodClaim(s.file, c) && c.from == s.claims[k].from && c.to == s.claims[k].to
    requires c.worker == s.claims[k].worker
    requires if p == Idle then c.done == c.to || c.crashed else p == Routing(k) && !c.crashed && c.done < c.to
    ensures SoundFurther(Held(s, w, k, c, p), c0)
  {
    var v := AtFurthest(s, c0);
    FurthestUpdate(s.claims, k, c, c0);
    HeldSound(v, w, k, c, p, c0);
    assert AtFurthest(Held(s, w, k, c, p), c0) == Held(v, w, k, c, p);
  }

  /** The claim a routing worker holds. */
  lemma {:induction false} HeldClaim(s: State, w: nat, k: nat, c0: nat)
    requires SoundFurther(s, c0) && w < |s.phases| && s.phases[w] == Routing(k)
    ensures k < |s.claims| && GoodClaim(s.file, s.claims[k])
    ensures s.claims[k].done < s.claims[k].to && !s.claims[k].crashed
  {
    var v := AtFurthest(s, c0);
    assert GoodPhase(v.file, v.claims, Cursor(v), w, v.phases[w]);
    assert GoodClaim(v.file, v.claims[k]);
  }

  lemma {:induction false} RoutedGood(file: seq<byte>, c: Claim)
    requires GoodClaim(file, c) && c.done < c.to
    ensures GoodClaim(file, RouteNext(file, c))
  {
    LinesOfSnoc(file, c.from, c.done, c.to);
  }

  lemma {:induction false} RouteFurther(s: State, w: nat, k: nat, c0: nat)
    requires SoundFurther(s, c0) && w < |s.phases| && s.phases[w] == Routing(k)
    ensures k < |s.claims| && s.claims[k].done <= |s.file|
    ensures var c := RouteNext(s.file, s.claims[k]);
      SoundFurther(Held(s, w, k, c, if c.done >= c.to then Idle else Routing(k)), c0)
  {
    HeldClaim(s, w, k, c0);
    RoutedGood(s.file, s.claims[k]);
    var c := RouteNext(s.file, s.claims[k]);
    HeldFurther(s, w, k, c, if c.done >= c.to then Idle else Routing(k), c0);
  }

  lemma {:induction false} CrashFurther(s: State, w: nat, k: nat, c0: nat)
    requires SoundFurther(s, c0) && w < |s.phases| && s.phases[w] == Routing(k)
    ensures k < |s.claims| && SoundFurther(Held(s, w, k, s.claims[k].(crashed := true), Idle), c0)
  {
    HeldClaim(s, w, k, c0);
    HeldFurther(s, w, k, s.claims[k].(crashed := true), Idle, c0);
  }

  lemma {:induction false} FurtherPhase(s: State, w: nat, c0: nat)
    requires SoundFurther(s, c0) && w < |s.phases|
    ensures GoodPhase(s.file, s.claims, Furthest(s.claims, c0), w, s.phases[w])
  {
    var v := AtFurthest(s, c0);
    assert GoodPhase(v.file, v.claims, Cursor(v), w, v.phases[w]);
  }

  lemma {:induction false} SameFurther(s: State, t: State, c0: nat)
    requires s == t && SoundFurther(s, c0)
    ensures SoundFurther(t, c0)
  {
  }

  lemma {:induction false} ReadyStep(s: State, w: nat, step: Step) returns (t: State)
    requires w < |s.phases| && s.phases[w].Ready? && !step.Append? && step.w == w
    ensures t == WorkerStep(s, w, step)
    ensures t == if step.TryClaim? then
                   if Cursor(s) == s.phases[w].pos then Claimed(s, w, s.phases[w].pos, s.phases[w].upto)
                   else SetPhase(s, w, Idle).(cursor := Some(Cursor(s)))
                 else if step.Crash? then SetPhase(s, w, Idle).(cursor := s.cursor)
                 else s
  {
    t := WorkerStep(s, w, step);
  }

  lemma {:induction false} ReadyFurther(s: State, w: nat, step: Step, c0: nat)
    requires SoundFurther(s, c0) && w < |s.phases| && s.phases[w].Ready?
    requires !step.Append? && step.w == w && !ClaimsBehind(s, step, c0)
    ensures SoundFurther(WorkerStep(s, w, step), c0)
  {
    var t := ReadyStep(s, w, step);
    if step.TryClaim? && Cursor(s) == s.phases[w].pos {
      ClaimFurther(s, w, c0);
      SameFurther(Claimed(s, w, s.phases[w].pos, s.phases[w].upto), t, c0);
    } else if step.TryClaim? {
      PhaseFurther(s, w, Idle, Some(Cursor(s)), c0);
      SameFurther(SetPhase(s, w, Idle).(cursor := Some(Cursor(s))), t, c0);
    } else if step.Crash? {
      PhaseFurther(s, w, Idle, s.cursor, c0);
      SameFurther(SetPhase(s, w, Idle).(cursor := s.cursor), t, c0);
    }
  }

  lemma {:induction false} RouteStep(s: State, w: nat, k: nat)
    requires w < |s.phases| && s.phases[w] == Routing(k) && k < |s.claims| && s.claims[k].done <= |s.file|
    ensures var c := RouteNext(s.file, s.claims[k]);
      WorkerStep(s, w, RouteLine(w)) == Held(s, w, k, c, if c.done >= c.to then Idle else Routing(k))
  {
  }

  lemma {:induction false} CrashStep(s: State, w: nat, k: nat)
    requires w < |s.phases| && s.phases[w] == Routing(k) && k < |s.claims|
    ensures WorkerStep(s, w, Crash(w)) == Held(s, w, k, s.claims[k].(crashed := true), Idle)
  {
  }

  lemma {:induction false} OtherStep(s: State, w: nat, step: Step)
    requires w < |s.phases| && s.phases[w].Routing? && !step.Append? && !step.RouteLine? && !step.Crash?
    ensures WorkerStep(s, w, step) == s
  {
  }

  lemma {:induction false} RoutingFurther(s: State, w: nat, step: Step, c0: nat)
    requires SoundFurther(s, c0) && w < |s.phases| && s.phases[w].Routing? && !step.Append? && step.w == w
    ensures SoundFurther(WorkerStep(s, w, step), c0)
  {
    var k := s.phases[w].claim;
    if step.RouteLine? {
      RouteFurther(s, w, k, c0);
      RouteStep(s, w, k);
    } else if step.Crash? {
      CrashFurther(s, w, k, c0);
      CrashStep(s, w, k);
    } else {
      OtherStep(s, w, step);
    }
  }

  /** The phase and cursor a worker that holds no claim and is not about to win one moves to. */
  function Moved(s: State, w: nat, step: Step): (Phase, Option<nat>)
    requires w < |s.phases|
  {
    match (step, s.phases[w])
    case (ReadSize(_), Idle) => (Sized(|s.file|), s.cursor)
    case (ReadCursor(_), Sized(size)) =>
      (if size <= |s.file| then AfterReads(s.file, size, Cursor(s)) else s.phases[w], s.cursor)
    case (Snapshot(_), Idle) => (AfterReads(s.file, |s.file|, Cursor(s)), s.cursor)
    case (Reset(_), Shrinking(size, _)) => (Idle, Some(size))
    case (Crash(_), _) => (Idle, s.cursor)
    case _ => (s.phases[w], s.cursor)
  }

  lemma {:induction false} MovedStep(s: State, w: nat, step: Step)
    requires w < |s.phases| && !s.phases[w].Ready? && !s.phases[w].Routing? && !step.Append? && step.w == w
    ensures WorkerStep(s, w, step) == SetPhase(s, w, Moved(s, w, step).0).(cursor := Moved(s, w, step).1)
  {
    assert s.phases[w := s.phases[w]] == s.phases;
  }

  lemma {:induction false} MovedGood(s: State, w: nat, step: Step, furthest: nat)
    requires w < |s.phases| && !s.phases[w].Ready? && !s.phases[w].Routing? && Cursor(s) <= furthest
    requires GoodPhase(s.file, s.claims, furthest, w, s.phases[w])
    ensures var (p, cursor) := Moved(s, w, step);
      GoodPhase(s.file, s.claims, furthest, w, p) && !p.Routing? && cursor.GetOr(0) <= furthest
  {
  }

  lemma {:induction false} ReadingFurther(s: State, w: nat, step: Step, c0: nat)
    requires SoundFurther(s, c0) && w < |s.phases| && !s.phases[w].Ready? && !s.phases[w].Routing?
    requires !step.Append? && step.w == w
    ensures SoundFurther(WorkerStep(s, w, step), c0)
  {
    FurtherPhase(s, w, c0);
    MovedGood(s, w, step, Furthest(s.claims, c0));
    MovedStep(s, w, step);
    PhaseFurther(s, w, Moved(s, w, step).0, Moved(s, w, step).1, c0);
  }

  lemma {:induction false} AppendFurther(s: State, bytes: seq<byte>, c0: nat)
    requires SoundFurther(s, c0)
    ensures SoundFurther(Next(s, Append(bytes)), c0)
  {
    var v := AtFurthest(s, c0);
    AppendSound(v, bytes, c0);
    assert AtFurthest(Next(s, Append(bytes)), c0) == Next(v, Append(bytes));
  }

  lemma {:induction false} StepFurther(s: State, step: Step, c0: nat)
    requires SoundFurther(s, c0) && !ClaimsBehind(s, step, c0)
    ensures SoundFurther(Next(s, step), c0)
  {
    if step.Append? {
      AppendFurther(s, step.bytes, c0);
    } else if step.w < |s.phases| {
      if s.phases[step.w].Ready? {
        ReadyFurther(s, step.w, step, c0);
      } else if s.phases[step.w].Routing? {
        RoutingFurther(s, step.w, step, c0);
      } else {
        ReadingFurther(s, step.w, step, c0);
      }
    }
  }

  lemma {:induction false} RunFurther(s: State, steps: seq<Step>, c0: nat)
    requires SoundFurther(s, c0) && NeverBehind(s, steps, c0)
    ensures SoundFurther(Run(s, steps), c0)
    decreases steps
  {
    if steps != [] {
      StepFurther(s, steps[0], c0);
      RunFurther(Next(s, steps[0]), steps[1..], c0);
    }
  }

  lemma {:induction false} InitialFurther(s: State, c0: nat)
    requires Initial(s, c0)
    ensures SoundFurther(s, c0)
  {
  }

  /** The promise for lines, resets included: while no claim is won behind, every complete line from
      the initial cursor to the furthest claim was claimed by exactly one worker, and routed exactly
      once if that worker got to it and never otherwise. */
  lemma {:induction false} LinesOnceNeverBehind(s: State, steps: seq<Step>, c0: nat, a: nat) returns (k: nat)
    requires Initial(s, c0) && NeverBehind(s, steps, c0)
    requires c0 <= a < Furthest(Run(s, steps).claims, c0) && Aligned(Run(s, steps).file, a)
    ensures var t := Run(s, steps);
      && k < |t.claims| && t.claims[k].from <= a < t.claims[k].to
      && (forall j :: 0 <= j < |t.claims| && t.claims[j].from <= a < t.claims[j].to ==> j == k)
      && RouteCount(t.claims, a) == (if a < t.claims[k].done then 1 else 0)
      && (a >= t.claims[k].done ==> t.claims[k].crashed || Routing(k) in t.phases)
  {
    InitialFurther(s, c0);
    RunFurther(s, steps, c0);
    k := RoutedOnce(AtFurthest(Run(s, steps), c0), c0, a);
  }

  lemma {:induction false} ChainFurthest(claims: seq<Claim>, c0: nat, cursor: nat)
    requires Chain(claims, c0, cursor) && forall k :: 0 <= k < |claims| ==> claims[k].from < claims[k].to
    ensures Furthest(claims, c0) == cursor
  {
    if claims != [] {
      var n := |claims| - 1;
      assert Linked(claims, n, cursor);
      forall k | 0 <= k < n ensures Linked(claims[..n], k, claims[n].from) {
        assert Linked(claims, k, cursor);
      }
      ChainFurthest(claims[..n], c0, claims[n].from);
    }
  }

  /** Never resetting is one way of never claiming behind. */
  lemma {:induction false} NeverResetsNeverBehind(s: State, steps: seq<Step>, c0: nat)
    requires Sound(s, c0) && NeverResets(s, steps)
    ensures NeverBehind(s, steps, c0)
    decreases steps
  {
    if steps != [] {
      forall k | 0 <= k < |s.claims| ensures s.claims[k].from < s.claims[k].to {
        assert GoodClaim(s.file, s.claims[k]);
      }
      ChainFurthest(s.claims, c0, Cursor(s));
      StepSound(s, steps[0], c0);
      NeverResetsNeverBehind(Next(s, steps[0]), steps[1..], c0);
    }
  }
}
