/** N dispatcher workers tail one append-only alert file and claim byte ranges with a
    compare-and-set cursor: a state machine over the workers' atomic steps. */
module AlertClaims {
  import opened Lists

  newtype byte = x: int | 0 <= x < 256

  const NEWLINE: byte := 10

  /** Where a worker is inside `dispatch_pending`. */
  datatype Phase =
    | Idle
    | Sized(size: nat)                 // read the size, not yet the cursor
    | Shrinking(size: nat, pos: nat)   // saw size < cursor: about to reset the cursor
    | Ready(pos: nat, upto: nat)       // read the chunk: about to claim [pos, upto)
    | Routing(claim: nat)              // won that claim: handing out its lines

  datatype Line = Line(start: nat, end: nat)

  /** A won claim. `done` is where its routing has got to and `routed` the lines handed out. */
  datatype Claim = Claim(worker: nat, from: nat, to: nat, done: nat, routed: seq<Line>, crashed: bool)

  /** `claims` is history: every range ever won, in the order it was won. */
  datatype State = State(file: seq<byte>, cursor: Option<nat>, phases: seq<Phase>, claims: seq<Claim>)

  datatype Step =
    | Append(bytes: seq<byte>)
    | ReadSize(w: nat)
    | ReadCursor(w: nat)
    | Snapshot(w: nat)                 // size and cursor read as one step
    | Reset(w: nat)
    | TryClaim(w: nat)
    | RouteLine(w: nat)
    | Crash(w: nat)

  /** `get_cursor`: a missing row reads as 0. */
  function Cursor(s: State): nat { s.cursor.GetOr(0) }

  /** `pos + rfind('\n') + 1` over the bytes [lo, hi), or `lo` when there is no newline. */
  function LastBreak(file: seq<byte>, lo: nat, hi: nat): (r: nat)
    requires lo <= hi <= |file|
    ensures lo <= r <= hi
    ensures r > lo ==> file[r - 1] == NEWLINE
    ensures forall i :: r <= i < hi ==> file[i] != NEWLINE
    decreases hi
  {
    if hi == lo then lo else if file[hi - 1] == NEWLINE then hi else LastBreak(file, lo, hi - 1)
  }

  /** One past the first newline at or after `a`, or the end of the file. */
  function LineEnd(file: seq<byte>, a: nat): (r: nat)
    requires a <= |file|
    ensures a <= r <= |file|
    ensures a < |file| ==> a < r
    ensures forall i :: a <= i < r - 1 ==> file[i] != NEWLINE
    decreases |file| - a
  {
    if a == |file| then a else if file[a] == NEWLINE then a + 1 else LineEnd(file, a + 1)
  }

  function SetPhase(s: State, w: nat, p: Phase): State
    requires w < |s.phases|
  {
    s.(phases := s.phases[w := p])
  }

  /** After both readings: nothing new, a reset, or a chunk cut at its last newline. */
  function AfterReads(file: seq<byte>, size: nat, pos: nat): Phase
    requires size <= |file|
  {
    if size < pos then Shrinking(size, pos)
    else if size == pos then Idle
    else
      var upto := LastBreak(file, pos, size);
      if upto == pos then Idle else Ready(pos, upto)
  }

  function RouteNext(file: seq<byte>, c: Claim): Claim
    requires c.done <= |file|
  {
    var end := LineEnd(file, c.done);
    c.(done := end, routed := c.routed + [Line(c.done, end)])
  }

  /** Worker `w` has won the range [pos, upto). */
  function Claimed(s: State, w: nat, pos: nat, upto: nat): State
    requires w < |s.phases|
  {
    SetPhase(s, w, Routing(|s.claims|)).(
      cursor := Some(upto), claims := s.claims + [Claim(w, pos, upto, pos, [], false)])
  }

  /** The claim worker `w` holds becomes `c`, and the worker goes to `p`. */
  function Held(s: State, w: nat, k: nat, c: Claim, p: Phase): State
    requires w < |s.phases| && k < |s.claims|
  {
    SetPhase(s, w, p).(claims := s.claims[k := c])
  }

  /** What worker `w` does next when it takes `step`; a step its phase does not allow does nothing. */
  function WorkerStep(s: State, w: nat, step: Step): State
    requires w < |s.phases|
  {
    match (step, s.phases[w])
    case (ReadSize(_), Idle) => SetPhase(s, w, Sized(|s.file|))
    case (ReadCursor(_), Sized(size)) =>
      if size <= |s.file| then SetPhase(s, w, AfterReads(s.file, size, Cursor(s))) else s
    case (Snapshot(_), Idle) => SetPhase(s, w, AfterReads(s.file, |s.file|, Cursor(s)))
    case (Reset(_), Shrinking(size, _)) => SetPhase(s, w, Idle).(cursor := Some(size))
    case (TryClaim(_), Ready(pos, upto)) =>
      if Cursor(s) == pos then Claimed(s, w, pos, upto)
      else SetPhase(s, w, Idle).(cursor := Some(Cursor(s)))
    case (RouteLine(_), Routing(k)) =>
      if k < |s.claims| && s.claims[k].done <= |s.file| then
        var c := RouteNext(s.file, s.claims[k]);
        Held(s, w, k, c, if c.done >= c.to then Idle else Routing(k))
      else s
    case (Crash(_), Routing(k)) =>
      if k < |s.claims| then Held(s, w, k, s.claims[k].(crashed := true), Idle) else s
    case (Crash(_), _) => SetPhase(s, w, Idle)
    case _ => s
  }

  function Next(s: State, step: Step): State {
    if step.Append? then s.(file := s.file + step.bytes)
    else if step.w < |s.phases| then WorkerStep(s, step.w, step)
    else s
  }

  function Run(s: State, steps: seq<Step>): State
    decreases steps
  {
    if steps == [] then s else Run(Next(s, steps[0]), steps[1..])
  }

  /** Whether the step takes the shrink branch's reset. */
  predicate Resets(s: State, step: Step) {
    step.Reset? && step.w < |s.phases| && s.phases[step.w].Shrinking?
  }

  predicate NeverResets(s: State, steps: seq<Step>)
    decreases steps
  {
    steps == [] || (!Resets(s, steps[0]) && NeverResets(Next(s, steps[0]), steps[1..]))
  }

  // ------------------------------------------------------------ line geometry

  ghost predicate Aligned(file: seq<byte>, a: nat) {
    a <= |file| && (a == 0 || file[a - 1] == NEWLINE)
  }

  /** From below an aligned limit, the line ends at or before the limit, aligned. */
  lemma {:induction false} LineEndWithin(file: seq<byte>, a: nat, limit: nat)
    requires a < limit && Aligned(file, limit)
    ensures a < LineEnd(file, a) <= limit && Aligned(file, LineEnd(file, a))
    decreases limit - a
  {
    if file[a] != NEWLINE {
      LineEndWithin(file, a + 1, limit);
    }
  }

  lemma {:induction false} LineEndAppend(file: seq<byte>, more: seq<byte>, a: nat, limit: nat)
    requires a < limit && Aligned(file, limit)
    ensures LineEnd(file + more, a) == LineEnd(file, a)
    decreases limit - a
  {
    assert (file + more)[a] == file[a];
    if file[a] != NEWLINE {
      LineEndAppend(file, more, a + 1, limit);
    }
  }

  /** The lines of [a, b), in order. */
  function LinesOf(file: seq<byte>, a: nat, b: nat): seq<Line>
    requires b <= |file|
    decreases b - a
  {
    if a >= b then [] else [Line(a, LineEnd(file, a))] + LinesOf(file, LineEnd(file, a), b)
  }

  lemma {:induction false} LinesOfAppend(file: seq<byte>, more: seq<byte>, a: nat, b: nat)
    requires Aligned(file, b)
    ensures LinesOf(file + more, a, b) == LinesOf(file, a, b)
    decreases b - a
  {
    if a < b {
      LineEndAppend(file, more, a, b);
      LinesOfAppend(file, more, LineEnd(file, a), b);
    }
  }

  lemma {:induction false} LinesOfSnoc(file: seq<byte>, a: nat, b: nat, limit: nat)
    requires a <= b < limit && Aligned(file, b) && Aligned(file, limit)
    ensures LineEnd(file, b) <= limit && Aligned(file, LineEnd(file, b))
    ensures LinesOf(file, a, LineEnd(file, b)) == LinesOf(file, a, b) + [Line(b, LineEnd(file, b))]
    decreases b - a
  {
    LineEndWithin(file, b, limit);
    if a < b {
      LineEndWithin(file, a, b);
      LinesOfSnoc(file, LineEnd(file, a), b, limit);
    }
  }

  function CountStart(lines: seq<Line>, a: nat): nat {
    if lines == [] then 0 else (if lines[0].start == a then 1 else 0) + CountStart(lines[1..], a)
  }

  /** The listing of [a, b) holds each line once: one entry per aligned offset, none elsewhere. */
  lemma {:induction false} LinesOfOnce(file: seq<byte>, a: nat, b: nat, x: nat)
    requires Aligned(file, b) && Aligned(file, a)
    ensures CountStart(LinesOf(file, a, b), x) == if a <= x < b && Aligned(file, x) then 1 else 0
    decreases b - a
  {
    if a < b {
      LineEndWithin(file, a, b);
      var e := LineEnd(file, a);
      LinesOfOnce(file, e, b, x);
      if a < x < e {
        assert file[x - 1] != NEWLINE;
      }
    }
  }

  // --------------------------------------------------------------- invariant

  ghost predicate GoodClaim(file: seq<byte>, c: Claim) {
    && c.from < c.to && c.from <= c.done <= c.to
    && Aligned(file, c.from) && Aligned(file, c.to) && Aligned(file, c.done)
    && c.routed == LinesOf(file, c.from, c.done)
  }

  ghost predicate GoodClaims(file: seq<byte>, claims: seq<Claim>) {
    forall k :: 0 <= k < |claims| ==> GoodClaim(file, claims[k])
  }

  /** Where the range after claim `k - 1` starts: at the next claim, or at the cursor. */
  function StartOf(claims: seq<Claim>, k: nat, cursor: nat): nat {
    if k < |claims| then claims[k].from else cursor
  }

  ghost predicate Linked(claims: seq<Claim>, k: nat, cursor: nat)
    requires k < |claims|
  {
    claims[k].to == StartOf(claims, k + 1, cursor)
  }

  /** The claims are consecutive ranges from `c0` to the cursor. */
  ghost predicate Chain(claims: seq<Claim>, c0: nat, cursor: nat) {
    && c0 == StartOf(claims, 0, cursor)
    && forall k :: 0 <= k < |claims| ==> Linked(claims, k, cursor)
  }

  lemma {:induction false} ChainSnoc(claims: seq<Claim>, c0: nat, cursor: nat, c: Claim)
    requires Chain(claims, c0, cursor) && c.from == cursor
    ensures Chain(claims + [c], c0, c.to)
  {
    var more := claims + [c];
    forall k | 0 <= k < |more| ensures Linked(more, k, c.to) {
      if k < |claims| {
        assert Linked(claims, k, cursor);
      }
    }
  }

  lemma {:induction false} ChainUpdate(claims: seq<Claim>, c0: nat, cursor: nat, i: nat, c: Claim)
    requires Chain(claims, c0, cursor) && i < |claims| && c.from == claims[i].from && c.to == claims[i].to
    ensures Chain(claims[i := c], c0, cursor)
  {
    var more := claims[i := c];
    forall k | 0 <= k < |more| ensures Linked(more, k, cursor) {
      assert Linked(claims, k, cursor);
    }
  }

  ghost predicate GoodPhase(file: seq<byte>, claims: seq<Claim>, cursor: nat, w: nat, p: Phase) {
    match p
    case Idle => true
    case Sized(size) => size <= |file|
    case Shrinking(size, pos) => size < pos <= cursor
    case Ready(pos, upto) => pos < upto && Aligned(file, upto)
    case Routing(k) => k < |claims| && claims[k].worker == w && !claims[k].crashed && claims[k].done < claims[k].to
  }

  ghost predicate GoodPhases(file: seq<byte>, claims: seq<Claim>, cursor: nat, phases: seq<Phase>) {
    forall w :: 0 <= w < |phases| ==> GoodPhase(file, claims, cursor, w, phases[w])
  }

  /** Routed to its end, abandoned by a crash, or being routed by its worker right now. */
  ghost predicate Attended(phases: seq<Phase>, c: Claim, k: nat) {
    c.done == c.to || c.crashed || (c.worker < |phases| && phases[c.worker] == Routing(k))
  }

  ghost predicate AllAttended(phases: seq<Phase>, claims: seq<Claim>) {
    forall k :: 0 <= k < |claims| ==> Attended(phases, claims[k], k)
  }

  ghost predicate Sound(s: State, c0: nat) {
    && Aligned(s.file, Cursor(s)) && GoodClaims(s.file, s.claims) && Chain(s.claims, c0, Cursor(s))
    && GoodPhases(s.file, s.claims, Cursor(s), s.phases) && AllAttended(s.phases, s.claims)
  }

  ghost predicate Initial(s: State, c0: nat) {
    && Cursor(s) == c0 && Aligned(s.file, c0) && s.claims == []
    && forall w :: 0 <= w < |s.phases| ==> s.phases[w] == Idle
  }

  lemma {:induction false} ChainOrder(s: State, c0: nat, i: nat, j: nat)
    requires GoodClaims(s.file, s.claims) && Chain(s.claims, c0, Cursor(s)) && i < j < |s.claims|
    ensures s.claims[i].to <= s.claims[j].from
    decreases j - i
  {
    assert Linked(s.claims, i, Cursor(s));
    if i + 1 < j {
      assert GoodClaim(s.file, s.claims[i + 1]);
      ChainOrder(s, c0, i + 1, j);
    }
  }

  // -------------------------------------------------------------- preservation

  lemma {:induction false} AlignedAppend(file: seq<byte>, more: seq<byte>, a: nat)
    requires Aligned(file, a)
    ensures Aligned(file + more, a)
  {
  }

  lemma {:induction false} AppendSound(s: State, bytes: seq<byte>, c0: nat)
    requires Sound(s, c0)
    ensures Sound(Next(s, Append(bytes)), c0)
  {
    var file := s.file + bytes;
    AlignedAppend(s.file, bytes, Cursor(s));
    forall k | 0 <= k < |s.claims| ensures GoodClaim(file, s.claims[k]) {
      var c := s.claims[k];
      assert GoodClaim(s.file, c);
      AlignedAppend(s.file, bytes, c.from);
      AlignedAppend(s.file, bytes, c.to);
      AlignedAppend(s.file, bytes, c.done);
      LinesOfAppend(s.file, bytes, c.from, c.done);
    }
    forall w | 0 <= w < |s.phases| ensures GoodPhase(file, s.claims, Cursor(s), w, s.phases[w]) {
      assert GoodPhase(s.file, s.claims, Cursor(s), w, s.phases[w]);
      if s.phases[w].Ready? {
        AlignedAppend(s.file, bytes, s.phases[w].upto);
      }
    }
  }

  /** A worker outside `Routing` changes phase; no claim and no cursor moves. */
  lemma {:induction false} PhaseSound(s: State, w: nat, p: Phase, cursor: Option<nat>, c0: nat)
    requires Sound(s, c0) && w < |s.phases| && !s.phases[w].Routing? && !p.Routing?
    requires GoodPhase(s.file, s.claims, Cursor(s), w, p) && cursor.GetOr(0) == Cursor(s)
    ensures Sound(SetPhase(s, w, p).(cursor := cursor), c0)
  {
  }

  lemma {:induction false} AfterReadsGood(file: seq<byte>, claims: seq<Claim>, cursor: nat, w: nat, size: nat)
    requires size <= |file|
    ensures GoodPhase(file, claims, cursor, w, AfterReads(file, size, cursor))
    ensures !AfterReads(file, size, cursor).Routing?
  {
  }

  lemma {:induction false} ClaimSound(s: State, w: nat, c0: nat)
    requires Sound(s, c0) && w < |s.phases| && s.phases[w].Ready? && Cursor(s) == s.phases[w].pos
    ensures Sound(Claimed(s, w, s.phases[w].pos, s.phases[w].upto), c0)
  {
    var p := s.phases[w];
    assert GoodPhase(s.file, s.claims, Cursor(s), w, p);
    var c := Claim(w, p.pos, p.upto, p.pos, [], false);
    assert GoodClaim(s.file, c);
    var claims, phases := s.claims + [c], s.phases[w := Routing(|s.claims|)];
    forall v | 0 <= v < |phases| ensures GoodPhase(s.file, claims, p.upto, v, phases[v]) {
      assert GoodPhase(s.file, s.claims, Cursor(s), v, s.phases[v]);
    }
    forall k | 0 <= k < |claims| ensures Attended(phases, claims[k], k) {
      if k < |s.claims| {
        assert Attended(s.phases, s.claims[k], k);
      }
    }
    ChainSnoc(s.claims, c0, Cursor(s), c);
  }

  /** Replacing claim `k`, held by worker `w`, by `c`, as routing and crashing do. */
  lemma {:induction false} HeldSound(s: State, w: nat, k: nat, c: Claim, p: Phase, c0: nat)
    requires Sound(s, c0) && w < |s.phases| && s.phases[w] == Routing(k) && k < |s.claims|
    requires GoodClaim(s.file, c) && c.from == s.claims[k].from && c.to == s.claims[k].to
    requires c.worker == s.claims[k].worker
    requires if p == Idle then c.done == c.to || c.crashed else p == Routing(k) && !c.crashed && c.done < c.to
    ensures Sound(Held(s, w, k, c, p), c0)
  {
    var claims, phases := s.claims[k := c], s.phases[w := p];
    assert GoodPhase(s.file, s.claims, Cursor(s), w, s.phases[w]);
    forall v | 0 <= v < |phases| ensures GoodPhase(s.file, claims, Cursor(s), v, phases[v]) {
      assert GoodPhase(s.file, s.claims, Cursor(s), v, s.phases[v]);
    }
    forall j | 0 <= j < |claims| ensures Attended(phases, claims[j], j) {
      assert Attended(s.phases, s.claims[j], j);
    }
    ChainUpdate(s.claims, c0, Cursor(s), k, c);
  }

  lemma {:induction false} RouteSound(s: State, w: nat, c0: nat)
    requires Sound(s, c0) && w < |s.phases| && s.phases[w].Routing?
    ensures Sound(Next(s, RouteLine(w)), c0)
  {
    var k := s.phases[w].claim;
    assert GoodPhase(s.file, s.claims, Cursor(s), w, s.phases[w]);
    var c := s.claims[k];
    assert GoodClaim(s.file, c);
    LinesOfSnoc(s.file, c.from, c.done, c.to);
    var c2 := RouteNext(s.file, c);
    HeldSound(s, w, k, c2, if c2.done >= c2.to then Idle else Routing(k), c0);
  }

  lemma {:induction false} CrashSound(s: State, w: nat, c0: nat)
    requires Sound(s, c0) && w < |s.phases|
    ensures Sound(Next(s, Crash(w)), c0)
  {
    assert GoodPhase(s.file, s.claims, Cursor(s), w, s.phases[w]);
    if s.phases[w].Routing? {
      var k := s.phases[w].claim;
      assert GoodClaim(s.file, s.claims[k]);
      HeldSound(s, w, k, s.claims[k].(crashed := true), Idle, c0);
    } else {
      PhaseSound(s, w, Idle, s.cursor, c0);
    }
  }

  lemma {:induction false} WorkerSound(s: State, w: nat, step: Step, c0: nat)
    requires Sound(s, c0) && w < |s.phases| && !step.Append? && step.w == w && !Resets(s, step)
    ensures Sound(Next(s, step), c0) && Cursor(s) <= Cursor(Next(s, step))
  {
    assert GoodPhase(s.file, s.claims, Cursor(s), w, s.phases[w]);
    match (step, s.phases[w])
    case (ReadSize(_), Idle) => PhaseSound(s, w, Sized(|s.file|), s.cursor, c0);
    case (ReadCursor(_), Sized(size)) =>
      AfterReadsGood(s.file, s.claims, Cursor(s), w, size);
      PhaseSound(s, w, AfterReads(s.file, size, Cursor(s)), s.cursor, c0);
    case (Snapshot(_), Idle) =>
      AfterReadsGood(s.file, s.claims, Cursor(s), w, |s.file|);
      PhaseSound(s, w, AfterReads(s.file, |s.file|, Cursor(s)), s.cursor, c0);
    case (TryClaim(_), Ready(pos, upto)) =>
      if Cursor(s) == pos {
        ClaimSound(s, w, c0);
      } else {
        PhaseSound(s, w, Idle, Some(Cursor(s)), c0);
      }
    case (RouteLine(_), Routing(k)) => RouteSound(s, w, c0);
    case (Crash(_), _) => CrashSound(s, w, c0);
    case _ =>
  }

  lemma {:induction false} StepSound(s: State, step: Step, c0: nat)
    requires Sound(s, c0) && !Resets(s, step)
    ensures Sound(Next(s, step), c0) && Cursor(s) <= Cursor(Next(s, step))
  {
    if step.Append? {
      AppendSound(s, step.bytes, c0);
    } else if step.w < |s.phases| {
      WorkerSound(s, step.w, step, c0);
    }
  }

  // ------------------------------------------------------------- main theorems

  /** Any number of workers, any interleaving, any crash points: as long as no worker takes the
      shrink branch, the winning claims are consecutive newline-cut ranges from the initial
      cursor to the current one, each routed line by line from its start, and the cursor only
      moves forward. */
  lemma {:induction false} RunSound(s: State, steps: seq<Step>, c0: nat)
    requires Sound(s, c0) && NeverResets(s, steps)
    ensures Sound(Run(s, steps), c0) && Cursor(s) <= Cursor(Run(s, steps))
    decreases steps
  {
    if steps != [] {
      StepSound(s, steps[0], c0);
      RunSound(Next(s, steps[0]), steps[1..], c0);
    }
  }

  ghost predicate CursorMonotone(s: State, steps: seq<Step>)
    decreases steps
  {
    steps == [] || (Cursor(s) <= Cursor(Next(s, steps[0])) && CursorMonotone(Next(s, steps[0]), steps[1..]))
  }

  /** The cursor never moves back exactly in the runs that never take the shrink branch. */
  lemma {:induction false} MonotoneIffNeverResets(s: State, steps: seq<Step>, c0: nat)
    requires Sound(s, c0)
    ensures CursorMonotone(s, steps) <==> NeverResets(s, steps)
    decreases steps
  {
    if steps != [] {
      if Resets(s, steps[0]) {
        var w := steps[0].w;
        assert GoodPhase(s.file, s.claims, Cursor(s), w, s.phases[w]);
      } else {
        StepSound(s, steps[0], c0);
        MonotoneIffNeverResets(Next(s, steps[0]), steps[1..], c0);
      }
    }
  }

  ghost predicate NobodySized(phases: seq<Phase>) {
    forall w :: 0 <= w < |phases| ==> !phases[w].Shrinking? && !phases[w].Sized?
  }

  lemma {:induction false} SnapshotStep(s: State, step: Step, c0: nat)
    requires Sound(s, c0) && NobodySized(s.phases) && !step.ReadSize?
    ensures !Resets(s, step) && NobodySized(Next(s, step).phases)
  {
  }

  /** Reading size and cursor as one snapshot is enough: the shrink branch is then dead code. */
  lemma {:induction false} SnapshotNeverResets(s: State, steps: seq<Step>, c0: nat)
    requires Sound(s, c0) && NobodySized(s.phases)
    requires forall step <- steps :: !step.ReadSize?
    ensures NeverResets(s, steps)
    decreases steps
  {
    if steps != [] {
      SnapshotStep(s, steps[0], c0);
      StepSound(s, steps[0], c0);
      SnapshotNeverResets(Next(s, steps[0]), steps[1..], c0);
    }
  }

  /** Which of the first `n` claims an offset past the initial cursor belongs to. */
  lemma {:induction false} OwnerOf(claims: seq<Claim>, c0: nat, cursor: nat, a: nat, n: nat) returns (k: nat)
    requires Chain(claims, c0, cursor) && n <= |claims| && c0 <= a < StartOf(claims, n, cursor)
    ensures k < |claims| && claims[k].from <= a < claims[k].to
    decreases n
  {
    assert n > 0 ==> Linked(claims, n - 1, cursor);
    if a < StartOf(claims, n - 1, cursor) {
      k := OwnerOf(claims, c0, cursor, a, n - 1);
    } else {
      k := n - 1;
    }
  }

  /** How often the line starting at `a` was routed, over all claims. */
  function RouteCount(claims: seq<Claim>, a: nat): nat {
    if claims == [] then 0 else CountStart(claims[0].routed, a) + RouteCount(claims[1..], a)
  }

  ghost predicate Routed(file: seq<byte>, c: Claim, a: nat) {
    c.from <= a < c.done && Aligned(file, a)
  }

  lemma {:induction false} RouteCountNone(file: seq<byte>, claims: seq<Claim>, a: nat)
    requires GoodClaims(file, claims) && forall k :: 0 <= k < |claims| ==> !Routed(file, claims[k], a)
    ensures RouteCount(claims, a) == 0
  {
    if claims != [] {
      assert GoodClaim(file, claims[0]) && !Routed(file, claims[0], a);
      LinesOfOnce(file, claims[0].from, claims[0].done, a);
      assert forall k :: 0 <= k < |claims[1..]| ==> claims[1..][k] == claims[k + 1];
      RouteCountNone(file, claims[1..], a);
    }
  }

  lemma {:induction false} RouteCountOne(file: seq<byte>, claims: seq<Claim>, a: nat, k: nat)
    requires GoodClaims(file, claims) && k < |claims|
    requires forall j :: 0 <= j < |claims| && j != k ==> !Routed(file, claims[j], a)
    ensures RouteCount(claims, a) == if Routed(file, claims[k], a) then 1 else 0
  {
    assert GoodClaim(file, claims[0]);
    LinesOfOnce(file, claims[0].from, claims[0].done, a);
    assert forall j :: 0 <= j < |claims[1..]| ==> claims[1..][j] == claims[j + 1];
    if k == 0 {
      RouteCountNone(file, claims[1..], a);
    } else {
      assert !Routed(file, claims[0], a);
      RouteCountOne(file, claims[1..], a, k - 1);
    }
  }

  /** In a sound state every complete line past the initial cursor and before the current one
      belongs to exactly one claim, and was routed once if its claimer got to it and never otherwise. */
  lemma {:induction false} RoutedOnce(t: State, c0: nat, a: nat) returns (k: nat)
    requires Sound(t, c0) && c0 <= a < Cursor(t) && Aligned(t.file, a)
    ensures k < |t.claims| && t.claims[k].from <= a < t.claims[k].to
    ensures forall j :: 0 <= j < |t.claims| && t.claims[j].from <= a < t.claims[j].to ==> j == k
    ensures RouteCount(t.claims, a) == if a < t.claims[k].done then 1 else 0
    ensures a >= t.claims[k].done ==> t.claims[k].crashed || Routing(k) in t.phases
  {
    k := OwnerOf(t.claims, c0, Cursor(t), a, |t.claims|);
    forall j | 0 <= j < |t.claims| && j != k ensures !(t.claims[j].from <= a < t.claims[j].to) {
      if j < k {
        ChainOrder(t, c0, j, k);
      } else {
        ChainOrder(t, c0, k, j);
      }
    }
    forall j | 0 <= j < |t.claims| && j != k ensures !Routed(t.file, t.claims[j], a) {
      assert GoodClaim(t.file, t.claims[j]);
    }
    RouteCountOne(t.file, t.claims, a, k);
    assert Attended(t.phases, t.claims[k], k);
  }

  /** Every complete line past the initial cursor and before the current one was claimed by
      exactly one worker. It was routed exactly once if that worker got to it and never
      otherwise, and then its claimer crashed or is still at work on the claim. */
  lemma {:induction false} LinesRoutedOnce(s: State, steps: seq<Step>, c0: nat, a: nat) returns (k: nat)
    requires Initial(s, c0) && NeverResets(s, steps)
    requires c0 <= a < Cursor(Run(s, steps)) && Aligned(Run(s, steps).file, a)
    ensures var t := Run(s, steps);
      && k < |t.claims| && t.claims[k].from <= a < t.claims[k].to
      && (forall j :: 0 <= j < |t.claims| && t.claims[j].from <= a < t.claims[j].to ==> j == k)
      && RouteCount(t.claims, a) == (if a < t.claims[k].done then 1 else 0)
      && (a >= t.claims[k].done ==> t.claims[k].crashed || Routing(k) in t.phases)
  {
    RunSound(s, steps, c0);
    k := RoutedOnce(Run(s, steps), c0, a);
  }

  // ------------------------------------------- why the snapshot is needed

  lemma {:induction false} RunCons(s: State, step: Step, rest: seq<Step>)
    ensures Run(s, [step] + rest) == Run(Next(s, step), rest)
  {
  }

  const FILE2: seq<byte> := [65, 10, 66, 10]
  const ONCE := Claim(1, 0, 4, 4, [Line(0, 2), Line(2, 4)], false)

  /** Worker 1 takes the whole file while worker 0 holds a stale size of 2. */
  lemma {:induction false} WholeFileClaimed(tail: seq<Step>)
    ensures Run(State([65, 10], Some(0), [Sized(2), Idle], []),
                [Append([66, 10])] + ([Snapshot(1)] + ([TryClaim(1)] + ([RouteLine(1)] + ([RouteLine(1)] + tail)))))
         == Run(State(FILE2, Some(4), [Sized(2), Idle], [ONCE]), tail)
  {
    var s0 := State([65, 10], Some(0), [Sized(2), Idle], []);
    var s1 := State(FILE2, Some(0), [Sized(2), Idle], []);
    var s2 := State(FILE2, Some(0), [Sized(2), Ready(0, 4)], []);
    var c := Claim(1, 0, 4, 0, [], false);
    var s3 := State(FILE2, Some(4), [Sized(2), Routing(0)], [c]);
    var c2 := Claim(1, 0, 4, 2, [Line(0, 2)], false);
    var s4 := State(FILE2, Some(4), [Sized(2), Routing(0)], [c2]);
    assert s0.file + [66, 10] == FILE2;
    assert Next(s0, Append([66, 10])) == s1 && Next(s1, Snapshot(1)) == s2 && Next(s2, TryClaim(1)) == s3;
    assert LineEnd(FILE2, 0) == 2 && LineEnd(FILE2, 2) == 4;
    assert RouteNext(FILE2, c) == c2 && RouteNext(FILE2, c2) == ONCE;
    assert Next(s3, RouteLine(1)) == s4;
    assert Next(s4, RouteLine(1)) == State(FILE2, Some(4), [Sized(2), Idle], [ONCE]);
    RunCons(s0, Append([66, 10]), [Snapshot(1)] + ([TryClaim(1)] + ([RouteLine(1)] + ([RouteLine(1)] + tail))));
    RunCons(s1, Snapshot(1), [TryClaim(1)] + ([RouteLine(1)] + ([RouteLine(1)] + tail)));
    RunCons(s2, TryClaim(1), [RouteLine(1)] + ([RouteLine(1)] + tail));
    RunCons(s3, RouteLine(1), [RouteLine(1)] + tail);
    RunCons(s4, RouteLine(1), tail);
  }

  /** Worker 0 then resets the cursor to its stale size, and worker 1 claims the last line again. */
  lemma {:induction false} LastLineAgain()
    ensures Run(State(FILE2, Some(4), [Sized(2), Idle], [ONCE]),
                [ReadCursor(0)] + ([Reset(0)] + ([Snapshot(1)] + ([TryClaim(1)] + [RouteLine(1)])))).claims
         == [ONCE, Claim(1, 2, 4, 4, [Line(2, 4)], false)]
  {
    var s0 := State(FILE2, Some(4), [Sized(2), Idle], [ONCE]);
    var s1 := State(FILE2, Some(4), [Shrinking(2, 4), Idle], [ONCE]);
    var s2 := State(FILE2, Some(2), [Idle, Idle], [ONCE]);
    var s3 := State(FILE2, Some(2), [Idle, Ready(2, 4)], [ONCE]);
    var c := Claim(1, 2, 4, 2, [], false);
    var s4 := State(FILE2, Some(4), [Idle, Routing(1)], [ONCE, c]);
    assert Next(s0, ReadCursor(0)) == s1 && Next(s1, Reset(0)) == s2;
    assert Next(s2, Snapshot(1)) == s3 && Next(s3, TryClaim(1)) == s4;
    assert LineEnd(FILE2, 2) == 4;
    assert RouteNext(FILE2, c) == Claim(1, 2, 4, 4, [Line(2, 4)], false);
    assert Next(s4, RouteLine(1)).claims == [ONCE, Claim(1, 2, 4, 4, [Line(2, 4)], false)];
    RunCons(s0, ReadCursor(0), [Reset(0)] + ([Snapshot(1)] + ([TryClaim(1)] + [RouteLine(1)])));
    RunCons(s1, Reset(0), [Snapshot(1)] + ([TryClaim(1)] + [RouteLine(1)]));
    RunCons(s2, Snapshot(1), [TryClaim(1)] + [RouteLine(1)]);
    RunCons(s3, TryClaim(1), [RouteLine(1)]);
    assert [RouteLine(1)][1..] == [];
  }

  lemma {:induction false} CountBoth(claims: seq<Claim>)
    requires claims == [ONCE, Claim(1, 2, 4, 4, [Line(2, 4)], false)]
    ensures RouteCount(claims, 2) == 2
  {
    assert [Line(2, 4)][1..] == [];
    assert CountStart([Line(2, 4)], 2) == 1;
    assert ONCE.routed[1..] == [Line(2, 4)];
    assert CountStart(ONCE.routed, 2) == 1;
    assert claims[1..] == [claims[1]] && [claims[1]][1..] == [];
    assert RouteCount([claims[1]], 2) == 1;
  }

  /** A worker that read the size before another worker claimed past it resets the cursor
      backwards, and the same line is routed twice. */
  lemma {:induction false} StaleSizeRepeatsLine() returns (s: State, steps: seq<Step>)
    ensures Initial(s, 0) && |s.phases| == 2 && RouteCount(Run(s, steps).claims, 2) == 2
  {
    s := State([65, 10], Some(0), [Idle, Idle], []);
    var tail := [ReadCursor(0)] + ([Reset(0)] + ([Snapshot(1)] + ([TryClaim(1)] + [RouteLine(1)])));
    var body := [Append([66, 10])] + ([Snapshot(1)] + ([TryClaim(1)] + ([RouteLine(1)] + ([RouteLine(1)] + tail))));
    steps := [ReadSize(0)] + body;
    RunCons(s, ReadSize(0), body);
    assert Next(s, ReadSize(0)) == State([65, 10], Some(0), [Sized(2), Idle], []);
    WholeFileClaimed(tail);
    LastLineAgain();
    CountBoth(Run(s, steps).claims);
  }
}
