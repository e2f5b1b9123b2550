/** Server-side sessions: sliding idle windows, refresh rotation, and families that die for
    good when a rotated refresh token comes back. The table is the sequence of its rows; the
    token columns hold injective hashes, so the model stores the tokens themselves. */
module Sessions {
  import opened Lists

  datatype Session = Session(
    id: string, user: string, token: string, refresh: string, family: string, remember: bool,
    createdAt: real, lastSeenAt: real, idleExpires: real, absoluteExpires: real, revokedAt: Option<real>)

  type Rows = seq<Session>

  /** The time-to-live settings in force at a call. */
  datatype Ttl = Ttl(idle: real, absolute: real)

  /** Identifiers drawn at random by a call. */
  datatype Drawn = Drawn(id: string, token: string, refresh: string, family: string)

  function HasToken(token: string): Session -> bool { (s: Session) => s.token == token }
  function HasRefresh(refresh: string): Session -> bool { (s: Session) => s.refresh == refresh }
  function HasId(id: string): Session -> bool { (s: Session) => s.id == id }
  function OpenInFamily(family: string): Session -> bool { (s: Session) => s.family == family && s.revokedAt.None? }
  function OpenOfUser(user: string): Session -> bool { (s: Session) => s.user == user && s.revokedAt.None? }

  function OpenOwn(id: string, user: string): Session -> bool {
    (s: Session) => s.id == id && s.user == user && s.revokedAt.None?
  }

  function OpenOthers(user: string, keep: string): Session -> bool {
    (s: Session) => s.user == user && s.id != keep && s.revokedAt.None?
  }

  /** The first row a SELECT finds, or the number of rows. */
  function Find(rows: Rows, p: Session -> bool): (i: nat)
    ensures i <= |rows|
    ensures i < |rows| ==> p(rows[i])
    ensures forall k :: 0 <= k < i ==> !p(rows[k])
  {
    if rows == [] || p(rows[0]) then 0 else 1 + Find(rows[1..], p)
  }

  /** `UPDATE sessions SET revoked_at = now WHERE p` */
  function RevokeWhere(rows: Rows, p: Session -> bool, now: real): (r: Rows)
    ensures |r| == |rows|
    ensures forall i :: 0 <= i < |rows| ==> r[i] == if p(rows[i]) then rows[i].(revokedAt := Some(now)) else rows[i]
  {
    seq(|rows|, i requires 0 <= i < |rows| => if p(rows[i]) then rows[i].(revokedAt := Some(now)) else rows[i])
  }

  function Create(rows: Rows, user: string, remember: bool, drawn: Drawn, family: Option<string>, now: real, ttl: Ttl): Rows {
    rows + [Session(drawn.id, user, drawn.token, drawn.refresh, family.GetOr(drawn.family), remember,
                    now, now, now + ttl.idle, now + ttl.absolute, None)]
  }

  function Accepts(rows: Rows, token: string, now: real): bool {
    var i := Find(rows, HasToken(token));
    i < |rows| && rows[i].revokedAt.None? && now <= rows[i].idleExpires && now <= rows[i].absoluteExpires
  }

  function Resolve(rows: Rows, token: string, now: real, ttl: Ttl): (Rows, Option<Session>) {
    if !Accepts(rows, token, now) then (rows, None)
    else
      var i := Find(rows, HasToken(token));
      (rows[i := rows[i].(lastSeenAt := now, idleExpires := now + ttl.idle)], Some(rows[i]))
  }

  datatype Rotation = Unknown | Reused(family: string) | Expired | Rotated(token: string, refresh: string, user: string)

  function Rotate(rows: Rows, refresh: string, drawn: Drawn, now: real, ttl: Ttl): (Rows, Rotation) {
    var i := Find(rows, HasRefresh(refresh));
    if i == |rows| then (rows, Unknown)
    else if rows[i].revokedAt.Some? then
      (RevokeWhere(rows, OpenInFamily(rows[i].family), now), Reused(rows[i].family))
    else if rows[i].absoluteExpires < now then (rows, Expired)
    else
      var s := rows[i];
      (Create(RevokeWhere(rows, HasId(s.id), now), s.user, s.remember, drawn, Some(s.family), now, ttl),
       Rotated(drawn.token, drawn.refresh, s.user))
  }

  /** What a revocation covers; all but the first two spare rows already revoked. */
  datatype Scope =
    | One(id: string)
    | ByToken(token: string)
    | Family(family: string)
    | AllOf(user: string)
    | Own(id: string, user: string)
    | Others(user: string, keep: string)

  function Covered(scope: Scope): Session -> bool {
    match scope
    case One(id) => HasId(id)
    case ByToken(token) => HasToken(token)
    case Family(family) => OpenInFamily(family)
    case AllOf(user) => OpenOfUser(user)
    case Own(id, user) => OpenOwn(id, user)
    case Others(user, keep) => OpenOthers(user, keep)
  }

  datatype Op =
    | Login(user: string, remember: bool, drawn: Drawn, now: real, ttl: Ttl)
    | ResolveOp(token: string, now: real, ttl: Ttl)
    | RotateOp(refresh: string, drawn: Drawn, now: real, ttl: Ttl)
    | RevokeOp(scope: Scope, now: real)

  function Apply(rows: Rows, op: Op): Rows {
    match op
    case Login(user, remember, drawn, now, ttl) => Create(rows, user, remember, drawn, None, now, ttl)
    case ResolveOp(token, now, ttl) => Resolve(rows, token, now, ttl).0
    case RotateOp(refresh, drawn, now, ttl) => Rotate(rows, refresh, drawn, now, ttl).0
    case RevokeOp(scope, now) => RevokeWhere(rows, Covered(scope), now)
  }

  function ApplyAll(rows: Rows, ops: seq<Op>): Rows
    decreases ops
  {
    if ops == [] then rows else ApplyAll(Apply(rows, ops[0]), ops[1..])
  }

  /** A login draws a family no row has. */
  ghost predicate FreshOp(rows: Rows, op: Op) {
    op.Login? ==> forall i :: 0 <= i < |rows| ==> rows[i].family != op.drawn.family
  }

  ghost predicate FreshRun(rows: Rows, ops: seq<Op>)
    decreases ops
  {
    ops == [] || (FreshOp(rows, ops[0]) && FreshRun(Apply(rows, ops[0]), ops[1..]))
  }

  // -------------------------------------------------------- what never changes

  /** Everything about a row that no operation rewrites, and revocation, which none undoes. */
  ghost predicate Continues(a: Session, b: Session) {
    && b.id == a.id && b.user == a.user && b.token == a.token && b.refresh == a.refresh && b.family == a.family
    && b.remember == a.remember && b.createdAt == a.createdAt && b.absoluteExpires == a.absoluteExpires
    && (a.revokedAt.Some? ==> b.revokedAt.Some?)
  }

  ghost predicate Extends(a: Rows, b: Rows) {
    |a| <= |b| && forall i :: 0 <= i < |a| ==> Continues(a[i], b[i])
  }

  lemma {:induction false} RevokeExtends(rows: Rows, p: Session -> bool, now: real)
    ensures Extends(rows, RevokeWhere(rows, p, now))
  {
  }

  lemma {:induction false} RotateExtends(rows: Rows, refresh: string, drawn: Drawn, now: real, ttl: Ttl)
    ensures Extends(rows, Rotate(rows, refresh, drawn, now, ttl).0)
  {
    var i := Find(rows, HasRefresh(refresh));
    if i < |rows| {
      RevokeExtends(rows, OpenInFamily(rows[i].family), now);
      RevokeExtends(rows, HasId(rows[i].id), now);
    }
  }

  lemma {:induction false} StepExtends(rows: Rows, op: Op)
    ensures Extends(rows, Apply(rows, op))
  {
    if op.RotateOp? {
      RotateExtends(rows, op.refresh, op.drawn, op.now, op.ttl);
    } else if op.RevokeOp? {
      RevokeExtends(rows, Covered(op.scope), op.now);
    }
  }

  /** Over any run, rows are only appended, a row keeps its identity, its family and its
      absolute expiry, and a revoked row stays revoked. */
  lemma {:induction false} RunExtends(rows: Rows, ops: seq<Op>)
    ensures Extends(rows, ApplyAll(rows, ops))
    decreases ops
  {
    if ops != [] {
      StepExtends(rows, ops[0]);
      RunExtends(Apply(rows, ops[0]), ops[1..]);
    }
  }

  lemma {:induction false} FindStable(a: Rows, b: Rows, token: string)
    requires Extends(a, b) && Find(a, HasToken(token)) < |a|
    ensures Find(b, HasToken(token)) == Find(a, HasToken(token))
  {
  }

  /** However often the idle window slid in between, a session is never accepted past the
      absolute expiry it was created with, and never after it was revoked. */
  lemma {:induction false} NeverPastAbsolute(rows: Rows, ops: seq<Op>, token: string, now: real)
    requires Find(rows, HasToken(token)) < |rows|
    ensures var s := rows[Find(rows, HasToken(token))];
      Accepts(ApplyAll(rows, ops), token, now) ==> now <= s.absoluteExpires && s.revokedAt.None?
  {
    RunExtends(rows, ops);
    FindStable(rows, ApplyAll(rows, ops), token);
  }

  // -------------------------------------------------------------- idle windows

  ghost predicate NoAccepted(rows: Rows, ops: seq<Op>, token: string)
    decreases ops
  {
    ops == [] ||
    ((ops[0].ResolveOp? && ops[0].token == token ==> !Accepts(rows, token, ops[0].now))
     && NoAccepted(Apply(rows, ops[0]), ops[1..], token))
  }

  lemma {:induction false} IdleRotate(rows: Rows, refresh: string, drawn: Drawn, now: real, ttl: Ttl)
    ensures var after := Rotate(rows, refresh, drawn, now, ttl).0;
      |rows| <= |after| && forall i :: 0 <= i < |rows| ==> after[i].idleExpires == rows[i].idleExpires
  {
  }

  lemma {:induction false} IdleStep(rows: Rows, op: Op, token: string)
    requires Find(rows, HasToken(token)) < |rows|
    requires op.ResolveOp? && op.token == token ==> !Accepts(rows, token, op.now)
    ensures var i := Find(rows, HasToken(token));
      i < |Apply(rows, op)| && Apply(rows, op)[i].idleExpires == rows[i].idleExpires
  {
    if op.RotateOp? {
      IdleRotate(rows, op.refresh, op.drawn, op.now, op.ttl);
    }
  }

  /** Only an accepted use moves the idle window: left unused, a session is refused for good
      once its window has passed, whatever else happens. */
  lemma {:induction false} UnusedExpires(rows: Rows, ops: seq<Op>, token: string, now: real)
    requires Find(rows, HasToken(token)) < |rows| && NoAccepted(rows, ops, token)
    requires now > rows[Find(rows, HasToken(token))].idleExpires
    ensures !Accepts(ApplyAll(rows, ops), token, now)
    decreases ops
  {
    if ops != [] {
      StepExtends(rows, ops[0]);
      FindStable(rows, Apply(rows, ops[0]), token);
      IdleStep(rows, ops[0], token);
      UnusedExpires(Apply(rows, ops[0]), ops[1..], token, now);
    }
  }

  // ------------------------------------------------------------------ families

  /** How many unrevoked sessions the family has. */
  function Alive(rows: Rows, family: string): nat {
    if rows == [] then 0
    else Alive(rows[..|rows| - 1], family) + (if OpenInFamily(family)(rows[|rows| - 1]) then 1 else 0)
  }

  ghost predicate NoNewLife(a: Rows, b: Rows, family: string) {
    |a| == |b| && forall i :: 0 <= i < |a| && OpenInFamily(family)(b[i]) ==> OpenInFamily(family)(a[i])
  }

  lemma {:induction false} AliveShrinks(a: Rows, b: Rows, family: string)
    requires NoNewLife(a, b, family)
    ensures Alive(b, family) <= Alive(a, family)
  {
    if a != [] {
      assert NoNewLife(a[..|a| - 1], b[..|b| - 1], family);
      AliveShrinks(a[..|a| - 1], b[..|b| - 1], family);
    }
  }

  lemma {:induction false} AliveDrops(a: Rows, b: Rows, family: string, i: nat)
    requires NoNewLife(a, b, family) && i < |a|
    requires OpenInFamily(family)(a[i]) && !OpenInFamily(family)(b[i])
    ensures Alive(b, family) < Alive(a, family)
  {
    var n := |a| - 1;
    assert NoNewLife(a[..n], b[..n], family);
    if i == n {
      AliveShrinks(a[..n], b[..n], family);
    } else {
      AliveDrops(a[..n], b[..n], family, i);
    }
  }

  lemma {:induction false} AliveZero(rows: Rows, family: string)
    ensures Alive(rows, family) == 0 <==> forall i :: 0 <= i < |rows| ==> !OpenInFamily(family)(rows[i])
  {
    if rows != [] {
      var n := |rows| - 1;
      AliveZero(rows[..n], family);
      assert forall i :: 0 <= i < n ==> rows[..n][i] == rows[i];
    }
  }

  lemma {:induction false} AliveSnoc(rows: Rows, s: Session, family: string)
    ensures Alive(rows + [s], family) == Alive(rows, family) + (if OpenInFamily(family)(s) then 1 else 0)
  {
  }

  lemma {:induction false} RevokeNoNewLife(rows: Rows, p: Session -> bool, now: real, family: string)
    ensures NoNewLife(rows, RevokeWhere(rows, p, now), family)
    ensures Alive(RevokeWhere(rows, p, now), family) <= Alive(rows, family)
  {
    AliveShrinks(rows, RevokeWhere(rows, p, now), family);
  }

  ghost predicate OneAlive(rows: Rows) { forall family :: Alive(rows, family) <= 1 }

  lemma {:induction false} RotateAlive(rows: Rows, refresh: string, drawn: Drawn, now: real, ttl: Ttl, family: string)
    ensures Alive(Rotate(rows, refresh, drawn, now, ttl).0, family) <= Alive(rows, family)
  {
    var i := Find(rows, HasRefresh(refresh));
    if i < |rows| {
      var s := rows[i];
      RevokeNoNewLife(rows, OpenInFamily(s.family), now, family);
      var revoked := RevokeWhere(rows, HasId(s.id), now);
      RevokeNoNewLife(rows, HasId(s.id), now, family);
      if s.revokedAt.None? && s.absoluteExpires >= now {
        var created := Create(revoked, s.user, s.remember, drawn, Some(s.family), now, ttl);
        AliveSnoc(revoked, created[|revoked|], family);
        if family == s.family {
          AliveDrops(rows, revoked, family, i);
        }
      }
    }
  }

  lemma {:induction false} ResolveAlive(rows: Rows, token: string, now: real, ttl: Ttl, family: string)
    ensures Alive(Resolve(rows, token, now, ttl).0, family) <= Alive(rows, family)
  {
    AliveShrinks(rows, Resolve(rows, token, now, ttl).0, family);
  }

  lemma {:induction false} LoginAlive(rows: Rows, user: string, remember: bool, drawn: Drawn, now: real, ttl: Ttl, family: string)
    requires forall i :: 0 <= i < |rows| ==> rows[i].family != drawn.family
    ensures var after := Create(rows, user, remember, drawn, None, now, ttl);
      if family == drawn.family then Alive(rows, family) == 0 && Alive(after, family) == 1
      else Alive(after, family) == Alive(rows, family)
  {
    AliveSnoc(rows, Create(rows, user, remember, drawn, None, now, ttl)[|rows|], family);
    AliveZero(rows, drawn.family);
  }

  lemma {:induction false} OthersAlive(rows: Rows, op: Op, family: string)
    requires !op.Login?
    ensures Alive(Apply(rows, op), family) <= Alive(rows, family)
  {
    match op
    case ResolveOp(token, now, ttl) => ResolveAlive(rows, token, now, ttl, family);
    case RotateOp(refresh, drawn, now, ttl) => RotateAlive(rows, refresh, drawn, now, ttl, family);
    case RevokeOp(scope, now) => RevokeNoNewLife(rows, Covered(scope), now, family);
  }

  /** No step but a login adds an unrevoked session to a family, and a login starts a new one. */
  lemma {:induction false} StepAlive(rows: Rows, op: Op, family: string)
    requires FreshOp(rows, op)
    ensures Alive(Apply(rows, op), family) <= Alive(rows, family)
         || (op.Login? && family == op.drawn.family && Alive(rows, family) == 0 && Alive(Apply(rows, op), family) == 1)
  {
    if op.Login? {
      LoginAlive(rows, op.user, op.remember, op.drawn, op.now, op.ttl, family);
    } else {
      OthersAlive(rows, op, family);
    }
  }

  /** In every reachable state every family has at most one unrevoked session. */
  lemma {:induction false} RunOneAlive(rows: Rows, ops: seq<Op>)
    requires OneAlive(rows) && FreshRun(rows, ops)
    ensures OneAlive(ApplyAll(rows, ops))
    decreases ops
  {
    if ops != [] {
      forall family ensures Alive(Apply(rows, ops[0]), family) <= 1 {
        StepAlive(rows, ops[0], family);
      }
      RunOneAlive(Apply(rows, ops[0]), ops[1..]);
    }
  }

  ghost predicate Known(rows: Rows, family: string) {
    exists i :: 0 <= i < |rows| && rows[i].family == family
  }

  lemma {:induction false} KnownStays(a: Rows, b: Rows, family: string)
    requires Extends(a, b) && Known(a, family)
    ensures Known(b, family)
  {
  }

  /** A family left with no unrevoked session never has one again. */
  lemma {:induction false} DeadForGood(rows: Rows, ops: seq<Op>, family: string)
    requires Known(rows, family) && Alive(rows, family) == 0 && FreshRun(rows, ops)
    ensures Alive(ApplyAll(rows, ops), family) == 0
    decreases ops
  {
    if ops != [] {
      StepAlive(rows, ops[0], family);
      StepExtends(rows, ops[0]);
      KnownStays(rows, Apply(rows, ops[0]), family);
      DeadForGood(Apply(rows, ops[0]), ops[1..], family);
    }
  }

  /** Presenting the refresh token of a revoked session kills its family, for good: after any
      further run no token of the family is accepted. */
  lemma {:induction false} ReuseKillsFamily(rows: Rows, refresh: string, drawn: Drawn, now: real, ttl: Ttl,
                                            later: seq<Op>, token: string, when: real)
    requires var i := Find(rows, HasRefresh(refresh)); i < |rows| && rows[i].revokedAt.Some?
    requires FreshRun(Rotate(rows, refresh, drawn, now, ttl).0, later)
    ensures var (after, answer) := Rotate(rows, refresh, drawn, now, ttl);
      var end := ApplyAll(after, later);
      && answer.Reused? && Alive(after, answer.family) == 0 && Alive(end, answer.family) == 0
      && (Accepts(end, token, when) ==> end[Find(end, HasToken(token))].family != answer.family)
  {
    var i := Find(rows, HasRefresh(refresh));
    var family := rows[i].family;
    var (after, answer) := Rotate(rows, refresh, drawn, now, ttl);
    AliveZero(after, family);
    assert after[i].family == family;
    DeadForGood(after, later, family);
    AliveZero(ApplyAll(after, later), family);
  }

  /** A rotation retires the session it was presented for and hands its family one new one. */
  lemma {:induction false} RotateHandsOver(rows: Rows, refresh: string, drawn: Drawn, now: real, ttl: Ttl)
    requires OneAlive(rows) && Rotate(rows, refresh, drawn, now, ttl).1.Rotated?
    ensures var i := Find(rows, HasRefresh(refresh));
      var after := Rotate(rows, refresh, drawn, now, ttl).0;
      && i < |rows| && |after| == |rows| + 1 && after[i].revokedAt == Some(now)
      && after[|rows|].family == rows[i].family && after[|rows|].refresh == drawn.refresh
      && Alive(after, rows[i].family) == 1
      && forall k :: 0 <= k < |rows| && rows[k].family == rows[i].family ==> after[k].revokedAt.Some?
  {
    var i := Find(rows, HasRefresh(refresh));
    var s := rows[i];
    var revoked := RevokeWhere(rows, HasId(s.id), now);
    RevokeNoNewLife(rows, HasId(s.id), now, s.family);
    AliveDrops(rows, revoked, s.family, i);
    AliveZero(revoked, s.family);
    AliveSnoc(revoked, Rotate(rows, refresh, drawn, now, ttl).0[|rows|], s.family);
    forall k | 0 <= k < |rows| && rows[k].family == s.family ensures revoked[k].revokedAt.Some? {
      assert !OpenInFamily(s.family)(revoked[k]);
    }
  }

  // ------------------------------------------------------- a login outlives it

  /** Rotations at `now`, then at every whole absolute lifetime after it, each presenting the
      refresh token the one before it handed out. */
  function RotateAll(rows: Rows, refresh: string, draws: seq<Drawn>, now: real, ttl: Ttl): Rows
    decreases draws
  {
    if draws == [] then rows
    else RotateAll(Rotate(rows, refresh, draws[0], now, ttl).0, draws[0].refresh, draws[1..], now + ttl.absolute, ttl)
  }

  /** The tokens drawn are in no row and differ from one another. */
  ghost predicate FreshDraws(rows: Rows, draws: seq<Drawn>) {
    && (forall i, k :: 0 <= i < |rows| && 0 <= k < |draws| ==>
          rows[i].token != draws[k].token && rows[i].refresh != draws[k].refresh)
    && (forall j, k :: 0 <= j < k < |draws| ==>
          draws[j].token != draws[k].token && draws[j].refresh != draws[k].refresh)
  }

  /** The refresh token belongs to an open session of the family that may still rotate. */
  ghost predicate Rotatable(rows: Rows, refresh: string, family: string, now: real) {
    var i := Find(rows, HasRefresh(refresh));
    && i < |rows| && rows[i].revokedAt.None? && now <= rows[i].absoluteExpires && rows[i].family == family
  }

  lemma {:induction false} FindLast(rows: Rows, p: Session -> bool, n: nat)
    requires n < |rows| && p(rows[n]) && forall k :: 0 <= k < n ==> !p(rows[k])
    ensures Find(rows, p) == n
  {
  }

  /** A rotation hands out a token that is accepted at once, idle window expired or not, and a
      refresh token good for one more absolute lifetime. */
  lemma {:induction false} RotationRenews(rows: Rows, refresh: string, family: string, drawn: Drawn, now: real, ttl: Ttl)
    requires Rotatable(rows, refresh, family, now) && ttl.idle >= 0.0 && ttl.absolute >= 0.0
    requires forall i :: 0 <= i < |rows| ==> rows[i].token != drawn.token && rows[i].refresh != drawn.refresh
    ensures var after := Rotate(rows, refresh, drawn, now, ttl).0;
      && Accepts(after, drawn.token, now) && Rotatable(after, drawn.refresh, family, now + ttl.absolute)
      && |after| == |rows| + 1 && after[|rows|].token == drawn.token && after[|rows|].refresh == drawn.refresh
      && forall i :: 0 <= i < |rows| ==> after[i].token == rows[i].token && after[i].refresh == rows[i].refresh
  {
    var after := Rotate(rows, refresh, drawn, now, ttl).0;
    FindLast(after, HasToken(drawn.token), |rows|);
    FindLast(after, HasRefresh(drawn.refresh), |rows|);
  }

  lemma {:induction false} FreshRest(rows: Rows, after: Rows, draws: seq<Drawn>)
    requires draws != [] && FreshDraws(rows, draws) && |after| == |rows| + 1
    requires after[|rows|].token == draws[0].token && after[|rows|].refresh == draws[0].refresh
    requires forall i :: 0 <= i < |rows| ==> after[i].token == rows[i].token && after[i].refresh == rows[i].refresh
    ensures FreshDraws(after, draws[1..])
  {
    assert forall k :: 0 <= k < |draws[1..]| ==> draws[1..][k] == draws[k + 1];
  }

  /** `n` lifetimes of length `absolute` after `now`. */
  function Lifetimes(now: real, n: nat, absolute: real): real
    decreases n
  {
    if n == 0 then now else Lifetimes(now + absolute, n - 1, absolute)
  }

  lemma {:induction false} LifetimesSum(now: real, n: nat, absolute: real)
    ensures Lifetimes(now, n, absolute) == now + n as real * absolute
    decreases n
  {
    if n > 0 {
      LifetimesSum(now + absolute, n - 1, absolute);
      assert n as real * absolute == (n - 1) as real * absolute + absolute;
    }
  }

  lemma {:induction false} FirstRotation(rows: Rows, refresh: string, family: string, draws: seq<Drawn>,
                                         now: real, ttl: Ttl) returns (after: Rows)
    requires draws != [] && FreshDraws(rows, draws) && Rotatable(rows, refresh, family, now)
    requires ttl.idle >= 0.0 && ttl.absolute >= 0.0
    ensures RotateAll(rows, refresh, draws, now, ttl)
         == RotateAll(after, draws[0].refresh, draws[1..], now + ttl.absolute, ttl)
    ensures FreshDraws(after, draws[1..])
    ensures Accepts(after, draws[0].token, now) && Rotatable(after, draws[0].refresh, family, now + ttl.absolute)
  {
    after := Rotate(rows, refresh, draws[0], now, ttl).0;
    RotationRenews(rows, refresh, family, draws[0], now, ttl);
    FreshRest(rows, after, draws);
  }

  /** The rotations one by one, for the last draw and the time it is made at. */
  lemma {:induction false} Rotations(rows: Rows, refresh: string, family: string, draws: seq<Drawn>, now: real,
                                     ttl: Ttl, last: Drawn, when: real) returns (end: Rows)
    requires draws != [] && FreshDraws(rows, draws) && Rotatable(rows, refresh, family, now)
    requires ttl.idle >= 0.0 && ttl.absolute >= 0.0
    requires last == draws[|draws| - 1] && when == Lifetimes(now, |draws| - 1, ttl.absolute)
    ensures end == RotateAll(rows, refresh, draws, now, ttl)
    ensures Accepts(end, last.token, when) && Rotatable(end, last.refresh, family, when + ttl.absolute)
    decreases draws
  {
    end := FirstRotation(rows, refresh, family, draws, now, ttl);
    if |draws| > 1 {
      end := Rotations(end, draws[0].refresh, family, draws[1..], now + ttl.absolute, ttl, last, when);
    }
  }

  /** The absolute expiry bounds a session, not a login: rotating once per absolute lifetime keeps
      the family accepted for as many lifetimes as there are rotations. */
  lemma {:induction false} RotationOutlives(rows: Rows, refresh: string, family: string, draws: seq<Drawn>,
                                            now: real, ttl: Ttl)
    requires draws != [] && FreshDraws(rows, draws) && Rotatable(rows, refresh, family, now)
    requires ttl.idle >= 0.0 && ttl.absolute >= 0.0
    ensures Accepts(RotateAll(rows, refresh, draws, now, ttl), draws[|draws| - 1].token,
                    Lifetimes(now, |draws| - 1, ttl.absolute))
  {
    var end := Rotations(rows, refresh, family, draws, now, ttl, draws[|draws| - 1],
                         Lifetimes(now, |draws| - 1, ttl.absolute));
  }

  // --------------------------------------------------- what bounds a login

  /** No session of the family has an absolute expiry past `t`. */
  ghost predicate ExpiresBy(rows: Rows, family: string, t: real) {
    forall i :: 0 <= i < |rows| && rows[i].family == family ==> rows[i].absoluteExpires <= t
  }

  /** The step is a rotation of the family that succeeds. */
  predicate Renews(rows: Rows, op: Op, family: string) {
    && op.RotateOp? && Rotate(rows, op.refresh, op.drawn, op.now, op.ttl).1.Rotated?
    && var i := Find(rows, HasRefresh(op.refresh)); i < |rows| && rows[i].family == family
  }

  lemma {:induction false} RotateExpires(rows: Rows, op: Op, family: string, t: real)
    requires op.RotateOp? && ExpiresBy(rows, family, t)
    ensures ExpiresBy(Apply(rows, op), family, if Renews(rows, op, family) then Max(t, op.now + op.ttl.absolute) else t)
  {
    RotateExtends(rows, op.refresh, op.drawn, op.now, op.ttl);
    var after := Apply(rows, op);
    forall i | 0 <= i < |rows| ensures after[i].absoluteExpires == rows[i].absoluteExpires && after[i].family == rows[i].family {
      assert Continues(rows[i], after[i]);
    }
  }

  /** Only a successful rotation moves a known family's last expiry, to one absolute lifetime
      after the rotation at most. */
  lemma {:induction false} StepExpires(rows: Rows, op: Op, family: string, t: real)
    requires Known(rows, family) && FreshOp(rows, op) && ExpiresBy(rows, family, t)
    ensures ExpiresBy(Apply(rows, op), family, if Renews(rows, op, family) then Max(t, op.now + op.ttl.absolute) else t)
  {
    if op.RotateOp? {
      RotateExpires(rows, op, family, t);
    }
  }

  ghost predicate NeverRenewed(rows: Rows, ops: seq<Op>, family: string)
    decreases ops
  {
    ops == [] || (!Renews(rows, ops[0], family) && NeverRenewed(Apply(rows, ops[0]), ops[1..], family))
  }

  /** A family that is not rotated again is refused for good past the greatest absolute expiry of
      its sessions, however often they are used. */
  lemma {:induction false} UnrotatedExpires(rows: Rows, ops: seq<Op>, family: string, t: real)
    requires Known(rows, family) && ExpiresBy(rows, family, t)
    requires FreshRun(rows, ops) && NeverRenewed(rows, ops, family)
    ensures ExpiresBy(ApplyAll(rows, ops), family, t)
    ensures forall token, now :: Accepts(ApplyAll(rows, ops), token, now) && now > t ==>
              ApplyAll(rows, ops)[Find(ApplyAll(rows, ops), HasToken(token))].family != family
    decreases ops
  {
    if ops != [] {
      StepExpires(rows, ops[0], family, t);
      StepExtends(rows, ops[0]);
      KnownStays(rows, Apply(rows, ops[0]), family);
      UnrotatedExpires(Apply(rows, ops[0]), ops[1..], family, t);
    }
  }
}
