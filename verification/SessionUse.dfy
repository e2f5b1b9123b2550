/** When a session is accepted, from the history of its uses and of what revokes it, and whose
    sessions a revocation can touch. */
module SessionUse {
  import opened Lists
  import opened Sessions

  ghost predicate Unused(rows: Rows, drawn: Drawn) {
    forall i :: 0 <= i < |rows| ==> rows[i].token != drawn.token && rows[i].refresh != drawn.refresh
  }

  // ---------------------------------------------------------------- one call

  /** A login is accepted until its idle window or its lifetime ends, whichever comes first. */
  lemma {:induction false} LoginWorks(rows: Rows, op: Op, when: real)
    requires op.Login? && Unused(rows, op.drawn)
    ensures var after := Apply(rows, op);
      && |after| == |rows| + 1 && after[..|rows|] == rows && after[|rows|].user == op.user
      && (Accepts(after, op.drawn.token, when) <==> when <= op.now + op.ttl.idle && when <= op.now + op.ttl.absolute)
  {
    FindLast(Apply(rows, op), HasToken(op.drawn.token), |rows|);
  }

  /** A use that is accepted moves the end of the idle window, and nothing else, to one window after
      it: the session is then accepted until there or its absolute expiry, and no longer. */
  lemma {:induction false} UseExtends(rows: Rows, token: string, now: real, ttl: Ttl, when: real)
    requires Accepts(rows, token, now)
    ensures var i := Find(rows, HasToken(token));
      var (after, answer) := Resolve(rows, token, now, ttl);
      && answer == Some(rows[i]) && |after| == |rows|
      && (forall k :: 0 <= k < |rows| && k != i ==> after[k] == rows[k])
      && after[i] == rows[i].(lastSeenAt := now, idleExpires := now + ttl.idle)
      && (Accepts(after, token, when) <==> when <= now + ttl.idle && when <= rows[i].absoluteExpires)
  {
    var i := Find(rows, HasToken(token));
    FindLast(Resolve(rows, token, now, ttl).0, HasToken(token), i);
  }

  /** A refused use changes nothing. */
  lemma {:induction false} RefusedUse(rows: Rows, token: string, now: real, ttl: Ttl)
    requires !Accepts(rows, token, now)
    ensures Resolve(rows, token, now, ttl) == (rows, None)
  {
  }

  /** The tokens a rotation hands out are the ones that work: the session token is accepted for one
      idle window, within the new lifetime, the refresh token finds the new session, and both belong
      to the user and the family of the session that was presented. */
  lemma {:induction false} RotatedTokensWork(rows: Rows, refresh: string, drawn: Drawn, now: real, ttl: Ttl, when: real)
    requires Rotate(rows, refresh, drawn, now, ttl).1.Rotated? && Unused(rows, drawn)
    ensures var i := Find(rows, HasRefresh(refresh));
      var (after, answer) := Rotate(rows, refresh, drawn, now, ttl);
      && i < |rows| && |after| == |rows| + 1 && rows[i].revokedAt.None? && now <= rows[i].absoluteExpires
      && Find(after, HasToken(answer.token)) == |rows| && Find(after, HasRefresh(answer.refresh)) == |rows|
      && answer.user == rows[i].user && after[|rows|].user == rows[i].user && after[|rows|].family == rows[i].family
      && after[|rows|].remember == rows[i].remember
      && (Accepts(after, answer.token, when) <==> when <= now + ttl.idle && when <= now + ttl.absolute)
  {
    var after := Rotate(rows, refresh, drawn, now, ttl).0;
    FindLast(after, HasToken(drawn.token), |rows|);
    FindLast(after, HasRefresh(drawn.refresh), |rows|);
  }

  // -------------------------------------------------------------- revocations

  /** The session the scope is about; those that name a user or a family are about open sessions. */
  predicate Names(scope: Scope, s: Session) {
    match scope
    case One(id) => s.id == id
    case ByToken(token) => s.token == token
    case Family(family) => s.family == family && s.revokedAt.None?
    case AllOf(user) => s.user == user && s.revokedAt.None?
    case Own(id, user) => s.id == id && s.user == user && s.revokedAt.None?
    case Others(user, keep) => s.user == user && s.id != keep && s.revokedAt.None?
  }

  /** Whose sessions a scope that names a user can touch. */
  function UserOf(scope: Scope): Option<string> {
    match scope
    case AllOf(user) => Some(user)
    case Own(id, user) => Some(user)
    case Others(user, keep) => Some(user)
    case _ => None
  }

  lemma {:induction false} RevokedAt(rows: Rows, scope: Scope, now: real, i: nat)
    requires i < |rows|
    ensures var after := Apply(rows, RevokeOp(scope, now));
      |after| == |rows| && after[i] == if Names(scope, rows[i]) then rows[i].(revokedAt := Some(now)) else rows[i]
  {
  }

  /** A user's revocation leaves every session of every other user as it was, and `Others` the one
      it is to keep. */
  lemma {:induction false} StrangersUntouched(rows: Rows, scope: Scope, now: real, i: nat)
    requires i < |rows| && UserOf(scope).Some?
    ensures var after := Apply(rows, RevokeOp(scope, now));
      && |after| == |rows|
      && (rows[i].user != UserOf(scope).value ==> after[i] == rows[i])
      && (scope.Others? && rows[i].id == scope.keep ==> after[i] == rows[i])
  {
    RevokedAt(rows, scope, now, i);
  }

  // ------------------------------------------------------------ whole histories

  /** The step revokes the open session in row `i`: a revocation that names it, its own rotation, or
      the reuse of a rotated token of its family. */
  predicate Ends(rows: Rows, op: Op, i: nat)
    requires i < |rows|
  {
    match op
    case RevokeOp(scope, now) => Names(scope, rows[i])
    case RotateOp(refresh, drawn, now, ttl) =>
      var k := Find(rows, HasRefresh(refresh));
      && k < |rows|
      && if rows[k].revokedAt.Some? then rows[i].family == rows[k].family
         else now <= rows[k].absoluteExpires && rows[i].id == rows[k].id
    case _ => false
  }

  ghost predicate Survives(rows: Rows, ops: seq<Op>, i: nat)
    requires i < |rows|
    decreases ops
  {
    ops == [] ||
    (!Ends(rows, ops[0], i) && i < |Apply(rows, ops[0])| && Survives(Apply(rows, ops[0]), ops[1..], i))
  }

  /** The end of the idle window: one window after the last accepted use, and until there is one
      where it was. */
  function Deadline(rows: Rows, ops: seq<Op>, token: string, current: real): real
    decreases ops
  {
    if ops == [] then current
    else
      var next := if ops[0].ResolveOp? && ops[0].token == token && Accepts(rows, token, ops[0].now)
                  then ops[0].now + ops[0].ttl.idle else current;
      Deadline(Apply(rows, ops[0]), ops[1..], token, next)
  }

  lemma {:induction false} StepEnds(rows: Rows, op: Op, i: nat)
    requires i < |rows|
    ensures i < |Apply(rows, op)|
    ensures Apply(rows, op)[i].revokedAt.None? <==> rows[i].revokedAt.None? && !Ends(rows, op, i)
  {
    StepExtends(rows, op);
  }

  lemma {:induction false} StepDeadline(rows: Rows, op: Op, token: string)
    requires Find(rows, HasToken(token)) < |rows|
    ensures var i := Find(rows, HasToken(token));
      i < |Apply(rows, op)| && Apply(rows, op)[i].idleExpires
        == if op.ResolveOp? && op.token == token && Accepts(rows, token, op.now) then op.now + op.ttl.idle
           else rows[i].idleExpires
  {
    if !(op.ResolveOp? && op.token == token) {
      IdleStep(rows, op, token);
    }
  }

  lemma {:induction false} StepRow(rows: Rows, op: Op, token: string, i: nat) returns (next: Rows)
    requires i == Find(rows, HasToken(token)) < |rows|
    ensures next == Apply(rows, op) && i == Find(next, HasToken(token)) < |next|
    ensures next[i].absoluteExpires == rows[i].absoluteExpires
    ensures next[i].revokedAt.None? <==> rows[i].revokedAt.None? && !Ends(rows, op, i)
    ensures next[i].idleExpires
         == if op.ResolveOp? && op.token == token && Accepts(rows, token, op.now) then op.now + op.ttl.idle
            else rows[i].idleExpires
  {
    next := Apply(rows, op);
    StepExtends(rows, op);
    FindStable(rows, next, token);
    StepEnds(rows, op, i);
    StepDeadline(rows, op, token);
    assert Continues(rows[i], next[i]);
  }

  /** The session in row `i` is open at the end, in its idle window and in its lifetime. */
  ghost predicate Lasts(rows: Rows, ops: seq<Op>, token: string, i: nat, now: real)
    requires i < |rows|
  {
    && rows[i].revokedAt.None? && Survives(rows, ops, i)
    && now <= Deadline(rows, ops, token, rows[i].idleExpires) && now <= rows[i].absoluteExpires
  }

  lemma {:induction false} LastsStep(rows: Rows, next: Rows, ops: seq<Op>, token: string, i: nat, now: real)
    requires ops != [] && next == Apply(rows, ops[0]) && i < |rows| && i < |next|
    requires next[i].absoluteExpires == rows[i].absoluteExpires
    requires next[i].revokedAt.None? <==> rows[i].revokedAt.None? && !Ends(rows, ops[0], i)
    requires next[i].idleExpires
          == if ops[0].ResolveOp? && ops[0].token == token && Accepts(rows, token, ops[0].now)
             then ops[0].now + ops[0].ttl.idle else rows[i].idleExpires
    ensures Lasts(rows, ops, token, i, now) <==> Lasts(next, ops[1..], token, i, now)
  {
  }

  /** A session is accepted after a history if and only if nothing in it revoked the session, and the
      time is within one idle window of its last accepted use and within its lifetime. */
  lemma {:induction false} AcceptedIff(rows: Rows, ops: seq<Op>, token: string, now: real)
    requires Find(rows, HasToken(token)) < |rows|
    ensures Accepts(ApplyAll(rows, ops), token, now) <==> Lasts(rows, ops, token, Find(rows, HasToken(token)), now)
    decreases ops
  {
    if ops != [] {
      var i := Find(rows, HasToken(token));
      var next := StepRow(rows, ops[0], token, i);
      LastsStep(rows, next, ops, token, i, now);
      AcceptedIff(next, ops[1..], token, now);
    }
  }
}
