/** The session store as the object the application holds: each method rewrites the table in
    place and is proved equal to the step of the same name in `Sessions`. */
module SessionTable {
  import opened Lists
  import opened Sessions

  class SessionStore {
    var rows: Rows

    constructor ()
      ensures rows == []
    {
      rows := [];
    }

    /** One UPDATE of `revoked_at`; every revocation of the store is this with its own condition. */
    method UpdateRevoked(p: Session -> bool, now: real) returns (count: nat)
      modifies this
      ensures rows == RevokeWhere(old(rows), p, now)
      ensures count == |Filter(old(rows), p)|
    {
      count := 0;
      var i := 0;
      ghost var before := rows;
      while i < |rows|
        invariant 0 <= i <= |rows| == |before|
        invariant forall k :: 0 <= k < i ==> rows[k] == RevokeWhere(before, p, now)[k]
        invariant forall k :: i <= k < |rows| ==> rows[k] == before[k]
        invariant count == |Filter(before[..i], p)|
      {
        assert before[..i + 1] == before[..i] + [before[i]];
        FilterConcat(before[..i], [before[i]], p);
        FilterOne(before[i], p);
        if p(rows[i]) {
          rows := rows[i := rows[i].(revokedAt := Some(now))];
          count := count + 1;
        }
        i := i + 1;
      }
      assert before[..i] == before;
    }

    method Create(user: string, remember: bool, drawn: Drawn, family: Option<string>, now: real, ttl: Ttl)
      modifies this
      ensures rows == Sessions.Create(old(rows), user, remember, drawn, family, now, ttl)
    {
      rows := rows + [Session(drawn.id, user, drawn.token, drawn.refresh, family.GetOr(drawn.family), remember,
                              now, now, now + ttl.idle, now + ttl.absolute, None)];
    }

    method Resolve(token: string, now: real, ttl: Ttl) returns (s: Option<Session>)
      modifies this
      ensures (rows, s) == Sessions.Resolve(old(rows), token, now, ttl)
    {
      var i := Find(rows, HasToken(token));
      if i == |rows| || rows[i].revokedAt.Some? {
        return None;
      }
      if rows[i].idleExpires < now || rows[i].absoluteExpires < now {
        return None;
      }
      s := Some(rows[i]);
      rows := rows[i := rows[i].(lastSeenAt := now, idleExpires := now + ttl.idle)];
    }

    method Rotate(refresh: string, drawn: Drawn, now: real, ttl: Ttl) returns (answer: Rotation)
      modifies this
      ensures (rows, answer) == Sessions.Rotate(old(rows), refresh, drawn, now, ttl)
    {
      var i := Find(rows, HasRefresh(refresh));
      if i == |rows| {
        return Unknown;
      }
      var s := rows[i];
      if s.revokedAt.Some? {
        var n := UpdateRevoked(OpenInFamily(s.family), now);
        return Reused(s.family);
      }
      if s.absoluteExpires < now {
        return Expired;
      }
      var n := UpdateRevoked(HasId(s.id), now);
      Create(s.user, s.remember, drawn, Some(s.family), now, ttl);
      return Rotated(drawn.token, drawn.refresh, s.user);
    }

    /** Revokes one session only for its owner; true when a row was updated. */
    method RevokeForUser(id: string, user: string, now: real) returns (done: bool)
      modifies this
      ensures rows == RevokeWhere(old(rows), OpenOwn(id, user), now)
      ensures done <==> exists i :: 0 <= i < |old(rows)| && OpenOwn(id, user)(old(rows)[i])
    {
      ghost var before := rows;
      var n := UpdateRevoked(OpenOwn(id, user), now);
      done := n > 0;
      if done {
        var s := Filter(before, OpenOwn(id, user))[0];
        FilterMember(before, OpenOwn(id, user), s);
      }
      forall i | 0 <= i < |before| && OpenOwn(id, user)(before[i]) ensures n > 0 {
        FilterMember(before, OpenOwn(id, user), before[i]);
      }
    }
  }
}
