/** The imperative dispatcher: the shared cursor, one `dispatch_pending` pass, and the
    grouping loop over an alert's channels. */
module AlertDispatch {
  import opened Lists
  import opened AlertClaims
  import opened AlertGrouping

  class NotificationStore {
    var pos: Option<nat>

    constructor ()
      ensures pos == None
    {
      pos := None;
    }

    function GetCursor(): nat
      reads this
    {
      pos.GetOr(0)
    }

    /** Compare-and-set: wins exactly when the cursor still holds `expected`. */
    method AdvanceCursor(expected: nat, newPos: nat) returns (won: bool)
      modifies this
      ensures won <==> old(GetCursor()) == expected
      ensures GetCursor() == if won then newPos else old(GetCursor())
      ensures pos.Some?
    {
      if pos.None? {
        pos := Some(0);
      }
      won := pos.value == expected;
      if won {
        pos := Some(newPos);
      }
    }

    method ResetCursor(newPos: nat)
      modifies this
      ensures pos == Some(newPos)
    {
      pos := Some(newPos);
    }
  }

  /** The bytes of a line, newline included. */
  function Text(file: seq<byte>, l: Line): seq<byte> {
    if l.start <= l.end <= |file| then file[l.start..l.end] else []
  }

  function IsAlert(file: seq<byte>, parses: seq<byte> -> bool): Line -> bool {
    (l: Line) => parses(Text(file, l))
  }

  /** The line starting at `x` is a whole line of [a, b) and an alert. */
  ghost predicate AlertAt(file: seq<byte>, parses: seq<byte> -> bool, a: nat, b: nat, x: nat) {
    b <= |file| && a <= x < b && Aligned(file, x) && parses(file[x..LineEnd(file, x)])
  }

  /** Of the lines of [a, b) those are kept whose bytes parse, each once, and no other. */
  lemma {:induction false} AlertsOnce(file: seq<byte>, parses: seq<byte> -> bool, a: nat, b: nat, x: nat)
    requires Aligned(file, b) && Aligned(file, a)
    ensures CountStart(Filter(LinesOf(file, a, b), IsAlert(file, parses)), x)
         == if AlertAt(file, parses, a, b, x) then 1 else 0
    decreases b - a
  {
    if a < b {
      LineEndWithin(file, a, b);
      var e := LineEnd(file, a);
      AlertsOnce(file, parses, e, b, x);
      var l := Line(a, e);
      assert LinesOf(file, a, b) == [l] + LinesOf(file, e, b);
      assert Text(file, l) == file[a..e];
      var rest := Filter(LinesOf(file, e, b), IsAlert(file, parses));
      FilterConcat([l], LinesOf(file, e, b), IsAlert(file, parses));
      FilterOne(l, IsAlert(file, parses));
      if a < x < e {
        assert file[x - 1] != NEWLINE;
      }
      assert AlertAt(file, parses, a, b, x) <==> (x == a && parses(file[a..e])) || AlertAt(file, parses, e, b, x);
      if parses(file[a..e]) {
        assert ([l] + rest)[1..] == rest;
      } else {
        assert [] + rest == rest;
      }
    } else {
      assert !AlertAt(file, parses, a, b, x);
    }
  }

  // ------------------------------------------------- a pass as a protocol run

  /** One worker alone with the file: idle, nothing claimed yet. */
  function Alone(file: seq<byte>, cursor: Option<nat>): State { State(file, cursor, [Idle], []) }

  function RouteLines(n: nat): seq<Step> {
    if n == 0 then [] else [RouteLine(0)] + RouteLines(n - 1)
  }

  /** The steps of an undisturbed pass over `file` from `pos`. */
  function PassSteps(file: seq<byte>, pos: nat): seq<Step> {
    if |file| < pos then [Snapshot(0)] + [Reset(0)]
    else if LastBreak(file, pos, |file|) == pos then [Snapshot(0)]
    else [Snapshot(0)] + ([TryClaim(0)] + RouteLines(|LinesOf(file, pos, LastBreak(file, pos, |file|))|))
  }

  /** Every line handed out, claim by claim. */
  function RoutedLines(claims: seq<Claim>): seq<Line> {
    if claims == [] then [] else claims[0].routed + RoutedLines(claims[1..])
  }

  lemma {:induction false} RouteToEnd(file: seq<byte>, cursor: Option<nat>, c: Claim)
    requires c.done < c.to && Aligned(file, c.to)
    ensures Run(State(file, cursor, [Routing(0)], [c]), RouteLines(|LinesOf(file, c.done, c.to)|))
         == State(file, cursor, [Idle], [c.(done := c.to, routed := c.routed + LinesOf(file, c.done, c.to))])
    decreases c.to - c.done
  {
    LineEndWithin(file, c.done, c.to);
    var s := State(file, cursor, [Routing(0)], [c]);
    var c2 := RouteNext(file, c);
    var rest := LinesOf(file, c2.done, c.to);
    assert LinesOf(file, c.done, c.to) == [Line(c.done, c2.done)] + rest;
    RunCons(s, RouteLine(0), RouteLines(|rest|));
    SeqAssoc(c.routed, [Line(c.done, c2.done)], rest);
    if c2.done < c.to {
      assert Next(s, RouteLine(0)) == State(file, cursor, [Routing(0)], [c2]);
      RouteToEnd(file, cursor, c2);
    } else {
      assert Next(s, RouteLine(0)) == State(file, cursor, [Idle], [c2]);
      assert rest == [] && c2.routed + [] == c2.routed;
    }
  }

  /** Where the pass's protocol run ends: the shrink branch, nothing new, or the range up to the
      last newline claimed and every line of it handed out, with the worker idle again. */
  lemma {:induction false} PassEnds(file: seq<byte>, cursor: Option<nat>)
    ensures var pos := cursor.GetOr(0);
      Run(Alone(file, cursor), PassSteps(file, pos)) ==
        if |file| < pos then Alone(file, Some(|file|))
        else
          var upto := LastBreak(file, pos, |file|);
          if upto == pos then Alone(file, cursor)
          else State(file, Some(upto), [Idle], [Claim(0, pos, upto, upto, LinesOf(file, pos, upto), false)])
  {
    var pos := cursor.GetOr(0);
    var s := Alone(file, cursor);
    if |file| < pos {
      var s1 := State(file, cursor, [Shrinking(|file|, pos)], []);
      assert Next(s, Snapshot(0)) == s1 && Next(s1, Reset(0)) == Alone(file, Some(|file|));
      RunCons(s, Snapshot(0), [Reset(0)]);
      RunCons(s1, Reset(0), []);
      assert [Reset(0)] + [] == [Reset(0)];
    } else {
      var upto := LastBreak(file, pos, |file|);
      if upto == pos {
        assert Next(s, Snapshot(0)) == s;
        RunCons(s, Snapshot(0), []);
        assert [Snapshot(0)] + [] == [Snapshot(0)];
      } else {
        var c := Claim(0, pos, upto, pos, [], false);
        var s1 := State(file, cursor, [Ready(pos, upto)], []);
        var s2 := State(file, Some(upto), [Routing(0)], [c]);
        var n := |LinesOf(file, pos, upto)|;
        assert Next(s, Snapshot(0)) == s1 && Next(s1, TryClaim(0)) == s2;
        RunCons(s, Snapshot(0), [TryClaim(0)] + RouteLines(n));
        RunCons(s1, TryClaim(0), RouteLines(n));
        RouteToEnd(file, Some(upto), c);
        assert [] + LinesOf(file, pos, upto) == LinesOf(file, pos, upto);
      }
    }
  }

  /** What one undisturbed pass makes of the cursor, and the lines it hands out. */
  datatype Pass = Pass(cursor: nat, lines: seq<Line>)

  function PassOver(file: seq<byte>, pos: nat): Pass {
    if |file| < pos then Pass(|file|, [])
    else
      var upto := LastBreak(file, pos, |file|);
      Pass(upto, LinesOf(file, pos, upto))
  }

  /** The pass is the protocol run of one worker alone with the file, from start to idle. */
  lemma {:induction false} PassIsProtocolRun(file: seq<byte>, cursor: Option<nat>)
    ensures var s := Run(Alone(file, cursor), PassSteps(file, cursor.GetOr(0)));
      s.phases == [Idle] && PassOver(file, cursor.GetOr(0)) == Pass(Cursor(s), RoutedLines(s.claims))
  {
    var pos := cursor.GetOr(0);
    var s := Run(Alone(file, cursor), PassSteps(file, pos));
    PassEnds(file, cursor);
    if pos < |file| && LastBreak(file, pos, |file|) != pos {
      assert s.claims[1..] == [] && s.claims[0].routed + [] == s.claims[0].routed;
    }
  }

  /** A pass routes exactly the complete lines past the cursor whose bytes parse, each once; a line
      that does not parse, or is not complete yet, is not routed. */
  lemma {:induction false} PassRoutesAlerts(file: seq<byte>, pos: nat, parses: seq<byte> -> bool, x: nat)
    requires Aligned(file, pos)
    ensures CountStart(Filter(PassOver(file, pos).lines, IsAlert(file, parses)), x)
         == if pos <= x < |file| && Aligned(file, x) && file[LineEnd(file, x) - 1] == NEWLINE
               && parses(file[x..LineEnd(file, x)]) then 1 else 0
  {
    var upto := LastBreak(file, pos, |file|);
    AlertsOnce(file, parses, pos, upto, x);
    if pos <= x < upto {
      LineEndWithin(file, x, upto);
    }
  }

  class Dispatcher {
    const store: NotificationStore
    /** Lines handed to routing, in order. */
    var routed: seq<Line>
    var groups: Groups
    var attempts: seq<Attempt>

    constructor (store: NotificationStore)
      ensures this.store == store && routed == [] && groups == map[] && attempts == []
    {
      this.store := store;
      routed, groups, attempts := [], map[], [];
    }

    /** One undisturbed pass over the file as it stands: the cursor it leaves, and the alerts among
        the lines it hands out, routed in order. `parses` says which lines are alerts; blank and malformed ones are passed over. */
    method DispatchPending(file: seq<byte>, parses: seq<byte> -> bool) returns (processed: nat)
      modifies this`routed, store
      ensures var pass := PassOver(file, old(store.GetCursor()));
        store.GetCursor() == pass.cursor && routed == old(routed) + Filter(pass.lines, IsAlert(file, parses))
      ensures processed == |routed| - |old(routed)|
    {
      processed := 0;
      var size := |file|;
      var from := store.GetCursor();
      assert routed + [] == routed;
      if size < from {
        store.ResetCursor(size);
        return;
      }
      if size == from {
        return;
      }
      var upto := LastBreak(file, from, size);
      if upto == from {
        return;
      }
      var won := store.AdvanceCursor(from, upto);
      if won {
        processed := DeliverLines(file, from, upto, parses);
      }
    }

    /** The delivery loop over a claimed chunk. */
    method DeliverLines(file: seq<byte>, from: nat, upto: nat, parses: seq<byte> -> bool) returns (processed: nat)
      requires from <= upto && Aligned(file, upto)
      modifies this`routed
      ensures routed == old(routed) + Filter(LinesOf(file, from, upto), IsAlert(file, parses))
      ensures processed == |routed| - |old(routed)|
    {
      processed := 0;
      var next := from;
      ghost var goal := routed + Filter(LinesOf(file, from, upto), IsAlert(file, parses));
      while next < upto
        invariant from <= next <= upto
        invariant routed + Filter(LinesOf(file, next, upto), IsAlert(file, parses)) == goal
        invariant processed == |routed| - |old(routed)|
      {
        LineEndWithin(file, next, upto);
        var l := Line(next, LineEnd(file, next));
        assert LinesOf(file, next, upto)[1..] == LinesOf(file, l.end, upto);
        if IsAlert(file, parses)(l) {
          routed := routed + [l];
          processed := processed + 1;
        }
        next := l.end;
      }
    }

    /** The grouping step of `_route` over the channels its rules selected. */
    method RouteToChannels(channels: seq<string>, enabled: string -> bool, alertType: string, pair: Option<string>,
                 now: real, window: real, ghost arrivals: seq<Arrival>) returns (ghost after: seq<Arrival>)
      requires (groups, attempts) == Grouped(arrivals)
      modifies this`groups, this`attempts
      ensures after == arrivals + Reaching(channels, enabled, alertType, pair, now, window)
      ensures (groups, attempts) == Grouped(after)
    {
      after := arrivals;
      var i := 0;
      while i < |channels|
        invariant i <= |channels|
        invariant (groups, attempts) == Grouped(after)
        invariant after + Reaching(channels[i..], enabled, alertType, pair, now, window)
               == arrivals + Reaching(channels, enabled, alertType, pair, now, window)
      {
        assert channels[i..][1..] == channels[i + 1..];
        if enabled(channels[i]) {
          var key := Key(channels[i], alertType, pair);
          assert (after + [Arrival(key, now, window)])[..|after|] == after;
          after := after + [Arrival(key, now, window)];
          if key in groups && now - groups[key].last < window {
            groups := groups[key := Group(groups[key].last, groups[key].suppressed + 1)];
            attempts := attempts + [Attempt(key, now, window, Suppressed)];
          } else {
            var reported := if key in groups then groups[key].suppressed else 0;
            groups := groups[key := Group(now, 0)];
            attempts := attempts + [Attempt(key, now, window, Delivered(reported))];
          }
        }
        i := i + 1;
      }
    }
  }

  /** The arrivals at the grouping step: one per enabled channel, in order. */
  function Reaching(channels: seq<string>, enabled: string -> bool, alertType: string, pair: Option<string>,
                    now: real, window: real): seq<Arrival>
  {
    if channels == [] then []
    else (if enabled(channels[0]) then [Arrival(Key(channels[0], alertType, pair), now, window)] else [])
         + Reaching(channels[1..], enabled, alertType, pair, now, window)
  }

  /** Who gets an attempt at an alert: each selected channel that is enabled, once for each time it was
      selected and in that order, under the alert's own type and pair; a disabled one gets none. */
  lemma {:induction false} ReachesEnabled(channels: seq<string>, enabled: string -> bool, alertType: string,
                                          pair: Option<string>, now: real, window: real)
    ensures var arrivals := Reaching(channels, enabled, alertType, pair, now, window);
      var reached := Filter(channels, enabled);
      && |arrivals| == |reached|
      && forall i :: 0 <= i < |reached| ==>
           enabled(reached[i]) && arrivals[i] == Arrival(Key(reached[i], alertType, pair), now, window)
  {
    if channels != [] {
      ReachesEnabled(channels[1..], enabled, alertType, pair, now, window);
    }
  }
}
