/** Anti-flood grouping per (channel, type, pair): nothing is lost from the count and
    deliveries of one key are at least a window apart. */
module AlertGrouping {
  import opened Lists

  datatype Key = Key(channel: string, alertType: string, pair: Option<string>)

  datatype Group = Group(last: real, suppressed: nat)

  /** What became of one alert for one key: held back, or sent with the number of alerts
      the suffix reports as suppressed since the previous send. */
  datatype Fate = Suppressed | Delivered(reported: nat)

  datatype Attempt = Attempt(key: Key, now: real, window: real, fate: Fate)

  type Groups = map<Key, Group>

  function Decide(groups: Groups, key: Key, now: real, window: real): Fate {
    if key in groups && now - groups[key].last < window then Suppressed
    else Delivered(if key in groups then groups[key].suppressed else 0)
  }

  function Update(groups: Groups, key: Key, now: real, window: real): Groups {
    if Decide(groups, key, now, window).Suppressed? then
      groups[key := Group(groups[key].last, groups[key].suppressed + 1)]
    else groups[key := Group(now, 0)]
  }

  datatype Arrival = Arrival(key: Key, now: real, window: real)

  /** Groups and attempts after a run of arrivals at the grouping step. */
  function Grouped(arrivals: seq<Arrival>): (Groups, seq<Attempt>) {
    if arrivals == [] then (map[], [])
    else
      var (groups, log) := Grouped(arrivals[..|arrivals| - 1]);
      var a := arrivals[|arrivals| - 1];
      (Update(groups, a.key, a.now, a.window),
       log + [Attempt(a.key, a.now, a.window, Decide(groups, a.key, a.now, a.window))])
  }

  function Arrived(log: seq<Attempt>, key: Key): nat {
    if log == [] then 0 else Arrived(log[..|log| - 1], key) + (if log[|log| - 1].key == key then 1 else 0)
  }

  function Sent(log: seq<Attempt>, key: Key): nat {
    if log == [] then 0
    else Sent(log[..|log| - 1], key) + (if log[|log| - 1].key == key && log[|log| - 1].fate.Delivered? then 1 else 0)
  }

  function Reported(log: seq<Attempt>, key: Key): nat {
    if log == [] then 0
    else Reported(log[..|log| - 1], key)
         + (if log[|log| - 1].key == key && log[|log| - 1].fate.Delivered? then log[|log| - 1].fate.reported else 0)
  }

  function Held(groups: Groups, key: Key): nat {
    if key in groups then groups[key].suppressed else 0
  }

  /** The log records every arrival, in order. */
  lemma {:induction false} LogMatches(arrivals: seq<Arrival>)
    ensures var log := Grouped(arrivals).1;
      |log| == |arrivals| && forall i :: 0 <= i < |log| ==>
        log[i].key == arrivals[i].key && log[i].now == arrivals[i].now && log[i].window == arrivals[i].window
  {
    if arrivals != [] {
      LogMatches(arrivals[..|arrivals| - 1]);
    }
  }

  /** Conservation, for any run, any windows and any clock: every alert that reached the
      grouping step for a key was sent, reported in a later suffix, or is still held. */
  lemma {:induction false} Conservation(arrivals: seq<Arrival>, key: Key)
    ensures var (groups, log) := Grouped(arrivals);
      Arrived(log, key) == Sent(log, key) + Reported(log, key) + Held(groups, key)
  {
    if arrivals != [] {
      var before := arrivals[..|arrivals| - 1];
      Conservation(before, key);
      var log := Grouped(arrivals).1;
      assert log[..|log| - 1] == Grouped(before).1;
    }
  }

  ghost predicate SentAt(log: seq<Attempt>, key: Key, i: int) {
    0 <= i < |log| && log[i].key == key && log[i].fate.Delivered?
  }

  /** A key's group remembers its latest send. */
  lemma {:induction false} LastSend(arrivals: seq<Arrival>, key: Key, i: nat)
    requires SentAt(Grouped(arrivals).1, key, i)
    requires forall w :: 0 <= w < |arrivals| ==> arrivals[w].window >= 0.0
    ensures key in Grouped(arrivals).0 && Grouped(arrivals).1[i].now <= Grouped(arrivals).0[key].last
  {
    LogMatches(arrivals);
    var n := |arrivals|;
    var before := arrivals[..n - 1];
    var log := Grouped(arrivals).1;
    LogMatches(before);
    assert log[..n - 1] == Grouped(before).1;
    if i < n - 1 {
      assert SentAt(Grouped(before).1, key, i);
      LastSend(before, key, i);
    }
  }

  /** Two sends of one key are at least the later one's window apart, whatever the clock does. */
  lemma {:induction false} SendsApart(arrivals: seq<Arrival>, key: Key, i: nat, j: nat)
    requires var log := Grouped(arrivals).1; i < j && SentAt(log, key, i) && SentAt(log, key, j)
    requires forall w :: 0 <= w < |arrivals| ==> arrivals[w].window >= 0.0
    ensures var log := Grouped(arrivals).1; log[j].now - log[i].now >= log[j].window
  {
    LogMatches(arrivals);
    var n := |arrivals|;
    var before := arrivals[..n - 1];
    var log := Grouped(arrivals).1;
    LogMatches(before);
    assert log[..n - 1] == Grouped(before).1;
    if j < n - 1 {
      SendsApart(before, key, i, j);
    } else {
      assert SentAt(Grouped(before).1, key, i);
      LastSend(before, key, i);
    }
  }

  /** Attempt `i` is the last delivery of the key. */
  ghost predicate LastSentAt(log: seq<Attempt>, key: Key, i: int) {
    SentAt(log, key, i) && forall j :: i < j < |log| ==> !SentAt(log, key, j)
  }

  /** A key has a group exactly when it was delivered, and the group holds its last delivery's time. */
  lemma {:induction false} GroupIsLastSend(arrivals: seq<Arrival>, key: Key)
    ensures key in Grouped(arrivals).0 <==> exists i :: LastSentAt(Grouped(arrivals).1, key, i)
    ensures forall i :: LastSentAt(Grouped(arrivals).1, key, i) ==>
              key in Grouped(arrivals).0 && Grouped(arrivals).0[key].last == Grouped(arrivals).1[i].now
  {
    if arrivals != [] {
      var n := |arrivals| - 1;
      GroupIsLastSend(arrivals[..n], key);
      LogMatches(arrivals[..n]);
      var before, log := Grouped(arrivals[..n]).1, Grouped(arrivals).1;
      assert log[..n] == before;
      forall i ensures SentAt(log, key, i) <==> SentAt(before, key, i) || (i == n && SentAt(log, key, n)) {
      }
      if SentAt(log, key, n) {
        assert LastSentAt(log, key, n);
      } else {
        forall i ensures LastSentAt(log, key, i) <==> LastSentAt(before, key, i) {
        }
      }
    }
  }

  /** An alert is held back if and only if the last delivery of its key, in the log of all
      attempts, is less than a window old. */
  lemma {:induction false} HeldBackIff(arrivals: seq<Arrival>, a: Arrival)
    ensures var before, log := Grouped(arrivals).1, Grouped(arrivals + [a]).1;
      && |before| == |arrivals| && |log| == |arrivals| + 1 && log[..|arrivals|] == before
      && (log[|arrivals|].fate.Suppressed? <==>
            exists i :: LastSentAt(before, a.key, i) && a.now - before[i].now < a.window)
  {
    assert (arrivals + [a])[..|arrivals|] == arrivals;
    LogMatches(arrivals);
    GroupIsLastSend(arrivals, a.key);
  }

  function OfKey(key: Key): Arrival -> bool { (a: Arrival) => a.key == key }
  function LoggedFor(key: Key): Attempt -> bool { (a: Attempt) => a.key == key }

  /** What a run does to one key is what the arrivals of that key alone would do to it. */
  lemma {:induction false} KeysApart(arrivals: seq<Arrival>, key: Key)
    ensures var (groups, log) := Grouped(arrivals);
      var (own, ownLog) := Grouped(Filter(arrivals, OfKey(key)));
      && Filter(log, LoggedFor(key)) == ownLog
      && (key in groups <==> key in own) && (key in groups ==> groups[key] == own[key])
  {
    if arrivals != [] {
      var n := |arrivals| - 1;
      var a := arrivals[n];
      KeysApart(arrivals[..n], key);
      assert arrivals == arrivals[..n] + [a];
      FilterConcat(arrivals[..n], [a], OfKey(key));
      FilterOne(a, OfKey(key));
      var (groups, log) := Grouped(arrivals[..n]);
      var entry := Attempt(a.key, a.now, a.window, Decide(groups, a.key, a.now, a.window));
      FilterConcat(log, [entry], LoggedFor(key));
      FilterOne(entry, LoggedFor(key));
      var own := Filter(arrivals[..n], OfKey(key));
      if a.key == key {
        assert (own + [a])[..|own|] == own;
      } else {
        assert own + [] == own;
      }
    }
  }

  /** Alerts of different channels, types or pairs never hold each other back: what becomes of the
      arrivals of one key is the same whatever else arrives between them. */
  lemma {:induction false} OthersNeverMatter(a: seq<Arrival>, b: seq<Arrival>, key: Key)
    requires Filter(a, OfKey(key)) == Filter(b, OfKey(key))
    ensures Filter(Grouped(a).1, LoggedFor(key)) == Filter(Grouped(b).1, LoggedFor(key))
  {
    KeysApart(a, key);
    KeysApart(b, key);
  }
}
