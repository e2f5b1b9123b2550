/** The two rate limiters: what each window of time can let through, over any run. */
module RateLimit {
  import opened Lists

  // ------------------------------------------------------------ sliding window

  /** The hits of `log` still inside the window at `cutoff`. */
  function After(cutoff: real): real -> bool { (t: real) => t > cutoff }

  function Recent(log: seq<real>, cutoff: real): seq<real> { Filter(log, After(cutoff)) }

  type Buckets = map<string, seq<real>>

  function Bucket(b: Buckets, key: string): seq<real> { if key in b then b[key] else [] }

  function Pruned(b: Buckets, key: string, now: real, window: real): seq<real> {
    Recent(Bucket(b, key), now - window)
  }

  function Allows(b: Buckets, key: string, limit: int, now: real, window: real): bool {
    |Pruned(b, key, now, window)| < limit
  }

  /** `allow`: prune the key's bucket, then append the hit when it is within the limit. */
  function Hit(b: Buckets, key: string, limit: int, now: real, window: real): Buckets {
    var bucket := Pruned(b, key, now, window);
    b[key := if |bucket| >= limit then bucket else bucket + [now]]
  }

  datatype Call = Call(key: string, limit: int, now: real)

  /** The specification keeps every allowed hit for ever and never prunes. */
  type Logs = map<string, seq<real>>

  function SpecAllows(logs: Logs, c: Call, window: real): bool {
    |Recent(Bucket(logs, c.key), c.now - window)| < c.limit
  }

  function SpecHit(logs: Logs, c: Call, window: real): Logs {
    logs[c.key := Bucket(logs, c.key) + (if SpecAllows(logs, c, window) then [c.now] else [])]
  }

  /** Buckets and unpruned logs after a run of calls, and the answers given. */
  datatype Run = Run(buckets: Buckets, logs: Logs, answers: seq<bool>, spec: seq<bool>)

  function RunCalls(calls: seq<Call>, window: real): Run {
    if calls == [] then Run(map[], map[], [], [])
    else
      var r := RunCalls(calls[..|calls| - 1], window);
      var c := calls[|calls| - 1];
      Run(Hit(r.buckets, c.key, c.limit, c.now, window), SpecHit(r.logs, c, window),
          r.answers + [Allows(r.buckets, c.key, c.limit, c.now, window)], r.spec + [SpecAllows(r.logs, c, window)])
  }

  /** The clock is monotonic. */
  ghost predicate Clocked(calls: seq<Call>) {
    forall i, j :: 0 <= i <= j < |calls| ==> calls[i].now <= calls[j].now
  }

  lemma {:induction false} RecentRecent(log: seq<real>, a: real, b: real)
    requires a <= b
    ensures Recent(Recent(log, a), b) == Recent(log, b)
  {
    if log != [] {
      RecentRecent(log[1..], a, b);
      var rest := Recent(log[1..], a);
      if log[0] > a {
        assert ([log[0]] + rest)[1..] == rest;
        assert Recent(log, a) == [log[0]] + rest;
      } else {
        assert Recent(log, a) == rest;
      }
    }
  }

  lemma {:induction false} RecentSnoc(log: seq<real>, t: real, cutoff: real)
    ensures Recent(log + [t], cutoff) == Recent(log, cutoff) + (if t > cutoff then [t] else [])
  {
    FilterConcat(log, [t], After(cutoff));
    FilterOne(t, After(cutoff));
  }

  /** At and after the latest call's cutoff, the bucket and the unpruned log agree. */
  ghost predicate Agrees(buckets: Buckets, logs: Logs, key: string, from: real) {
    forall cutoff: real :: cutoff >= from ==>
      Recent(Bucket(buckets, key), cutoff) == Recent(Bucket(logs, key), cutoff)
  }

  /** One more hit, allowed or not, on a bucket and a log that agree from `from` on. */
  lemma {:induction false} RecentAfterHit(bucket: seq<real>, log: seq<real>, from: real, now: real, cutoff: real,
                                          allowed: bool)
    requires from <= cutoff && Recent(bucket, cutoff) == Recent(log, cutoff)
    ensures var hit := if allowed then [now] else [];
      var pruned := Recent(bucket, from);
      Recent(if allowed then pruned + [now] else pruned, cutoff) == Recent(log + hit, cutoff)
  {
    RecentRecent(bucket, from, cutoff);
    if allowed {
      RecentSnoc(Recent(bucket, from), now, cutoff);
      RecentSnoc(log, now, cutoff);
    } else {
      assert log + [] == log;
    }
  }

  lemma {:induction false} HitAgrees(b: Buckets, logs: Logs, c: Call, window: real, from: real, key: string)
    requires Agrees(b, logs, key, from) && Agrees(b, logs, c.key, from) && from <= c.now - window
    ensures Allows(b, c.key, c.limit, c.now, window) == SpecAllows(logs, c, window)
    ensures Agrees(Hit(b, c.key, c.limit, c.now, window), SpecHit(logs, c, window), key, c.now - window)
  {
    assert Recent(Bucket(b, c.key), c.now - window) == Recent(Bucket(logs, c.key), c.now - window);
    var b2, logs2 := Hit(b, c.key, c.limit, c.now, window), SpecHit(logs, c, window);
    forall cutoff: real | cutoff >= c.now - window
      ensures Recent(Bucket(b2, key), cutoff) == Recent(Bucket(logs2, key), cutoff)
    {
      assert Recent(Bucket(b, key), cutoff) == Recent(Bucket(logs, key), cutoff);
      if key == c.key {
        RecentAfterHit(Bucket(b, key), Bucket(logs, key), c.now - window, c.now, cutoff, SpecAllows(logs, c, window));
      }
    }
  }

  lemma {:induction false} RunAgrees(calls: seq<Call>, window: real, key: string, from: real)
    requires Clocked(calls) && forall i :: 0 <= i < |calls| ==> calls[i].now - window <= from
    ensures Agrees(RunCalls(calls, window).buckets, RunCalls(calls, window).logs, key, from)
    ensures RunCalls(calls, window).answers == RunCalls(calls, window).spec
  {
    if calls != [] {
      var before, c := calls[..|calls| - 1], calls[|calls| - 1];
      assert forall i :: 0 <= i < |before| ==> before[i] == calls[i];
      var r := RunCalls(before, window);
      RunAgrees(before, window, key, c.now - window);
      RunAgrees(before, window, c.key, c.now - window);
      HitAgrees(r.buckets, r.logs, c, window, c.now - window, key);
    }
  }

  /** The pruned limiter gives every answer the unpruned specification gives, and at every call
      the bucket it keeps is exactly the part of the full log inside the window. */
  lemma {:induction false} PruningIsSound(calls: seq<Call>, window: real, key: string, now: real)
    requires Clocked(calls) && forall i :: 0 <= i < |calls| ==> calls[i].now <= now
    ensures RunCalls(calls, window).answers == RunCalls(calls, window).spec
    ensures Pruned(RunCalls(calls, window).buckets, key, now, window)
         == Recent(Bucket(RunCalls(calls, window).logs, key), now - window)
  {
    RunAgrees(calls, window, key, now - window);
  }

  function Inside(a: real, b: real): real -> bool { (t: real) => a < t <= b }

  /** How many hits of `log` fall in (a, b]. */
  function CountIn(log: seq<real>, a: real, b: real): nat { |Filter(log, Inside(a, b))| }

  lemma {:induction false} CountSnoc(log: seq<real>, t: real, a: real, b: real)
    ensures CountIn(log + [t], a, b) == CountIn(log, a, b) + (if a < t <= b then 1 else 0)
  {
    FilterConcat(log, [t], Inside(a, b));
    FilterOne(t, Inside(a, b));
  }

  lemma {:induction false} CountRecent(log: seq<real>, a: real, b: real)
    ensures CountIn(log, a, b) <= |Recent(log, a)|
  {
    if log != [] {
      CountRecent(log[1..], a, b);
    }
  }

  lemma {:induction false} RecentMono(log: seq<real>, a: real, b: real)
    requires a <= b
    ensures |Recent(log, b)| <= |Recent(log, a)|
  {
    if log != [] {
      RecentMono(log[1..], a, b);
    }
  }

  ghost predicate LimitedTo(calls: seq<Call>, key: string, limit: nat) {
    forall i :: 0 <= i < |calls| && calls[i].key == key ==> calls[i].limit <= limit
  }

  lemma {:induction false} LoggedHitBound(log: seq<real>, c: Call, window: real, limit: nat, t: real)
    requires |Recent(log, c.now - window)| < c.limit <= limit
    requires CountIn(log, t - window, t) <= limit
    ensures CountIn(log + [c.now], t - window, t) <= limit
  {
    CountSnoc(log, c.now, t - window, t);
    if c.now <= t {
      CountRecent(log, t - window, t);
      RecentMono(log, c.now - window, t - window);
    }
  }

  lemma {:induction false} LogBound(calls: seq<Call>, window: real, key: string, limit: nat, t: real)
    requires LimitedTo(calls, key, limit)
    ensures CountIn(Bucket(RunCalls(calls, window).logs, key), t - window, t) <= limit
  {
    if calls != [] {
      var before, c := calls[..|calls| - 1], calls[|calls| - 1];
      assert LimitedTo(before, key, limit);
      LogBound(before, window, key, limit, t);
      var logs := RunCalls(before, window).logs;
      if c.key == key && SpecAllows(logs, c, window) {
        LoggedHitBound(Bucket(logs, key), c, window, limit, t);
      } else {
        assert Bucket(logs, key) + [] == Bucket(logs, key);
      }
    }
  }

  /** The times at which `key` was answered yes. */
  function AllowedTimes(calls: seq<Call>, answers: seq<bool>, key: string): seq<real>
    requires |calls| == |answers|
  {
    if calls == [] then []
    else
      var n := |calls| - 1;
      AllowedTimes(calls[..n], answers[..n], key) + (if calls[n].key == key && answers[n] then [calls[n].now] else [])
  }

  lemma {:induction false} BucketSpecHit(logs: Logs, c: Call, window: real, key: string)
    ensures Bucket(SpecHit(logs, c, window), key)
         == Bucket(logs, key) + (if c.key == key && SpecAllows(logs, c, window) then [c.now] else [])
  {
  }

  lemma {:induction false} LogsAreAnswers(calls: seq<Call>, window: real, key: string)
    ensures |RunCalls(calls, window).spec| == |calls|
    ensures AllowedTimes(calls, RunCalls(calls, window).spec, key) == Bucket(RunCalls(calls, window).logs, key)
  {
    if calls != [] {
      var n := |calls| - 1;
      LogsAreAnswers(calls[..n], window, key);
      var r := RunCalls(calls[..n], window);
      assert RunCalls(calls, window).spec[..n] == r.spec;
      BucketSpecHit(r.logs, calls[n], window, key);
    }
  }

  /** Over any run with a monotonic clock, any interval (t - W, t] holds at most `limit` allowed
      hits of a key, when no call on that key asked for more than `limit`. */
  lemma {:induction false} SlidingBound(calls: seq<Call>, window: real, key: string, limit: nat, t: real)
    requires Clocked(calls) && LimitedTo(calls, key, limit)
    ensures |RunCalls(calls, window).answers| == |calls|
    ensures CountIn(AllowedTimes(calls, RunCalls(calls, window).answers, key), t - window, t) <= limit
  {
    var last := if calls == [] then 0.0 else calls[|calls| - 1].now;
    PruningIsSound(calls, window, key, last);
    LogsAreAnswers(calls, window, key);
    LogBound(calls, window, key, limit, t);
  }

  lemma {:induction false} CountAllRecent(log: seq<real>, a: real, b: real)
    requires forall i :: 0 <= i < |log| ==> log[i] <= b
    ensures CountIn(log, a, b) == |Recent(log, a)|
  {
    if log != [] {
      CountAllRecent(log[1..], a, b);
    }
  }

  lemma {:induction false} AllowedBefore(calls: seq<Call>, answers: seq<bool>, key: string, now: real)
    requires |calls| == |answers| && forall i :: 0 <= i < |calls| ==> calls[i].now <= now
    ensures forall i :: 0 <= i < |AllowedTimes(calls, answers, key)| ==> AllowedTimes(calls, answers, key)[i] <= now
  {
    if calls != [] {
      var n := |calls| - 1;
      AllowedBefore(calls[..n], answers[..n], key, now);
    }
  }

  /** The answers a run of calls got. */
  ghost predicate Answered(calls: seq<Call>, window: real, answers: seq<bool>) {
    RunCalls(calls, window).answers == answers && |answers| == |calls|
  }

  /** What the pruned bucket holds is counted by the answers given so far. */
  lemma {:induction false} BucketIsAnswers(calls: seq<Call>, window: real, answers: seq<bool>, key: string, now: real)
    requires Clocked(calls) && Answered(calls, window, answers)
    requires forall i :: 0 <= i < |calls| ==> calls[i].now <= now
    ensures |Pruned(RunCalls(calls, window).buckets, key, now, window)|
         == CountIn(AllowedTimes(calls, answers, key), now - window, now)
  {
    PruningIsSound(calls, window, key, now);
    LogsAreAnswers(calls, window, key);
    AllowedBefore(calls, answers, key, now);
    CountAllRecent(Bucket(RunCalls(calls, window).logs, key), now - window, now);
  }

  lemma {:induction false} ClockedBefore(calls: seq<Call>, c: Call)
    requires Clocked(calls + [c])
    ensures Clocked(calls) && forall i :: 0 <= i < |calls| ==> calls[i].now <= c.now
  {
    var more := calls + [c];
    forall i, j | 0 <= i <= j < |calls| ensures calls[i].now <= calls[j].now {
      assert more[i].now <= more[j].now;
    }
    forall i | 0 <= i < |calls| ensures calls[i].now <= c.now {
      assert more[i].now <= more[|calls|].now;
    }
  }

  lemma {:induction false} NextAnswer(calls: seq<Call>, c: Call, window: real, answers: seq<bool>, held: nat)
    requires Answered(calls, window, answers)
    requires held == |Pruned(RunCalls(calls, window).buckets, c.key, c.now, window)|
    ensures Answered(calls + [c], window, answers + [held < c.limit])
  {
    assert (calls + [c])[..|calls|] == calls;
  }

  /** Exactly when a call is allowed: when fewer than its limit of the hits of its key that were allowed
      before it are less than a window old. */
  lemma {:induction false} AllowedIff(calls: seq<Call>, c: Call, window: real, answers: seq<bool>)
    requires Clocked(calls + [c]) && Answered(calls, window, answers)
    ensures Answered(calls + [c], window,
                     answers + [CountIn(AllowedTimes(calls, answers, c.key), c.now - window, c.now) < c.limit])
  {
    ClockedBefore(calls, c);
    BucketIsAnswers(calls, window, answers, c.key, c.now);
    NextAnswer(calls, c, window, answers, CountIn(AllowedTimes(calls, answers, c.key), c.now - window, c.now));
  }

  class InMemoryRateLimiter {
    const window: real
    var buckets: Buckets

    constructor (window: real)
      ensures this.window == window && buckets == map[]
    {
      this.window := window;
      buckets := map[];
    }

    method Allow(key: string, limit: int, now: real) returns (ok: bool)
      modifies this
      ensures ok == Allows(old(buckets), key, limit, now, window)
      ensures buckets == Hit(old(buckets), key, limit, now, window)
    {
      var cutoff := now - window;
      var bucket := Recent(Bucket(buckets, key), cutoff);
      if |bucket| >= limit {
        buckets := buckets[key := bucket];
        return false;
      }
      bucket := bucket + [now];
      buckets := buckets[key := bucket];
      return true;
    }
  }

  // -------------------------------------------------------------- fixed window

  /** An ideal counter with a time to live: `start` is when its current life began. */
  datatype Counter = Absent | Live(start: real, count: nat)

  function Expired(c: Counter, now: real, window: real): bool {
    c.Absent? || now >= c.start + window
  }

  function Incr(c: Counter, now: real, window: real): Counter {
    if Expired(c, now, window) then Live(now, 1) else Live(c.start, c.count + 1)
  }

  datatype Fixed = Fixed(counter: Counter, allowed: seq<real>)

  /** One key's counter and allowed hits after a run of hits. */
  function FixedRun(hits: seq<real>, limit: nat, window: real): Fixed {
    if hits == [] then Fixed(Absent, [])
    else
      FixedHit(FixedRun(hits[..|hits| - 1], limit, window), hits[|hits| - 1], limit, window)
  }

  function FixedHit(f: Fixed, now: real, limit: nat, window: real): Fixed {
    var c := Incr(f.counter, now, window);
    Fixed(c, if c.count <= limit then f.allowed + [now] else f.allowed)
  }

  function HalfOpen(a: real, b: real): real -> bool { (t: real) => a <= t < b }

  /** How many hits fall in [a, b). */
  function CountFrom(hits: seq<real>, a: real, b: real): nat { |Filter(hits, HalfOpen(a, b))| }

  lemma {:induction false} CountFromSnoc(hits: seq<real>, t: real, a: real, b: real)
    ensures CountFrom(hits + [t], a, b) == CountFrom(hits, a, b) + (if a <= t < b then 1 else 0)
  {
    FilterConcat(hits, [t], HalfOpen(a, b));
    FilterOne(t, HalfOpen(a, b));
  }

  ghost predicate Ascending(hits: seq<real>) { forall i, j :: 0 <= i <= j < |hits| ==> hits[i] <= hits[j] }

  function Least(a: nat, b: nat): nat { if a <= b then a else b }

  /** What the counter's current life says about the interval [a, a + W): a life begun before
      it keeps its first hit outside, one begun inside meets at most the rest of one earlier life. */
  ghost predicate IntervalBound(f: Fixed, last: real, limit: nat, window: real, a: real) {
    var n := CountFrom(f.allowed, a, a + window);
    && f.counter.Live? && f.counter.count >= 1 && f.counter.start <= last
    && (last < a ==> n == 0)
    && (if f.counter.start < a then n <= Least(f.counter.count, limit) - 1
        else if f.counter.start < a + window then n <= limit - 1 + Least(f.counter.count, limit)
        else n <= 2 * limit - 1)
  }

  lemma {:induction false} IntervalStep(hits: seq<real>, limit: nat, window: real, a: real)
    requires Ascending(hits) && |hits| >= 2 && limit >= 1 && window > 0.0
    requires IntervalBound(FixedRun(hits[..|hits| - 1], limit, window), hits[|hits| - 2], limit, window, a)
    ensures IntervalBound(FixedRun(hits, limit, window), hits[|hits| - 1], limit, window, a)
  {
    var f := FixedRun(hits[..|hits| - 1], limit, window);
    CountFromSnoc(f.allowed, hits[|hits| - 1], a, a + window);
  }

  lemma {:induction false} FixedInterval(hits: seq<real>, limit: nat, window: real, a: real)
    requires Ascending(hits) && hits != [] && limit >= 1 && window > 0.0
    ensures IntervalBound(FixedRun(hits, limit, window), hits[|hits| - 1], limit, window, a)
  {
    if |hits| == 1 {
      assert hits[..0] == [];
      CountFromSnoc([], hits[0], a, a + window);
    } else {
      var before := hits[..|hits| - 1];
      assert before[|before| - 1] == hits[|hits| - 2];
      FixedInterval(before, limit, window, a);
      IntervalStep(hits, limit, window, a);
    }
  }

  /** Over any run with a monotonic clock and a limit of at least 1, any half-open interval of
      one window's length lets through at most 2 * limit - 1 hits of a key. */
  lemma {:induction false} FixedWindowBound(hits: seq<real>, limit: nat, window: real, a: real)
    requires Ascending(hits) && limit >= 1 && window > 0.0
    ensures CountFrom(FixedRun(hits, limit, window).allowed, a, a + window) <= 2 * limit - 1
  {
    if hits != [] {
      FixedInterval(hits, limit, window, a);
    }
  }

  // ------------------------------------------------- the bound is attained

  function Times(n: nat, t: real): (r: seq<real>)
    ensures |r| == n && forall i :: 0 <= i < n ==> r[i] == t
  {
    if n == 0 then [] else Times(n - 1, t) + [t]
  }

  lemma {:induction false} CountTimes(base: seq<real>, n: nat, t: real, a: real, b: real)
    ensures CountFrom(base + Times(n, t), a, b) == CountFrom(base, a, b) + (if a <= t < b then n else 0)
  {
    if n == 0 {
      assert base + [] == base;
    } else {
      CountTimes(base, n - 1, t, a, b);
      CountFromSnoc(base + Times(n - 1, t), t, a, b);
      assert base + Times(n, t) == (base + Times(n - 1, t)) + [t];
    }
  }

  lemma {:induction false} FixedRunSnoc(hits: seq<real>, t: real, limit: nat, window: real)
    ensures FixedRun(hits + [t], limit, window) == FixedHit(FixedRun(hits, limit, window), t, limit, window)
  {
  }

  lemma {:induction false} TimesSnoc(base: seq<real>, n: nat, t: real)
    requires n > 0
    ensures base + Times(n, t) == (base + Times(n - 1, t)) + [t]
  {
  }

  /** The counter and the allowed hits after `n` more hits at `t` in the life of `f`. */
  function LaterInLife(f: Fixed, n: nat, t: real): Fixed
    requires f.counter.Live?
  {
    Fixed(Live(f.counter.start, f.counter.count + n), f.allowed + Times(n, t))
  }

  lemma {:induction false} LaterStep(f: Fixed, n: nat, t: real, limit: nat, window: real)
    requires n > 0 && f.counter.Live? && t < f.counter.start + window && f.counter.count + n <= limit
    ensures FixedHit(LaterInLife(f, n - 1, t), t, limit, window) == LaterInLife(f, n, t)
  {
  }

  /** `n` more hits at `t` inside the current life, all within the limit. */
  lemma {:induction false} SameLife(base: seq<real>, n: nat, t: real, limit: nat, window: real, f: Fixed)
    requires f == FixedRun(base, limit, window)
    requires f.counter.Live? && t < f.counter.start + window && f.counter.count + n <= limit
    ensures FixedRun(base + Times(n, t), limit, window) == LaterInLife(f, n, t)
  {
    if n == 0 {
      assert base + Times(0, t) == base && f.allowed + Times(0, t) == f.allowed;
    } else {
      SameLife(base, n - 1, t, limit, window, f);
      FixedRunSnoc(base + Times(n - 1, t), t, limit, window);
      LaterStep(f, n, t, limit, window);
      TimesSnoc(base, n, t);
    }
  }

  lemma {:induction false} NewLife(base: seq<real>, t: real, limit: nat, window: real)
    requires limit >= 1 && Expired(FixedRun(base, limit, window).counter, t, window)
    ensures FixedRun(base + [t], limit, window) == Fixed(Live(t, 1), FixedRun(base, limit, window).allowed + [t])
  {
  }

  /** One hit at 0, the rest of its limit half a window later, a full limit when it expires. */
  function Burst(limit: nat, window: real): seq<real>
    requires limit >= 1
  {
    (([0.0] + Times(limit - 1, window / 2.0)) + [window]) + Times(limit - 1, window)
  }

  lemma {:induction false} BurstAllAllowed(limit: nat, window: real)
    requires limit >= 1 && window > 0.0
    ensures FixedRun(Burst(limit, window), limit, window).allowed == Burst(limit, window)
  {
    var first := [0.0];
    assert [] + [0.0] == first;
    NewLife([], 0.0, limit, window);
    var second := first + Times(limit - 1, window / 2.0);
    SameLife(first, limit - 1, window / 2.0, limit, window, FixedRun(first, limit, window));
    NewLife(second, window, limit, window);
    SameLife(second + [window], limit - 1, window, limit, window, FixedRun(second + [window], limit, window));
  }

  lemma {:induction false} BurstCount(limit: nat, window: real)
    requires limit >= 1 && window > 0.0
    ensures CountFrom(Burst(limit, window), window / 2.0, window / 2.0 + window) == 2 * limit - 1
  {
    var a, b := window / 2.0, window / 2.0 + window;
    assert [] + [0.0] == [0.0];
    CountFromSnoc([], 0.0, a, b);
    CountTimes([0.0], limit - 1, a, a, b);
    CountFromSnoc([0.0] + Times(limit - 1, a), window, a, b);
    CountTimes([0.0] + Times(limit - 1, a) + [window], limit - 1, window, a, b);
  }

  lemma {:induction false} BurstAscending(limit: nat, window: real)
    requires limit >= 1 && window > 0.0
    ensures Ascending(Burst(limit, window))
  {
  }

  /** The bound is sharp: for every limit and window some run reaches it. */
  lemma {:induction false} FixedWindowAttained(limit: nat, window: real) returns (hits: seq<real>, a: real)
    requires limit >= 1 && window > 0.0
    ensures Ascending(hits)
    ensures CountFrom(FixedRun(hits, limit, window).allowed, a, a + window) == 2 * limit - 1
  {
    hits, a := Burst(limit, window), window / 2.0;
    BurstAscending(limit, window);
    BurstAllAllowed(limit, window);
    BurstCount(limit, window);
  }

  /** The counter does not depend on the limits the hits were checked against. */
  lemma {:induction false} CounterAlone(hits: seq<real>, limit: nat, other: nat, window: real)
    ensures FixedRun(hits, limit, window).counter == FixedRun(hits, other, window).counter
  {
    if hits != [] {
      CounterAlone(hits[..|hits| - 1], limit, other, window);
    }
  }

  lemma {:induction false} CounterCounts(hits: seq<real>, limit: nat, window: real)
    ensures var c := FixedRun(hits, limit, window).counter; (c.Live? <==> hits != []) && (c.Live? ==> c.count >= 1)
  {
    if hits != [] {
      CounterCounts(hits[..|hits| - 1], limit, window);
    }
  }

  /** One more hit: the counter any limit sees, and whether this one lets it through. */
  lemma {:induction false} NextCount(hits: seq<real>, now: real, limit: int, window: real, c: Counter, count: nat)
    requires c == FixedRun(hits, 0, window).counter
    requires count == if Expired(c, now, window) then 1 else c.count + 1
    ensures FixedRun(hits + [now], 0, window).counter == (if count == 1 then Live(now, 1) else Live(c.start, count))
    ensures limit < 0 ==> count > limit
    ensures limit >= 0 ==>
      FixedRun(hits + [now], limit, window).allowed
      == FixedRun(hits, limit, window).allowed + (if count <= limit then [now] else [])
  {
    CounterCounts(hits, 0, window);
    FixedRunSnoc(hits, now, 0, window);
    if limit >= 0 {
      CounterAlone(hits, limit, 0, window);
      FixedRunSnoc(hits, now, limit, window);
    }
  }

  class FixedWindowLimiter {
    const window: real
    var counters: map<string, Counter>
    /** Every hit on each key, allowed or not: history for the bounds above. */
    ghost var hits: map<string, seq<real>>

    ghost function HitsOn(key: string): seq<real>
      reads this
    {
      if key in hits then hits[key] else []
    }

    /** Each counter is the one the hits on its key make. */
    ghost predicate Valid()
      reads this
    {
      && hits.Keys == counters.Keys
      && forall key :: key in counters ==> counters[key] == FixedRun(hits[key], 0, window).counter
    }

    constructor (window: real)
      ensures Valid() && this.window == window && hits == map[]
    {
      this.window := window;
      counters, hits := map[], map[];
    }

    /** `INCR`, then a one-window time to live on the first hit. The answer is that of the run of the
        key's own hits, and no other key is touched. */
    method Allow(key: string, limit: int, now: real) returns (ok: bool)
      requires Valid()
      modifies this
      ensures Valid() && hits == old(hits)[key := old(HitsOn(key)) + [now]]
      ensures limit < 0 ==> !ok
      ensures limit >= 0 ==>
        FixedRun(HitsOn(key), limit, window).allowed
        == FixedRun(old(HitsOn(key)), limit, window).allowed + (if ok then [now] else [])
    {
      ghost var before := HitsOn(key);
      var c := if key in counters then counters[key] else Absent;
      var count := if Expired(c, now, window) then 1 else c.count + 1;
      NextCount(before, now, limit, window, c, count);
      if count == 1 {
        counters := counters[key := Live(now, 1)];
      } else {
        counters := counters[key := Live(c.start, count)];
      }
      hits := hits[key := before + [now]];
      return count <= limit;
    }
  }
}
