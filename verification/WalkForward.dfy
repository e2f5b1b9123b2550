/** Walk-forward validation: the windows tile the data and every out-of-sample trade opens
    inside its own test segment. */
module WalkForward {
  import opened Lists
  import opened Backtest

  /** Candle indices: train on [start, trainEnd), test on [trainEnd, testEnd). */
  datatype Win = Win(start: nat, trainEnd: nat, testEnd: nat)

  datatype Plan = Plan(windowSize: nat, testSize: nat, minWindows: nat)

  function WinAt(p: Plan, k: nat): Win {
    Win(k * p.testSize, k * p.testSize + p.windowSize, k * p.testSize + p.windowSize + p.testSize)
  }

  /** Python's `xs[lo:hi]`: negative bounds count from the end, all bounds are clipped. */
  function PyIndex(i: int, n: nat): nat {
    if i < 0 then (if i + n < 0 then 0 else i + n) else if i > n then n else i
  }

  function PySlice<T>(xs: seq<T>, lo: int, hi: int): seq<T> {
    var a, b := PyIndex(lo, |xs|), PyIndex(hi, |xs|);
    if a <= b then xs[a..b] else []
  }

  function TrainSlice(ohlcv: seq<Candle>, w: Win): seq<Candle> { PySlice(ohlcv, w.start, w.trainEnd) }

  /** The test segment with the warm-up candles in front of it. */
  function TestSlice(ohlcv: seq<Candle>, w: Win): seq<Candle> { PySlice(ohlcv, w.trainEnd - 50, w.testEnd) }

  lemma {:induction false} StepTimes(k: nat, t: nat)
    ensures (k + 1) * t == k * t + t
  {
  }

  lemma {:induction false} Grows(i: nat, j: nat, t: nat)
    requires i <= j
    ensures i * t <= j * t
  {
  }

  /** Window generation: every window that fits, none that does not. The test segments are
      consecutive, so they tile [windowSize, windowSize + n * testSize) without overlap. */
  method Windows(total: nat, p: Plan) returns (ws: seq<Win>)
    requires p.testSize > 0
    ensures forall k :: 0 <= k < |ws| ==> ws[k] == WinAt(p, k) && ws[k].testEnd <= total
    ensures forall k :: 0 <= k < |ws| - 1 ==> ws[k].testEnd == ws[k + 1].trainEnd
    ensures ws != [] ==> ws[0].trainEnd == p.windowSize
    ensures WinAt(p, |ws|).testEnd > total
  {
    ws := [];
    var start := 0;
    while start + p.windowSize + p.testSize <= total
      invariant start == |ws| * p.testSize
      invariant forall k :: 0 <= k < |ws| ==> ws[k] == WinAt(p, k) && ws[k].testEnd <= total
      decreases total + p.testSize - start
    {
      ghost var n := |ws|;
      ws := ws + [Win(start, start + p.windowSize, start + p.windowSize + p.testSize)];
      start := start + p.testSize;
      StepTimes(n, p.testSize);
    }
    forall k | 0 <= k < |ws| - 1 ensures ws[k].testEnd == ws[k + 1].trainEnd {
      StepTimes(k, p.testSize);
    }
  }

  /** The trades of one window's test run, from whatever state training left the strategy in. */
  function TestTrades<S>(e: Engine, strategy: Strategy<S>, state: S, ohlcv: seq<Candle>, w: Win): seq<Trade> {
    RunAccount(e, strategy, state, TestSlice(ohlcv, w)).trades
  }

  /** Where a test-run trade opened in the full series. */
  function OpenedAtCandle(w: Win, t: Trade): int { t.index + w.trainEnd - 50 }

  /** Whether a window's test slice is long enough to be replayed at all. */
  predicate Testable(w: Win) { 50 <= w.trainEnd && w.testEnd - w.trainEnd >= 10 }

  lemma {:induction false} TestableIff(ohlcv: seq<Candle>, w: Win)
    requires w.trainEnd <= w.testEnd <= |ohlcv|
    ensures Enough(TestSlice(ohlcv, w)) <==> Testable(w)
  {
    if w.trainEnd < 50 {
      assert |TestSlice(ohlcv, w)| <= 50;
    }
  }

  /** Every out-of-sample trade opens inside its window's own test segment, for any window size.
      A window that leaves fewer than 50 candles before its segment, or a segment of fewer than 10
      candles, produces no test trade for any strategy: its slice is too short to replay, in the
      first case because the slice start wraps around. */
  lemma {:induction false} TestTradesInSegment<S>(e: Engine, strategy: Strategy<S>, state: S, ohlcv: seq<Candle>, w: Win)
    requires w.trainEnd <= w.testEnd <= |ohlcv|
    ensures forall i :: 0 <= i < |TestTrades(e, strategy, state, ohlcv, w)| ==>
      w.trainEnd <= OpenedAtCandle(w, TestTrades(e, strategy, state, ohlcv, w)[i]) < w.testEnd
    ensures !Testable(w) ==> TestTrades(e, strategy, state, ohlcv, w) == []
  {
    RunBooks(e, strategy, state, TestSlice(ohlcv, w));
    TestableIff(ohlcv, w);
  }

  /** And these are the only windows that lose trades for their shape: the strategy that always
      buys trades out of sample exactly in the others. */
  lemma {:induction false} TestTradesIff(e: Engine, state: bool, ohlcv: seq<Candle>, w: Win)
    requires w.trainEnd <= w.testEnd <= |ohlcv|
    ensures TestTrades(e, AlwaysBuy(), state, ohlcv, w) != [] <==> Testable(w)
  {
    TestableIff(ohlcv, w);
  }

  /** The candles of a test run are the warm-up and the segment itself, nothing later. */
  lemma {:induction false} TestSliceIsSegment(ohlcv: seq<Candle>, w: Win)
    requires 50 <= w.trainEnd <= w.testEnd <= |ohlcv|
    ensures TestSlice(ohlcv, w) == ohlcv[w.trainEnd - 50..w.testEnd]
    ensures forall i :: 50 <= i < |TestSlice(ohlcv, w)| ==>
      TestSlice(ohlcv, w)[i] == ohlcv[i + w.trainEnd - 50]
  {
  }

  /** Out-of-sample trades of different windows never share an opening candle. */
  lemma {:induction false} WindowsDisjoint<S>(e: Engine, strategy: Strategy<S>, s1: S, s2: S, ohlcv: seq<Candle>, p: Plan,
                                              j: nat, k: nat, a: nat, b: nat)
    requires j < k && WinAt(p, k).testEnd <= |ohlcv|
    requires a < |TestTrades(e, strategy, s1, ohlcv, WinAt(p, j))|
    requires b < |TestTrades(e, strategy, s2, ohlcv, WinAt(p, k))|
    ensures OpenedAtCandle(WinAt(p, j), TestTrades(e, strategy, s1, ohlcv, WinAt(p, j))[a])
          < OpenedAtCandle(WinAt(p, k), TestTrades(e, strategy, s2, ohlcv, WinAt(p, k))[b])
  {
    StepTimes(j, p.testSize);
    Grows(j + 1, k, p.testSize);
    TestTradesInSegment(e, strategy, s1, ohlcv, WinAt(p, j));
    TestTradesInSegment(e, strategy, s2, ohlcv, WinAt(p, k));
  }

  datatype WindowResult = WindowResult(win: Win, train: seq<Trade>, test: seq<Trade>)

  /** Where a training trade opened in the full series. */
  function TrainedAtCandle(w: Win, t: Trade): int { t.index + w.start }

  /** A result of window `k`: it fits the data, its training trades open past the warm-up and before
      the training slice ends, and its test trades open in its segment. */
  ghost predicate Honest(p: Plan, n: nat, k: nat, r: WindowResult) {
    && r.win == WinAt(p, k) && r.win.testEnd <= n
    && (forall i :: 0 <= i < |r.train| ==> r.win.start + 50 <= TrainedAtCandle(r.win, r.train[i]) < r.win.trainEnd)
    && forall i :: 0 <= i < |r.test| ==> r.win.trainEnd <= OpenedAtCandle(r.win, r.test[i]) < r.win.testEnd
  }

  function WindowRun<S>(e: Engine, strategy: Strategy<S>, state: S, ohlcv: seq<Candle>, w: Win): (WindowResult, S) {
    var trained := RunAccount(e, strategy, state, TrainSlice(ohlcv, w));
    var tested := RunAccount(e, strategy, trained.state, TestSlice(ohlcv, w));
    (WindowResult(w, trained.trades, TestTrades(e, strategy, trained.state, ohlcv, w)), tested.state)
  }

  /** The candles of a training run are those of the training slice, none later. */
  lemma {:induction false} TrainSliceIs(ohlcv: seq<Candle>, w: Win)
    requires w.start <= w.trainEnd <= |ohlcv|
    ensures TrainSlice(ohlcv, w) == ohlcv[w.start..w.trainEnd]
  {
  }

  /** One window in terms of the series itself: training sees `[start, trainEnd)` and starts from the
      state it is given, the test sees 50 candles before its segment and the segment and starts from
      the state training left, and a window that cannot be tested leaves that state alone. */
  lemma {:induction false} WindowReplays<S>(e: Engine, strategy: Strategy<S>, state: S, ohlcv: seq<Candle>, w: Win)
    requires w.start <= w.trainEnd <= w.testEnd <= |ohlcv|
    ensures var (r, after) := WindowRun(e, strategy, state, ohlcv, w);
      var trained := RunAccount(e, strategy, state, ohlcv[w.start..w.trainEnd]);
      && r.win == w && r.train == trained.trades
      && (forall i :: 0 <= i < |r.train| ==> w.start + 50 <= TrainedAtCandle(w, r.train[i]) < w.trainEnd)
      && if Testable(w) then
           var tested := RunAccount(e, strategy, trained.state, ohlcv[w.trainEnd - 50..w.testEnd]);
           r.test == tested.trades && after == tested.state
         else r.test == [] && after == trained.state
  {
    TrainSliceIs(ohlcv, w);
    RunBooks(e, strategy, state, ohlcv[w.start..w.trainEnd]);
    TestableIff(ohlcv, w);
    if Testable(w) {
      TestSliceIsSegment(ohlcv, w);
    }
  }

  lemma {:induction false} SameSlice<T>(a: seq<T>, b: seq<T>, lo: nat, hi: nat, end: nat)
    requires lo <= hi <= end <= |a| && end <= |b| && a[..end] == b[..end]
    ensures a[lo..hi] == b[lo..hi]
  {
    forall k | 0 <= k < hi - lo ensures a[lo..hi][k] == b[lo..hi][k] {
      assert a[..end][lo + k] == b[..end][lo + k];
    }
  }

  /** Training never sees a test candle: on two series that agree before `trainEnd`, the training
      trades are the same and so is the strategy's state when the test begins. */
  lemma {:induction false} TrainingIsBlind<S>(e: Engine, strategy: Strategy<S>, state: S, a: seq<Candle>, b: seq<Candle>, w: Win)
    requires w.start <= w.trainEnd <= w.testEnd <= |a| && w.testEnd <= |b| && a[..w.trainEnd] == b[..w.trainEnd]
    ensures WindowRun(e, strategy, state, a, w).0.train == WindowRun(e, strategy, state, b, w).0.train
    ensures RunAccount(e, strategy, state, TrainSlice(a, w)).state == RunAccount(e, strategy, state, TrainSlice(b, w)).state
  {
    TrainSliceIs(a, w);
    TrainSliceIs(b, w);
    SameSlice(a, b, w.start, w.trainEnd, w.trainEnd);
  }

  /** Nothing past a window's own segment plays a part in its result. */
  lemma {:induction false} WindowIsCausal<S>(e: Engine, strategy: Strategy<S>, state: S, a: seq<Candle>, b: seq<Candle>, w: Win)
    requires w.start <= w.trainEnd <= w.testEnd <= |a| && w.testEnd <= |b| && a[..w.testEnd] == b[..w.testEnd]
    ensures WindowRun(e, strategy, state, a, w) == WindowRun(e, strategy, state, b, w)
  {
    SameSlice(a, b, w.start, w.trainEnd, w.testEnd);
    if Testable(w) {
      SameSlice(a, b, w.trainEnd - 50, w.testEnd, w.testEnd);
    }
    WindowReplays(e, strategy, state, a, w);
    WindowReplays(e, strategy, state, b, w);
  }

  /** Train and test on one window with one engine and one strategy. */
  method RunWindow<S>(engine: BacktestEngine, strategy: Strategy<S>, state: S, ohlcv: seq<Candle>, w: Win)
    returns (r: WindowResult, after: S)
    ensures (r, after) == WindowRun(engine.settings, strategy, state, ohlcv, w)
    ensures w.start <= w.trainEnd <= |ohlcv| ==>
              r.train == RunAccount(engine.settings, strategy, state, ohlcv[w.start..w.trainEnd]).trades
  {
    var train, capital, curve, trained, worst := engine.Run(strategy, state, TrainSlice(ohlcv, w));
    var test, capital2, curve2, tested, worst2 := engine.Run(strategy, trained, TestSlice(ohlcv, w));
    if w.start <= w.trainEnd <= |ohlcv| {
      TrainSliceIs(ohlcv, w);
    }
    r, after := WindowResult(w, train, test), tested;
  }

  /** The results of the first `n` windows, the strategy's state handed from each replay to the next. */
  function Walk<S>(e: Engine, strategy: Strategy<S>, state: S, ohlcv: seq<Candle>, p: Plan, n: nat)
    : (seq<WindowResult>, S)
  {
    if n == 0 then ([], state)
    else
      var (before, st) := Walk(e, strategy, state, ohlcv, p, n - 1);
      var (r, after) := WindowRun(e, strategy, st, ohlcv, WinAt(p, n - 1));
      (before + [r], after)
  }

  lemma {:induction false} RunHonest<S>(e: Engine, strategy: Strategy<S>, state: S, ohlcv: seq<Candle>, p: Plan, k: nat)
    returns (r: WindowResult)
    requires WinAt(p, k).testEnd <= |ohlcv|
    ensures r == WindowRun(e, strategy, state, ohlcv, WinAt(p, k)).0
    ensures Honest(p, |ohlcv|, k, r)
  {
    r := WindowRun(e, strategy, state, ohlcv, WinAt(p, k)).0;
    var trained := RunAccount(e, strategy, state, TrainSlice(ohlcv, WinAt(p, k)));
    WindowReplays(e, strategy, state, ohlcv, WinAt(p, k));
    TestTradesInSegment(e, strategy, trained.state, ohlcv, WinAt(p, k));
  }

  ghost predicate AllHonest(p: Plan, n: nat, rs: seq<WindowResult>) {
    forall k :: 0 <= k < |rs| ==> Honest(p, n, k, rs[k])
  }

  lemma {:induction false} HonestSnoc(p: Plan, n: nat, rs: seq<WindowResult>, r: WindowResult)
    requires AllHonest(p, n, rs) && Honest(p, n, |rs|, r)
    ensures AllHonest(p, n, rs + [r])
  {
  }

  /** The results of the windows that fit are one per window, each with its trades in its segment. */
  lemma {:induction false} WalkHonest<S>(e: Engine, strategy: Strategy<S>, state: S, ohlcv: seq<Candle>, p: Plan, n: nat)
    returns (rs: seq<WindowResult>)
    requires n > 0 ==> WinAt(p, n - 1).testEnd <= |ohlcv|
    ensures rs == Walk(e, strategy, state, ohlcv, p, n).0 && |rs| == n
    ensures AllHonest(p, |ohlcv|, rs)
  {
    rs := [];
    if n > 0 {
      if n > 1 {
        Grows(n - 2, n - 1, p.testSize);
      }
      rs := WalkHonest(e, strategy, state, ohlcv, p, n - 1);
      var r := RunHonest(e, strategy, Walk(e, strategy, state, ohlcv, p, n - 1).1, ohlcv, p, n - 1);
      HonestSnoc(p, |ohlcv|, rs, r);
      rs := rs + [r];
    }
  }

  /** A walk never looks ahead: on two series that agree up to the end of its last segment, every
      result of the walk is the same, and so is the state the strategy is left in. */
  lemma {:induction false} WalkIsCausal<S>(e: Engine, strategy: Strategy<S>, state: S, a: seq<Candle>, b: seq<Candle>,
                                           p: Plan, n: nat)
    requires n > 0 ==> WinAt(p, n - 1).testEnd <= |a| && WinAt(p, n - 1).testEnd <= |b|
    requires n > 0 ==> a[..WinAt(p, n - 1).testEnd] == b[..WinAt(p, n - 1).testEnd]
    ensures Walk(e, strategy, state, a, p, n) == Walk(e, strategy, state, b, p, n)
  {
    if n > 0 {
      var w := WinAt(p, n - 1);
      if n > 1 {
        Grows(n - 2, n - 1, p.testSize);
        var end := WinAt(p, n - 2).testEnd;
        SameSlice(a, b, 0, end, w.testEnd);
        assert a[..end] == a[0..end] && b[..end] == b[0..end];
      }
      WalkIsCausal(e, strategy, state, a, b, p, n - 1);
      WindowIsCausal(e, strategy, Walk(e, strategy, state, a, p, n - 1).1, a, b, w);
    }
  }

  /** The first `n` windows gave `rs` and left the strategy in `st`. */
  ghost predicate Walked<S>(e: Engine, strategy: Strategy<S>, state: S, ohlcv: seq<Candle>, p: Plan, n: nat,
                            rs: seq<WindowResult>, st: S)
  {
    Walk(e, strategy, state, ohlcv, p, n) == (rs, st) && |rs| == n
  }

  /** The walk hands the strategy's state on: it begins with no result and the state it is given, and
      one window more runs from the state the ones before it left and adds its result to theirs. */
  lemma {:induction false} WalkHandsOver<S>(e: Engine, strategy: Strategy<S>, state: S, ohlcv: seq<Candle>, p: Plan, n: nat,
                                            rs: seq<WindowResult>, st: S) returns (r: WindowResult, after: S)
    requires Walked(e, strategy, state, ohlcv, p, n, rs, st)
    ensures n == 0 ==> rs == [] && st == state
    ensures (r, after) == WindowRun(e, strategy, st, ohlcv, WinAt(p, n))
    ensures Walked(e, strategy, state, ohlcv, p, n + 1, rs + [r], after)
  {
    var run := WindowRun(e, strategy, st, ohlcv, WinAt(p, n));
    r, after := run.0, run.1;
  }

  /** The replays of all windows, one after the other. */
  method RunWindows<S>(e: Engine, strategy: Strategy<S>, state: S, ohlcv: seq<Candle>, p: Plan, ws: seq<Win>)
    returns (results: seq<WindowResult>)
    requires forall k :: 0 <= k < |ws| ==> ws[k] == WinAt(p, k) && ws[k].testEnd <= |ohlcv|
    ensures results == Walk(e, strategy, state, ohlcv, p, |ws|).0 && |results| == |ws|
    ensures forall k :: 0 <= k < |ws| ==> Honest(p, |ohlcv|, k, results[k])
  {
    var engine := new BacktestEngine(e);
    var st := state;
    results := [];
    for k := 0 to |ws|
      invariant (results, st) == Walk(e, strategy, state, ohlcv, p, k)
    {
      var r;
      r, st := RunWindow(engine, strategy, st, ohlcv, ws[k]);
      results := results + [r];
    }
    if ws != [] {
      assert ws[|ws| - 1] == WinAt(p, |ws| - 1);
    }
    ghost var rs := WalkHonest(e, strategy, state, ohlcv, p, |ws|);
  }

  /** The validation loop. It refuses exactly when fewer than the minimum number of windows fit. */
  method Validate<S>(e: Engine, strategy: Strategy<S>, state: S, ohlcv: seq<Candle>, p: Plan)
    returns (results: Option<seq<WindowResult>>)
    requires p.testSize > 0
    ensures results.None? <==> p.minWindows > 0 && WinAt(p, p.minWindows - 1).testEnd > |ohlcv|
    ensures results.Some? ==> WinAt(p, |results.value|).testEnd > |ohlcv|
    ensures results.Some? ==> results.value == Walk(e, strategy, state, ohlcv, p, |results.value|).0
    ensures results.Some? ==> forall k :: 0 <= k < |results.value| ==> Honest(p, |ohlcv|, k, results.value[k])
  {
    var ws := Windows(|ohlcv|, p);
    if |ws| < p.minWindows {
      Grows(|ws|, p.minWindows - 1, p.testSize);
      return None;
    }
    if p.minWindows > 0 {
      assert ws[p.minWindows - 1] == WinAt(p, p.minWindows - 1);
    }
    var rs := RunWindows(e, strategy, state, ohlcv, p, ws);
    return Some(rs);
  }
}
