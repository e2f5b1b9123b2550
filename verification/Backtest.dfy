/** The backtest engine: candle replay, exits, capital, and the absence of look-ahead. */
module Backtest {
  import opened Lists
  import Drawdown

  const WARMUP_CANDLES: nat := 50
  const WINDOW: nat := 199

  datatype Candle = Candle(open: real, high: real, low: real, close: real, volume: real)

  datatype Action = Buy | Sell

  /** A `hold`, an unknown action and a strategy exception all leave the action empty. */
  datatype Signal = Signal(action: Option<Action>, sizePct: real, stopLoss: Option<real>, takeProfit: Option<real>)

  /** A deterministic strategy may carry state; it sees the candle window and the close. */
  type Strategy<!S> = (S, seq<Candle>, real) -> (S, Signal)

  datatype Reason = StopLoss | TakeProfit | EndOfData

  datatype Open = Open(index: nat, action: Action, entry: real, sizePct: real,
                       stopLoss: Option<real>, takeProfit: Option<real>)

  datatype Trade = Trade(index: nat, action: Action, entry: real, exit: real, sizePct: real,
                         pnl: real, pnlPct: real, stopLoss: Option<real>, takeProfit: Option<real>, reason: Reason)

  datatype Engine = Engine(initialCapital: real, commissionPct: real, slippagePct: real)

  datatype Account<S> = Account(capital: real, trades: seq<Trade>, open: Option<Open>, curve: seq<real>, state: S)

  function OpenTrade(e: Engine, index: nat, action: Action, close: real, sig: Signal): Open {
    Open(index, action, close * (if action == Buy then 1.0 + e.slippagePct else 1.0 - e.slippagePct),
         sig.sizePct, sig.stopLoss, sig.takeProfit)
  }

  function CheckExits(o: Open, high: real, low: real): Option<(real, Reason)> {
    if o.action == Buy then
      if o.stopLoss.Some? && low <= o.stopLoss.value then Some((o.stopLoss.value, StopLoss))
      else if o.takeProfit.Some? && high >= o.takeProfit.value then Some((o.takeProfit.value, TakeProfit))
      else None
    else
      if o.stopLoss.Some? && high >= o.stopLoss.value then Some((o.stopLoss.value, StopLoss))
      else if o.takeProfit.Some? && low <= o.takeProfit.value then Some((o.takeProfit.value, TakeProfit))
      else None
  }

  function Ratio(a: real, b: real): real { if b != 0.0 then a / b else 0.0 }

  function CloseTrade(e: Engine, o: Open, exitPrice: real, reason: Reason, capital: real): Trade {
    var slipped := exitPrice * (if o.action == Buy then 1.0 - e.slippagePct else 1.0 + e.slippagePct);
    var raw := Ratio(if o.action == Buy then slipped - o.entry else o.entry - slipped, o.entry);
    var net := raw - e.commissionPct * 2.0;
    Trade(o.index, o.action, o.entry, slipped, o.sizePct, capital * o.sizePct / 100.0 * net, net,
          o.stopLoss, o.takeProfit, reason)
  }

  function Book<S>(acc: Account<S>, t: Trade): Account<S> {
    acc.(capital := acc.capital + t.pnl, trades := acc.trades + [t], curve := acc.curve + [acc.capital + t.pnl],
         open := None)
  }

  function AfterExit<S>(e: Engine, acc: Account<S>, c: Candle): Account<S> {
    if acc.open.None? then acc
    else
      var hit := CheckExits(acc.open.value, c.high, c.low);
      if hit.None? then acc
      else Book(acc, CloseTrade(e, acc.open.value, hit.value.0, hit.value.1, acc.capital))
  }

  function Window(ohlcv: seq<Candle>, i: nat): seq<Candle>
    requires i < |ohlcv|
  {
    ohlcv[if i < WINDOW then 0 else i - WINDOW..i + 1]
  }

  function AfterSignal<S>(e: Engine, strategy: Strategy<S>, acc: Account<S>, ohlcv: seq<Candle>, i: nat): Account<S>
    requires i < |ohlcv|
  {
    if acc.open.Some? then acc
    else
      var (state, sig) := strategy(acc.state, Window(ohlcv, i), ohlcv[i].close);
      if sig.action.None? then acc.(state := state)
      else acc.(state := state,
                open := Some(OpenTrade(e, i, sig.action.value, ohlcv[i].close, sig)))
  }

  function StepCandle<S>(e: Engine, strategy: Strategy<S>, acc: Account<S>, ohlcv: seq<Candle>, i: nat): Account<S>
    requires i < |ohlcv|
  {
    AfterSignal(e, strategy, AfterExit(e, acc, ohlcv[i]), ohlcv, i)
  }

  function Fresh<S>(e: Engine, state: S): Account<S> {
    Account(e.initialCapital, [], None, [e.initialCapital], state)
  }

  /** The account after the candles before `n` were replayed. */
  function Replay<S>(e: Engine, strategy: Strategy<S>, state: S, ohlcv: seq<Candle>, n: nat): Account<S>
    requires n <= |ohlcv|
  {
    if n <= WARMUP_CANDLES then Fresh(e, state)
    else StepCandle(e, strategy, Replay(e, strategy, state, ohlcv, n - 1), ohlcv, n - 1)
  }

  /** The forced close at the last price: it moves the capital but adds no point to the curve. */
  function Finish<S>(e: Engine, acc: Account<S>, lastClose: real): Account<S> {
    if acc.open.None? then acc
    else
      var t := CloseTrade(e, acc.open.value, lastClose, EndOfData, acc.capital);
      acc.(capital := acc.capital + t.pnl, trades := acc.trades + [t])
  }

  function Enough(ohlcv: seq<Candle>): bool { |ohlcv| >= WARMUP_CANDLES + 10 }

  function RunAccount<S>(e: Engine, strategy: Strategy<S>, state: S, ohlcv: seq<Candle>): Account<S> {
    if !Enough(ohlcv) then Fresh(e, state)
    else Finish(e, Replay(e, strategy, state, ohlcv, |ohlcv|), ohlcv[|ohlcv| - 1].close)
  }

  // ---------------------------------------------------------------- properties

  lemma {:induction false} WindowPrefix(ohlcv: seq<Candle>, m: nat, i: nat)
    requires i < m <= |ohlcv|
    ensures Window(ohlcv[..m], i) == Window(ohlcv, i) && ohlcv[..m][i] == ohlcv[i]
  {
  }

  /** Replaying a prefix is replaying the full series up to there. */
  lemma {:induction false} ReplayPrefix<S>(e: Engine, strategy: Strategy<S>, state: S, ohlcv: seq<Candle>, m: nat, n: nat)
    requires n <= m <= |ohlcv|
    ensures Replay(e, strategy, state, ohlcv[..m], n) == Replay(e, strategy, state, ohlcv, n)
    decreases n
  {
    if n > WARMUP_CANDLES {
      ReplayPrefix(e, strategy, state, ohlcv, m, n - 1);
      WindowPrefix(ohlcv, m, n - 1);
    }
  }

  /** Later candles only append trades. */
  lemma {:induction false} TradesGrow<S>(e: Engine, strategy: Strategy<S>, state: S, ohlcv: seq<Candle>, m: nat, n: nat)
    requires m <= n <= |ohlcv|
    ensures Replay(e, strategy, state, ohlcv, m).trades <= Replay(e, strategy, state, ohlcv, n).trades
    decreases n
  {
    if m < n && n > WARMUP_CANDLES {
      TradesGrow(e, strategy, state, ohlcv, m, n - 1);
    }
  }

  ghost predicate NoForcedClose(trades: seq<Trade>) {
    forall i :: 0 <= i < |trades| ==> trades[i].reason != EndOfData
  }

  lemma {:induction false} ReplayNotForced<S>(e: Engine, strategy: Strategy<S>, state: S, ohlcv: seq<Candle>, n: nat)
    requires n <= |ohlcv|
    ensures NoForcedClose(Replay(e, strategy, state, ohlcv, n).trades)
  {
    if n > WARMUP_CANDLES {
      ReplayNotForced(e, strategy, state, ohlcv, n - 1);
    }
  }

  /** A run's trades without the forced close at the end of its data. */
  function Settled(trades: seq<Trade>): seq<Trade> {
    if trades != [] && trades[|trades| - 1].reason == EndOfData then trades[..|trades| - 1] else trades
  }

  lemma {:induction false} SettledRun<S>(e: Engine, strategy: Strategy<S>, state: S, ohlcv: seq<Candle>)
    requires Enough(ohlcv)
    ensures Settled(RunAccount(e, strategy, state, ohlcv).trades)
         == Replay(e, strategy, state, ohlcv, |ohlcv|).trades
  {
    var acc := Replay(e, strategy, state, ohlcv, |ohlcv|);
    ReplayNotForced(e, strategy, state, ohlcv, |ohlcv|);
    var ts := RunAccount(e, strategy, state, ohlcv).trades;
    if acc.open.Some? {
      assert ts[..|ts| - 1] == acc.trades;
    }
  }

  /** No look-ahead: for any deterministic strategy, whatever candles come after the first `m`,
      the trades settled on those `m` candles are the first trades of the full run. */
  lemma {:induction false} NoLookAhead<S>(e: Engine, strategy: Strategy<S>, state: S, ohlcv: seq<Candle>, m: nat)
    requires WARMUP_CANDLES + 10 <= m <= |ohlcv|
    ensures Settled(RunAccount(e, strategy, state, ohlcv[..m]).trades)
         <= Settled(RunAccount(e, strategy, state, ohlcv).trades)
         <= RunAccount(e, strategy, state, ohlcv).trades
  {
    SettledRun(e, strategy, state, ohlcv[..m]);
    SettledRun(e, strategy, state, ohlcv);
    ReplayPrefix(e, strategy, state, ohlcv, m, m);
    TradesGrow(e, strategy, state, ohlcv, m, |ohlcv|);
  }

  function PnlOf(t: Trade): real { t.pnl }

  function Pnls(trades: seq<Trade>): (r: seq<real>)
    ensures |r| == |trades|
  {
    if trades == [] then [] else Pnls(trades[..|trades| - 1]) + [trades[|trades| - 1].pnl]
  }

  /** Entry indices increase, all past the warm-up and below `n`. */
  ghost predicate Opened(trades: seq<Trade>, n: int) {
    trades == [] ||
    (var last := trades[|trades| - 1];
     WARMUP_CANDLES <= last.index < n && Opened(trades[..|trades| - 1], last.index))
  }

  lemma {:induction false} OpenedIndices(trades: seq<Trade>, n: int)
    requires Opened(trades, n)
    ensures forall i :: 0 <= i < |trades| ==> WARMUP_CANDLES <= trades[i].index < n
    ensures forall i, j :: 0 <= i < j < |trades| ==> trades[i].index < trades[j].index
  {
    if trades != [] {
      var before := trades[..|trades| - 1];
      OpenedIndices(before, trades[|trades| - 1].index);
      assert forall i :: 0 <= i < |before| ==> before[i] == trades[i];
    }
  }

  /** Trades come in the order they were opened, past the warm-up, and before the open one. */
  ghost predicate InOrder<S>(acc: Account<S>, n: nat) {
    if acc.open.Some? then WARMUP_CANDLES <= acc.open.value.index < n && Opened(acc.trades, acc.open.value.index)
    else Opened(acc.trades, n)
  }

  ghost predicate Balanced<S>(e: Engine, acc: Account<S>) {
    && acc.capital == e.initialCapital + SumBy(acc.trades, PnlOf)
    && acc.curve == Drawdown.Curve(e.initialCapital, Pnls(acc.trades))
    && acc.curve[|acc.trades|] == acc.capital
  }

  lemma {:induction false} BookBalanced<S>(e: Engine, acc: Account<S>, t: Trade)
    requires Balanced(e, acc)
    ensures Balanced(e, Book(acc, t))
  {
    SumBySnoc(acc.trades, t, PnlOf);
    assert (acc.trades + [t])[..|acc.trades|] == acc.trades;
    var ps := Pnls(acc.trades + [t]);
    assert ps[..|acc.trades|] == Pnls(acc.trades);
  }

  lemma {:induction false} BookInOrder<S>(acc: Account<S>, t: Trade, n: nat)
    requires acc.open.Some? && InOrder(acc, n) && t.index == acc.open.value.index
    ensures InOrder(Book(acc, t), n) && Opened(acc.trades + [t], n)
  {
  }

  lemma {:induction false} ExitKeeps<S>(e: Engine, acc: Account<S>, c: Candle, n: nat)
    requires Balanced(e, acc) && InOrder(acc, n)
    ensures Balanced(e, AfterExit(e, acc, c)) && InOrder(AfterExit(e, acc, c), n)
  {
    if acc.open.Some? {
      var hit := CheckExits(acc.open.value, c.high, c.low);
      if hit.Some? {
        var t := CloseTrade(e, acc.open.value, hit.value.0, hit.value.1, acc.capital);
        BookBalanced(e, acc, t);
        BookInOrder(acc, t, n);
      }
    }
  }

  lemma {:induction false} SignalKeeps<S>(e: Engine, strategy: Strategy<S>, acc: Account<S>, ohlcv: seq<Candle>, i: nat)
    requires WARMUP_CANDLES <= i < |ohlcv| && Balanced(e, acc) && InOrder(acc, i)
    ensures Balanced(e, AfterSignal(e, strategy, acc, ohlcv, i))
    ensures InOrder(AfterSignal(e, strategy, acc, ohlcv, i), i + 1)
  {
  }

  ghost predicate Sane<S>(e: Engine, acc: Account<S>, n: nat) { Balanced(e, acc) && InOrder(acc, n) }

  lemma {:induction false} StepKeeps<S>(e: Engine, strategy: Strategy<S>, acc: Account<S>, ohlcv: seq<Candle>, i: nat)
    requires WARMUP_CANDLES <= i < |ohlcv| && Sane(e, acc, i)
    ensures Sane(e, StepCandle(e, strategy, acc, ohlcv, i), i + 1)
  {
    ExitKeeps(e, acc, ohlcv[i], i);
    SignalKeeps(e, strategy, AfterExit(e, acc, ohlcv[i]), ohlcv, i);
  }

  lemma {:induction false} StepSane<S>(e: Engine, strategy: Strategy<S>, acc: Account<S>, ohlcv: seq<Candle>, i: nat)
    returns (next: Account<S>)
    requires WARMUP_CANDLES <= i < |ohlcv| && Sane(e, acc, i)
    ensures next == StepCandle(e, strategy, acc, ohlcv, i)
    ensures Sane(e, next, i + 1)
  {
    next := StepCandle(e, strategy, acc, ohlcv, i);
    StepKeeps(e, strategy, acc, ohlcv, i);
  }

  lemma {:induction false} FreshSane<S>(e: Engine, state: S, n: nat)
    ensures Sane(e, Fresh(e, state), n)
  {
  }

  /** `acc` is the account replayed up to `n`. */
  ghost predicate Reached<S>(e: Engine, strategy: Strategy<S>, state: S, ohlcv: seq<Candle>, n: nat, acc: Account<S>)
    requires n <= |ohlcv|
  {
    acc == Replay(e, strategy, state, ohlcv, n)
  }

  lemma {:induction false} ReachedStep<S>(e: Engine, strategy: Strategy<S>, state: S, ohlcv: seq<Candle>, n: nat,
                                          before: Account<S>) returns (acc: Account<S>)
    requires WARMUP_CANDLES < n <= |ohlcv| && Reached(e, strategy, state, ohlcv, n - 1, before)
    requires Sane(e, before, n - 1)
    ensures Reached(e, strategy, state, ohlcv, n, acc)
    ensures Sane(e, acc, n)
  {
    acc := StepSane(e, strategy, before, ohlcv, n - 1);
  }

  lemma {:induction false} ReplayBooks<S>(e: Engine, strategy: Strategy<S>, state: S, ohlcv: seq<Candle>, n: nat)
    returns (acc: Account<S>)
    requires n <= |ohlcv|
    ensures Reached(e, strategy, state, ohlcv, n, acc)
    ensures Sane(e, acc, n)
  {
    if n <= WARMUP_CANDLES {
      acc := Fresh(e, state);
      FreshSane(e, state, n);
    } else {
      var before := ReplayBooks(e, strategy, state, ohlcv, n - 1);
      acc := ReachedStep(e, strategy, state, ohlcv, n, before);
    }
  }

  lemma {:induction false} FinishBooks<S>(e: Engine, acc: Account<S>, lastClose: real, n: nat)
    requires Sane(e, acc, n)
    ensures var acc2 := Finish(e, acc, lastClose);
      && acc2.capital == e.initialCapital + SumBy(acc2.trades, PnlOf) && acc2.curve == acc.curve
      && Opened(acc2.trades, n)
  {
    if acc.open.Some? {
      var t := CloseTrade(e, acc.open.value, lastClose, EndOfData, acc.capital);
      SumBySnoc(acc.trades, t, PnlOf);
      BookInOrder(acc, t, n);
    }
  }

  /** Entry indices strictly increase, all past the warm-up, and the final capital is the
      initial capital plus every trade's result, the forced close included. The equity curve,
      and so the reported drawdown, leaves that forced close out. */
  lemma {:induction false} RunBooks<S>(e: Engine, strategy: Strategy<S>, state: S, ohlcv: seq<Candle>)
    ensures var acc := RunAccount(e, strategy, state, ohlcv);
      && acc.capital == e.initialCapital + SumBy(acc.trades, PnlOf)
      && (forall i :: 0 <= i < |acc.trades| ==> WARMUP_CANDLES <= acc.trades[i].index < |ohlcv|)
      && (forall i, j :: 0 <= i < j < |acc.trades| ==> acc.trades[i].index < acc.trades[j].index)
      && acc.curve == Drawdown.Curve(e.initialCapital, Pnls(Settled(acc.trades)))
  {
    if Enough(ohlcv) {
      var acc := ReplayBooks(e, strategy, state, ohlcv, |ohlcv|);
      SettledRun(e, strategy, state, ohlcv);
      FinishBooks(e, acc, ohlcv[|ohlcv| - 1].close, |ohlcv|);
      OpenedIndices(RunAccount(e, strategy, state, ohlcv).trades, |ohlcv|);
    }
  }

  // ----------------------------------------------------------- the forced close

  /** The drawdown with every result on the curve, the forced close included. */
  function FullDrawdown(e: Engine, trades: seq<Trade>): real {
    Drawdown.OnePass(Drawdown.Curve(e.initialCapital, Pnls(trades)))
  }

  /** The forced close is on the full curve and not on the reported one, at the final capital. */
  lemma {:induction false} FullCurve<S>(e: Engine, strategy: Strategy<S>, state: S, ohlcv: seq<Candle>)
    ensures var acc := RunAccount(e, strategy, state, ohlcv);
      acc.curve != [] && Drawdown.Curve(e.initialCapital, Pnls(acc.trades))
      == if Settled(acc.trades) == acc.trades then acc.curve else acc.curve + [acc.capital]
  {
    if Enough(ohlcv) {
      var acc := ReplayBooks(e, strategy, state, ohlcv, |ohlcv|);
      SettledRun(e, strategy, state, ohlcv);
      ForcedCurve(e, acc, ohlcv[|ohlcv| - 1].close);
    }
  }

  lemma {:induction false} ForcedCurve<S>(e: Engine, acc: Account<S>, lastClose: real)
    requires Balanced(e, acc)
    ensures var acc2 := Finish(e, acc, lastClose);
      acc2.curve == acc.curve && Drawdown.Curve(e.initialCapital, Pnls(acc2.trades))
      == if acc2.trades == acc.trades then acc.curve else acc.curve + [acc2.capital]
  {
    if acc.open.Some? {
      var t := CloseTrade(e, acc.open.value, lastClose, EndOfData, acc.capital);
      BookBalanced(e, acc, t);
    }
  }

  /** Exactly when the reported drawdown is the one the trades really had: the run ends without a
      forced close, or that close leaves the capital no deeper below the highest point of the
      reported curve than the drawdown already reported. */
  lemma {:induction false} ForcedCloseMissedIff<S>(e: Engine, strategy: Strategy<S>, state: S, ohlcv: seq<Candle>)
    ensures var acc := RunAccount(e, strategy, state, ohlcv);
      acc.curve != [] &&
      var peak := Drawdown.Highest(acc.curve);
      (Drawdown.OnePass(acc.curve) == FullDrawdown(e, acc.trades)
       <==> (|| Settled(acc.trades) == acc.trades || peak <= 0.0
             || Drawdown.Drop(peak, acc.capital) >= Drawdown.OnePass(acc.curve)))
  {
    var acc := RunAccount(e, strategy, state, ohlcv);
    FullCurve(e, strategy, state, ohlcv);
    Drawdown.LastPointOmitted(acc.curve, acc.capital);
  }

  const PLAIN := Engine(100.0, 0.0, 0.0)
  const HELD := Open(50, Buy, 1.0, 100.0, None, None)

  /** Buys all-in, with neither stop nor target. */
  function AlwaysBuy(): Strategy<bool> {
    (s: bool, window: seq<Candle>, close: real) => (s, Signal(Some(Buy), 100.0, None, None))
  }

  /** Sixty candles at 1, the last of which closes at one half. */
  function Collapse(): (r: seq<Candle>)
    ensures |r| == 60
  {
    seq(60, i => Candle(1.0, 1.0, 1.0, if i < 59 then 1.0 else 0.5, 1.0))
  }

  lemma {:induction false} HeldThrough(n: nat)
    requires WARMUP_CANDLES < n <= 60
    ensures Replay(PLAIN, AlwaysBuy(), true, Collapse(), n) == Account(100.0, [], Some(HELD), [100.0], true)
  {
    if n == WARMUP_CANDLES + 1 {
      assert Replay(PLAIN, AlwaysBuy(), true, Collapse(), n - 1) == Fresh(PLAIN, true);
    } else {
      HeldThrough(n - 1);
    }
  }

  /** A run that loses half its capital on the forced close and reports no drawdown at all. */
  lemma {:induction false} ForcedCloseHidden()
    ensures var acc := RunAccount(PLAIN, AlwaysBuy(), true, Collapse());
      && acc.capital == 50.0 && Drawdown.OnePass(acc.curve) == 0.0 && FullDrawdown(PLAIN, acc.trades) == -0.5
  {
    HeldThrough(60);
    var acc := RunAccount(PLAIN, AlwaysBuy(), true, Collapse());
    FullCurve(PLAIN, AlwaysBuy(), true, Collapse());
    assert acc.curve == [100.0] && |acc.trades| == 1 && acc.capital == 50.0;
    assert Drawdown.Pass([100.0]) == Drawdown.Track(100.0, 0.0);
    Drawdown.LastPointOmitted([100.0], 50.0);
  }

  // ------------------------------------------------------------------ the loop

  class BacktestEngine {
    const settings: Engine

    constructor (settings: Engine)
      ensures this.settings == settings
    {
      this.settings := settings;
    }

    /** Replays the candles; `worst` is the drawdown reported for the run. */
    method Run<S>(strategy: Strategy<S>, state: S, ohlcv: seq<Candle>)
      returns (trades: seq<Trade>, capital: real, curve: seq<real>, after: S, worst: real)
      ensures var acc := RunAccount(settings, strategy, state, ohlcv);
        trades == acc.trades && capital == acc.capital && curve == acc.curve && after == acc.state
      ensures worst == Drawdown.OnePass(curve)
    {
      capital, trades, after := settings.initialCapital, [], state;
      curve := [capital];
      if |ohlcv| < WARMUP_CANDLES + 10 {
        worst := Drawdown.EngineMaxDrawdown(curve);
        return;
      }
      var open: Option<Open> := None;
      for i := WARMUP_CANDLES to |ohlcv|
        invariant Account(capital, trades, open, curve, after) == Replay(settings, strategy, state, ohlcv, i)
      {
        var candle := ohlcv[i];
        if open.Some? {
          var hit := CheckExits(open.value, candle.high, candle.low);
          if hit.Some? {
            var t := CloseTrade(settings, open.value, hit.value.0, hit.value.1, capital);
            capital := capital + t.pnl;
            trades := trades + [t];
            curve := curve + [capital];
            open := None;
          }
        }
        if open.None? {
          var (next, sig) := strategy(after, Window(ohlcv, i), candle.close);
          after := next;
          if sig.action.Some? {
            open := Some(OpenTrade(settings, i, sig.action.value, candle.close, sig));
          }
        }
      }
      if open.Some? {
        var t := CloseTrade(settings, open.value, ohlcv[|ohlcv| - 1].close, EndOfData, capital);
        capital := capital + t.pnl;
        trades := trades + [t];
      }
      worst := Drawdown.EngineMaxDrawdown(curve);
    }
  }
}
