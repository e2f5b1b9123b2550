/** The life of every trade of a backtest: the signal it came from, the prices it was entered and
    left at, the candle that closed it, and what it did to the capital. */
module BacktestTrades {
  import opened Lists
  import opened Backtest

  // ---------------------------------------------------------------- one trade

  /** What a trade was opened as. */
  function AsOpen(t: Trade): Open { Open(t.index, t.action, t.entry, t.sizePct, t.stopLoss, t.takeProfit) }

  predicate AtStop(o: Open, c: Candle) {
    o.stopLoss.Some? && if o.action == Buy then c.low <= o.stopLoss.value else c.high >= o.stopLoss.value
  }

  predicate AtTarget(o: Open, c: Candle) {
    o.takeProfit.Some? && if o.action == Buy then c.high >= o.takeProfit.value else c.low <= o.takeProfit.value
  }

  /** The price a trade gets when it leaves at `price`: slippage is against it on either side. */
  function Left(e: Engine, action: Action, price: real): real {
    if action == Buy then price * (1.0 - e.slippagePct) else price * (1.0 + e.slippagePct)
  }

  function Entered(e: Engine, action: Action, price: real): real {
    if action == Buy then price * (1.0 + e.slippagePct) else price * (1.0 - e.slippagePct)
  }

  /** The answer of the strategy at candle `i`, from the state the candles before it left it in; it
      is shown that candle and at most the 199 before it. */
  function Asked<S>(e: Engine, strategy: Strategy<S>, state: S, ohlcv: seq<Candle>, i: nat): (S, Signal)
    requires i < |ohlcv|
  {
    strategy(Replay(e, strategy, state, ohlcv, i).state, ohlcv[if i < 199 then 0 else i - 199..i + 1], ohlcv[i].close)
  }

  /** `o` was opened by the signal at its candle, with its size, its stop and its target. */
  ghost predicate FromSignal<S>(e: Engine, strategy: Strategy<S>, state: S, ohlcv: seq<Candle>, o: Open) {
    && 50 <= o.index < |ohlcv|
    && Asked(e, strategy, state, ohlcv, o.index).1 == Signal(Some(o.action), o.sizePct, o.stopLoss, o.takeProfit)
    && o.entry == Entered(e, o.action, ohlcv[o.index].close)
  }

  /** No candle after the entry and before `n` reaches a level of `o`. */
  ghost predicate Quiet(o: Open, ohlcv: seq<Candle>, n: nat) {
    n <= |ohlcv| && forall k :: o.index < k < n ==> !AtStop(o, ohlcv[k]) && !AtTarget(o, ohlcv[k])
  }

  /** Candle `j` is the first to reach a level, and the trade leaves there, at the stop if it
      reaches both. */
  ghost predicate LeavesAt(e: Engine, ohlcv: seq<Candle>, t: Trade, j: int) {
    var o := AsOpen(t);
    && t.index < j < |ohlcv| && Quiet(o, ohlcv, j)
    && if AtStop(o, ohlcv[j]) then t.reason == StopLoss && t.exit == Left(e, t.action, o.stopLoss.value)
       else AtTarget(o, ohlcv[j]) && t.reason == TakeProfit && t.exit == Left(e, t.action, o.takeProfit.value)
  }

  /** No candle reaches a level and the trade leaves at the last close. */
  ghost predicate LeavesLast(e: Engine, ohlcv: seq<Candle>, t: Trade) {
    && ohlcv != [] && Quiet(AsOpen(t), ohlcv, |ohlcv|)
    && t.reason == EndOfData && t.exit == Left(e, t.action, ohlcv[|ohlcv| - 1].close)
  }

  /** The return of a trade: the move its own way relative to the entry, less two commissions. */
  ghost predicate Returns(e: Engine, t: Trade) {
    t.entry != 0.0 ==>
      t.pnlPct * t.entry == (if t.action == Buy then t.exit - t.entry else t.entry - t.exit) - 2.0 * e.commissionPct * t.entry
  }

  lemma {:induction false} ClosedReturns(e: Engine, o: Open, exitPrice: real, reason: Reason, capital: real)
    ensures var t := CloseTrade(e, o, exitPrice, reason, capital);
      && AsOpen(t) == o && t.reason == reason && t.exit == Left(e, o.action, exitPrice) && Returns(e, t)
      && t.pnl == capital * (t.sizePct / 100.0) * t.pnlPct
  {
    var t := CloseTrade(e, o, exitPrice, reason, capital);
    if o.entry != 0.0 {
      var move := if o.action == Buy then t.exit - o.entry else o.entry - t.exit;
      assert move / o.entry * o.entry == move;
      assert t.pnlPct == move / o.entry - 2.0 * e.commissionPct;
    }
  }

  lemma {:induction false} ExitsIs(o: Open, c: Candle)
    ensures CheckExits(o, c.high, c.low)
         == if AtStop(o, c) then Some((o.stopLoss.value, StopLoss))
            else if AtTarget(o, c) then Some((o.takeProfit.value, TakeProfit)) else None
  {
  }

  // ------------------------------------------------------------------- a run

  /** Every settled trade came from its signal and left at its candle, before `n`; an open one came
      from its signal and has not met a level yet. */
  ghost predicate Lived<S>(e: Engine, strategy: Strategy<S>, state: S, ohlcv: seq<Candle>, n: nat, t: Trade) {
    && FromSignal(e, strategy, state, ohlcv, AsOpen(t)) && Returns(e, t)
    && exists j :: j < n && LeavesAt(e, ohlcv, t, j)
  }

  ghost predicate Living<S>(e: Engine, strategy: Strategy<S>, state: S, ohlcv: seq<Candle>, n: nat, o: Open) {
    FromSignal(e, strategy, state, ohlcv, o) && o.index < n && Quiet(o, ohlcv, n)
  }

  ghost predicate Explained<S>(e: Engine, strategy: Strategy<S>, state: S, ohlcv: seq<Candle>, n: nat, acc: Account<S>) {
    && (forall i :: 0 <= i < |acc.trades| ==> Lived(e, strategy, state, ohlcv, n, acc.trades[i]))
    && (acc.open.Some? ==> Living(e, strategy, state, ohlcv, n, acc.open.value))
  }

  lemma {:induction false} LivedLater<S>(e: Engine, strategy: Strategy<S>, state: S, ohlcv: seq<Candle>, n: nat, t: Trade)
    requires Lived(e, strategy, state, ohlcv, n, t)
    ensures Lived(e, strategy, state, ohlcv, n + 1, t)
  {
  }

  lemma {:induction false} ExitLives<S>(e: Engine, strategy: Strategy<S>, state: S, ohlcv: seq<Candle>, n: nat, o: Open,
                                        capital: real)
    requires n < |ohlcv| && Living(e, strategy, state, ohlcv, n, o)
    ensures var hit := CheckExits(o, ohlcv[n].high, ohlcv[n].low);
      if hit.None? then Living(e, strategy, state, ohlcv, n + 1, o)
      else Lived(e, strategy, state, ohlcv, n + 1, CloseTrade(e, o, hit.value.0, hit.value.1, capital))
  {
    ExitsIs(o, ohlcv[n]);
    var hit := CheckExits(o, ohlcv[n].high, ohlcv[n].low);
    if hit.Some? {
      ClosedReturns(e, o, hit.value.0, hit.value.1, capital);
      assert LeavesAt(e, ohlcv, CloseTrade(e, o, hit.value.0, hit.value.1, capital), n);
    }
  }

  lemma {:induction false} ExitExplained<S>(e: Engine, strategy: Strategy<S>, state: S, ohlcv: seq<Candle>, n: nat, acc: Account<S>)
    requires n < |ohlcv| && Explained(e, strategy, state, ohlcv, n, acc)
    ensures Explained(e, strategy, state, ohlcv, n + 1, AfterExit(e, acc, ohlcv[n]))
  {
    forall i | 0 <= i < |acc.trades| ensures Lived(e, strategy, state, ohlcv, n + 1, acc.trades[i]) {
      LivedLater(e, strategy, state, ohlcv, n, acc.trades[i]);
    }
    if acc.open.Some? {
      ExitLives(e, strategy, state, ohlcv, n, acc.open.value, acc.capital);
    }
  }

  lemma {:induction false} SignalExplained<S>(e: Engine, strategy: Strategy<S>, state: S, ohlcv: seq<Candle>, n: nat, acc: Account<S>)
    requires 50 <= n < |ohlcv| && Explained(e, strategy, state, ohlcv, n + 1, acc)
    requires acc.state == Replay(e, strategy, state, ohlcv, n).state
    ensures Explained(e, strategy, state, ohlcv, n + 1, AfterSignal(e, strategy, acc, ohlcv, n))
  {
    var sig := Asked(e, strategy, state, ohlcv, n).1;
    if acc.open.None? && sig.action.Some? {
      OpenedLives(e, strategy, state, ohlcv, n, OpenTrade(e, n, sig.action.value, ohlcv[n].close, sig));
    }
  }

  lemma {:induction false} OpenedLives<S>(e: Engine, strategy: Strategy<S>, state: S, ohlcv: seq<Candle>, n: nat, o: Open)
    requires 50 <= n < |ohlcv| && Asked(e, strategy, state, ohlcv, n).1.action.Some?
    requires var sig := Asked(e, strategy, state, ohlcv, n).1;
      o == OpenTrade(e, n, sig.action.value, ohlcv[n].close, sig)
    ensures Living(e, strategy, state, ohlcv, n + 1, o)
  {
  }

  lemma {:induction false} ReplayExplained<S>(e: Engine, strategy: Strategy<S>, state: S, ohlcv: seq<Candle>, n: nat)
    requires n <= |ohlcv|
    ensures Explained(e, strategy, state, ohlcv, n, Replay(e, strategy, state, ohlcv, n))
  {
    if n > 50 {
      var before := Replay(e, strategy, state, ohlcv, n - 1);
      ReplayExplained(e, strategy, state, ohlcv, n - 1);
      ExitExplained(e, strategy, state, ohlcv, n - 1, before);
      SignalExplained(e, strategy, state, ohlcv, n - 1, AfterExit(e, before, ohlcv[n - 1]));
    }
  }

  /** The whole life of every trade of a run: opened by the strategy's signal at its own candle, with
      that signal's size, stop and target; left at the first later candle that reaches a level, at the
      stop if both are reached, or at the last close when none is; and its return is the move between
      the two slipped prices less two commissions. */
  lemma {:induction false} TradesExplained<S>(e: Engine, strategy: Strategy<S>, state: S, ohlcv: seq<Candle>, i: nat)
    requires i < |RunAccount(e, strategy, state, ohlcv).trades|
    ensures var t := RunAccount(e, strategy, state, ohlcv).trades[i];
      && FromSignal(e, strategy, state, ohlcv, AsOpen(t)) && Returns(e, t)
      && (LeavesLast(e, ohlcv, t) || exists j :: LeavesAt(e, ohlcv, t, j))
  {
    var acc := Replay(e, strategy, state, ohlcv, |ohlcv|);
    ReplayExplained(e, strategy, state, ohlcv, |ohlcv|);
    if i < |acc.trades| {
      assert Lived(e, strategy, state, ohlcv, |ohlcv|, acc.trades[i]);
    } else {
      ClosedReturns(e, acc.open.value, ohlcv[|ohlcv| - 1].close, EndOfData, acc.capital);
    }
  }

  // ------------------------------------------------------- no signal is missed

  /** Nothing is open when the strategy is due at candle `i`: what was open leaves at that candle. */
  ghost predicate FlatAt<S>(e: Engine, strategy: Strategy<S>, state: S, ohlcv: seq<Candle>, i: nat)
    requires i < |ohlcv|
  {
    var o := Replay(e, strategy, state, ohlcv, i).open;
    o.None? || AtStop(o.value, ohlcv[i]) || AtTarget(o.value, ohlcv[i])
  }

  /** The strategy is asked, and its state moves on, exactly at the candles where nothing is open. */
  lemma {:induction false} AskedWhenFlat<S>(e: Engine, strategy: Strategy<S>, state: S, ohlcv: seq<Candle>, i: nat)
    requires 50 <= i < |ohlcv|
    ensures var next := Replay(e, strategy, state, ohlcv, i + 1);
      if FlatAt(e, strategy, state, ohlcv, i) then
        && next.state == Asked(e, strategy, state, ohlcv, i).0
        && (next.open.Some? <==> Asked(e, strategy, state, ohlcv, i).1.action.Some?)
        && (next.open.Some? ==> next.open.value.index == i)
      else next.state == Replay(e, strategy, state, ohlcv, i).state && next.open == Replay(e, strategy, state, ohlcv, i).open
  {
    var before := Replay(e, strategy, state, ohlcv, i);
    if before.open.Some? {
      ExitsIs(before.open.value, ohlcv[i]);
    }
  }

  ghost predicate HasIndex(trades: seq<Trade>, i: int) { exists k :: 0 <= k < |trades| && trades[k].index == i }

  ghost predicate Holds<S>(acc: Account<S>, i: int) {
    HasIndex(acc.trades, i) || (acc.open.Some? && acc.open.value.index == i)
  }

  lemma {:induction false} HasIndexSnoc(trades: seq<Trade>, t: Trade, i: int)
    ensures HasIndex(trades + [t], i) <==> HasIndex(trades, i) || t.index == i
  {
    var more := trades + [t];
    assert more[|trades|] == t;
    if k :| 0 <= k < |trades| && trades[k].index == i {
      assert more[k].index == i;
    }
  }

  lemma {:induction false} ExitHolds<S>(e: Engine, acc: Account<S>, c: Candle, i: int)
    ensures Holds(AfterExit(e, acc, c), i) == Holds(acc, i)
  {
    if acc.open.Some? {
      var hit := CheckExits(acc.open.value, c.high, c.low);
      if hit.Some? {
        HasIndexSnoc(acc.trades, CloseTrade(e, acc.open.value, hit.value.0, hit.value.1, acc.capital), i);
      }
    }
  }

  /** The entries are the candles where the strategy was asked and acted, each of them and no other. */
  ghost predicate Acts<S>(e: Engine, strategy: Strategy<S>, state: S, ohlcv: seq<Candle>, i: int) {
    && 50 <= i < |ohlcv| && FlatAt(e, strategy, state, ohlcv, i)
    && Asked(e, strategy, state, ohlcv, i).1.action.Some?
  }

  lemma {:induction false} ReplayHolds<S>(e: Engine, strategy: Strategy<S>, state: S, ohlcv: seq<Candle>, n: nat, i: int)
    requires n <= |ohlcv|
    ensures Holds(Replay(e, strategy, state, ohlcv, n), i) <==> i < n && Acts(e, strategy, state, ohlcv, i)
  {
    if n > 50 {
      var before := Replay(e, strategy, state, ohlcv, n - 1);
      ReplayHolds(e, strategy, state, ohlcv, n - 1, i);
      ExitHolds(e, before, ohlcv[n - 1], i);
      StepHolds(e, strategy, state, ohlcv, n - 1, i);
    }
  }

  lemma {:induction false} StepHolds<S>(e: Engine, strategy: Strategy<S>, state: S, ohlcv: seq<Candle>, n: nat, i: int)
    requires 50 <= n < |ohlcv|
    ensures Holds(Replay(e, strategy, state, ohlcv, n + 1), i)
       <==> Holds(AfterExit(e, Replay(e, strategy, state, ohlcv, n), ohlcv[n]), i)
            || (i == n && Acts(e, strategy, state, ohlcv, n))
  {
    var before := Replay(e, strategy, state, ohlcv, n);
    if before.open.Some? {
      ExitsIs(before.open.value, ohlcv[n]);
    }
  }

  /** A run has a trade entered at candle `i` if and only if nothing was open there and the strategy
      acted. */
  lemma {:induction false} EnteredIff<S>(e: Engine, strategy: Strategy<S>, state: S, ohlcv: seq<Candle>, i: int)
    requires Enough(ohlcv)
    ensures HasIndex(RunAccount(e, strategy, state, ohlcv).trades, i) <==> Acts(e, strategy, state, ohlcv, i)
  {
    var acc := Replay(e, strategy, state, ohlcv, |ohlcv|);
    ReplayHolds(e, strategy, state, ohlcv, |ohlcv|, i);
    if acc.open.Some? {
      HasIndexSnoc(acc.trades, CloseTrade(e, acc.open.value, ohlcv[|ohlcv| - 1].close, EndOfData, acc.capital), i);
    }
  }

  // ------------------------------------------------------------- the capital

  /** What a trade does to a capital it is a share of. */
  function FactorOf(t: Trade): real { 1.0 + t.sizePct / 100.0 * t.pnlPct }

  /** The capital after the trades, each staking its share of what the ones before it left. */
  function Compounded(initial: real, trades: seq<Trade>): real {
    if trades == [] then initial
    else Compounded(initial, trades[..|trades| - 1]) * FactorOf(trades[|trades| - 1])
  }

  ghost predicate Staked(e: Engine, trades: seq<Trade>, capital: real) { capital == Compounded(e.initialCapital, trades) }

  lemma {:induction false} BookStaked(e: Engine, trades: seq<Trade>, capital: real, t: Trade)
    requires Staked(e, trades, capital) && t.pnl == capital * (t.sizePct / 100.0) * t.pnlPct
    ensures Staked(e, trades + [t], capital + t.pnl)
  {
    var share := t.sizePct / 100.0;
    assert (trades + [t])[..|trades|] == trades;
    assert capital * FactorOf(t) == capital + capital * share * t.pnlPct;
  }

  lemma {:induction false} ReplayStaked<S>(e: Engine, strategy: Strategy<S>, state: S, ohlcv: seq<Candle>, n: nat)
    requires n <= |ohlcv|
    ensures var acc := Replay(e, strategy, state, ohlcv, n); Staked(e, acc.trades, acc.capital)
  {
    if n > 50 {
      var before := Replay(e, strategy, state, ohlcv, n - 1);
      ReplayStaked(e, strategy, state, ohlcv, n - 1);
      ExitStaked(e, before, ohlcv[n - 1]);
    }
  }

  lemma {:induction false} ExitStaked<S>(e: Engine, acc: Account<S>, c: Candle)
    requires Staked(e, acc.trades, acc.capital)
    ensures Staked(e, AfterExit(e, acc, c).trades, AfterExit(e, acc, c).capital)
  {
    if acc.open.Some? {
      var hit := CheckExits(acc.open.value, c.high, c.low);
      if hit.Some? {
        ClosedReturns(e, acc.open.value, hit.value.0, hit.value.1, acc.capital);
        BookStaked(e, acc.trades, acc.capital, CloseTrade(e, acc.open.value, hit.value.0, hit.value.1, acc.capital));
      }
    }
  }

  /** Over a whole run, forced close included, each trade moves the capital by the factor one plus
      its share of the capital times its return. */
  lemma {:induction false} CapitalCompounds<S>(e: Engine, strategy: Strategy<S>, state: S, ohlcv: seq<Candle>)
    ensures var acc := RunAccount(e, strategy, state, ohlcv); acc.capital == Compounded(e.initialCapital, acc.trades)
  {
    if Enough(ohlcv) {
      var acc := Replay(e, strategy, state, ohlcv, |ohlcv|);
      ReplayStaked(e, strategy, state, ohlcv, |ohlcv|);
      if acc.open.Some? {
        var last := ohlcv[|ohlcv| - 1].close;
        ClosedReturns(e, acc.open.value, last, EndOfData, acc.capital);
        BookStaked(e, acc.trades, acc.capital, CloseTrade(e, acc.open.value, last, EndOfData, acc.capital));
      }
    }
  }
}
