/** What slippage, commission and the order of the exit checks do to a trade's result. */
module BacktestCosts {
  import opened Lists
  import opened Backtest

  /** The return of a trade without slippage or commission. */
  function Ideal(action: Action, close: real, exitPrice: real): real
    requires close > 0.0
  {
    if action == Buy then (exitPrice - close) / close else (close - exitPrice) / close
  }

  /** The two prices a trade can pay or receive around `x` when slippage is `s`. */
  lemma {:induction false} Around(x: real, s: real)
    requires x >= 0.0 && 0.0 <= s < 1.0
    ensures 0.0 <= x * (1.0 - s) <= x <= x * (1.0 + s)
    ensures x > 0.0 ==> x * (1.0 - s) > 0.0
  {
  }

  lemma {:induction false} EntryPaid(e: Engine, index: nat, action: Action, close: real, sig: Signal)
    requires close > 0.0 && 0.0 <= e.slippagePct < 1.0
    ensures var o := OpenTrade(e, index, action, close, sig);
      && o.action == action && o.entry > 0.0
      && (if action == Buy then o.entry >= close else o.entry <= close)
      && (e.slippagePct == 0.0 ==> o.entry == close)
  {
    var o := OpenTrade(e, index, action, close, sig);
    Around(close, e.slippagePct);
    if action == Buy {
      assert o.entry == close * (1.0 + e.slippagePct);
    } else {
      assert o.entry == close * (1.0 - e.slippagePct);
    }
  }

  /** A trade's return is the ideal one between the two prices it is booked at, less two commissions. */
  lemma {:induction false} BookedAt(e: Engine, o: Open, exitPrice: real, reason: Reason, capital: real)
    requires o.entry > 0.0
    ensures var t := CloseTrade(e, o, exitPrice, reason, capital);
      t.entry == o.entry && t.pnlPct == Ideal(o.action, t.entry, t.exit) - 2.0 * e.commissionPct
  {
  }

  lemma {:induction false} ExitPaid(e: Engine, o: Open, exitPrice: real, reason: Reason, capital: real)
    requires exitPrice >= 0.0 && 0.0 <= e.slippagePct < 1.0
    ensures var t := CloseTrade(e, o, exitPrice, reason, capital);
      && t.exit >= 0.0
      && (if o.action == Buy then t.exit <= exitPrice else t.exit >= exitPrice)
      && (e.slippagePct == 0.0 ==> t.exit == exitPrice)
  {
    var t := CloseTrade(e, o, exitPrice, reason, capital);
    Around(exitPrice, e.slippagePct);
    if o.action == Buy {
      assert t.exit == exitPrice * (1.0 - e.slippagePct);
    } else {
      assert t.exit == exitPrice * (1.0 + e.slippagePct);
    }
  }

  lemma {:induction false} HurtBy(action: Action, entry: real, exit: real, close: real, target: real)
    requires 0.0 < close && 0.0 < entry && 0.0 <= exit && 0.0 <= target
    requires if action == Buy then close <= entry && exit <= target else entry <= close && target <= exit
    ensures Ideal(action, entry, exit) <= Ideal(action, close, target)
  {
  }

  lemma {:induction false} HurtFrom(e: Engine, o: Open, close: real, exitPrice: real, reason: Reason, capital: real)
    requires close > 0.0 && exitPrice >= 0.0 && 0.0 <= e.slippagePct < 1.0 && o.entry > 0.0
    requires if o.action == Buy then o.entry >= close else o.entry <= close
    requires e.slippagePct == 0.0 ==> o.entry == close
    ensures var t := CloseTrade(e, o, exitPrice, reason, capital);
      && t.pnlPct <= Ideal(o.action, close, exitPrice) - 2.0 * e.commissionPct
      && (e.slippagePct == 0.0 ==> t.pnlPct == Ideal(o.action, close, exitPrice) - 2.0 * e.commissionPct)
  {
    var t := CloseTrade(e, o, exitPrice, reason, capital);
    BookedAt(e, o, exitPrice, reason, capital);
    ExitPaid(e, o, exitPrice, reason, capital);
    HurtBy(o.action, t.entry, t.exit, close, exitPrice);
  }

  /** Slippage is paid on both legs of either side and the commission twice: no trade ever does
      better than the same trade without costs, and with no slippage the difference is exactly
      the two commissions. */
  lemma {:induction false} CostsOnlyHurt(e: Engine, index: nat, action: Action, close: real, sig: Signal,
                                         exitPrice: real, reason: Reason, capital: real)
    requires close > 0.0 && exitPrice >= 0.0 && 0.0 <= e.slippagePct < 1.0
    ensures var t := CloseTrade(e, OpenTrade(e, index, action, close, sig), exitPrice, reason, capital);
      && t.pnlPct <= Ideal(action, close, exitPrice) - 2.0 * e.commissionPct
      && (e.slippagePct == 0.0 ==> t.pnlPct == Ideal(action, close, exitPrice) - 2.0 * e.commissionPct)
  {
    EntryPaid(e, index, action, close, sig);
    HurtFrom(e, OpenTrade(e, index, action, close, sig), close, exitPrice, reason, capital);
  }

  lemma {:induction false} QuotientStrict(a: real, b: real, q: real)
    requires q > 0.0 && a < b
    ensures a / q < b / q
  {
    var x, y := a / q, b / q;
    assert x * q == a && y * q == b;
    assert (y - x) * q == b - a;
    NonNegativeFactor(y - x, q);
  }

  /** A candle that reaches both levels of a trade is settled at the worse one. */
  lemma {:induction false} PessimisticExit(o: Open, high: real, low: real)
    requires o.stopLoss.Some? && o.takeProfit.Some? && o.entry > 0.0
    requires if o.action == Buy then low <= o.stopLoss.value < o.takeProfit.value <= high
             else low <= o.takeProfit.value < o.stopLoss.value <= high
    ensures CheckExits(o, high, low) == Some((o.stopLoss.value, StopLoss))
    ensures Ideal(o.action, o.entry, o.stopLoss.value) < Ideal(o.action, o.entry, o.takeProfit.value)
  {
    if o.action == Buy {
      QuotientStrict(o.stopLoss.value - o.entry, o.takeProfit.value - o.entry, o.entry);
    } else {
      QuotientStrict(o.entry - o.stopLoss.value, o.entry - o.takeProfit.value, o.entry);
    }
  }
}
