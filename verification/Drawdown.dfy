/** Maximum drawdown: the running-peak loops of the backtest engine and of the portfolio
    metrics against the definition over all pairs of points. */
module Drawdown {
  import opened Lists

  /** The relative move from `a` to `b`. */
  function Drop(a: real, b: real): real
    requires a > 0.0
  {
    (b - a) / a
  }

  datatype Track = Track(peak: real, worst: real)

  /** One pass of the loop body over a point of the curve. */
  function Visit(t: Track, v: real): Track {
    var peak := Max(t.peak, v);
    if peak > 0.0 then Track(peak, Min(t.worst, Drop(peak, v))) else Track(peak, t.worst)
  }

  /** The loop state after the whole curve, peak first set to the first point. */
  function Pass(curve: seq<real>): Track
    requires curve != []
  {
    if |curve| == 1 then Visit(Track(curve[0], 0.0), curve[0])
    else Visit(Pass(curve[..|curve| - 1]), curve[|curve| - 1])
  }

  function OnePass(curve: seq<real>): real {
    if curve == [] then 0.0 else Pass(curve).worst
  }

  ghost predicate IsPeak(curve: seq<real>, i: int, j: int) {
    0 <= i <= j < |curve| && forall k :: 0 <= k <= j ==> curve[k] <= curve[i]
  }

  /** `d` is the deepest fall from a running peak. */
  ghost predicate PeakToTrough(curve: seq<real>, d: real) {
    && d <= 0.0
    && (forall i, j :: IsPeak(curve, i, j) && curve[i] > 0.0 ==> d <= Drop(curve[i], curve[j]))
    && (d == 0.0 || exists i, j :: IsPeak(curve, i, j) && curve[i] > 0.0 && d == Drop(curve[i], curve[j]))
  }

  ghost predicate Ordered(curve: seq<real>, i: int, j: int) { 0 <= i <= j < |curve| }

  /** `d` is the deepest fall from any point to any later one: the definition over all pairs. */
  ghost predicate AllPairs(curve: seq<real>, d: real) {
    && d <= 0.0
    && (forall i, j :: Ordered(curve, i, j) && curve[i] > 0.0 ==> d <= Drop(curve[i], curve[j]))
    && (d == 0.0 || exists i, j :: Ordered(curve, i, j) && curve[i] > 0.0 && d == Drop(curve[i], curve[j]))
  }

  lemma {:induction false} AllPairsUnique(curve: seq<real>, d: real, e: real)
    requires AllPairs(curve, d) && AllPairs(curve, e)
    ensures d == e
  {
  }

  lemma {:induction false} PeakToTroughUnique(curve: seq<real>, d: real, e: real)
    requires PeakToTrough(curve, d) && PeakToTrough(curve, e)
    ensures d == e
  {
  }

  lemma {:induction false} PassPeak(curve: seq<real>) returns (p: nat)
    requires curve != []
    ensures IsPeak(curve, p, |curve| - 1) && Pass(curve).peak == curve[p]
  {
    var n := |curve| - 1;
    p := 0;
    if n > 0 {
      var before := curve[..n];
      p := PassPeak(before);
      assert forall k :: 0 <= k < n ==> before[k] == curve[k];
      if curve[n] > curve[p] {
        p := n;
      }
    }
  }

  /** For every curve, the loop returns the deepest fall from a running peak. */
  lemma {:induction false} OnePassIsPeakToTrough(curve: seq<real>)
    ensures PeakToTrough(curve, OnePass(curve))
  {
    if curve != [] {
      var n := |curve| - 1;
      var p := PassPeak(curve);
      if n == 0 {
        assert curve[p] > 0.0 ==> Drop(curve[p], curve[p]) == 0.0;
      } else {
        var before := curve[..n];
        OnePassIsPeakToTrough(before);
        PeakPairs(curve, p, OnePass(before), OnePass(curve));
      }
    }
  }

  lemma {:induction false} PeakPairs(curve: seq<real>, p: nat, d0: real, d: real)
    requires |curve| >= 2 && IsPeak(curve, p, |curve| - 1)
    requires PeakToTrough(curve[..|curve| - 1], d0)
    requires d == if curve[p] > 0.0 then Min(d0, Drop(curve[p], curve[|curve| - 1])) else d0
    ensures PeakToTrough(curve, d)
  {
    var n := |curve| - 1;
    var before := curve[..n];
    assert forall k :: 0 <= k < n ==> before[k] == curve[k];
    forall i, j | IsPeak(curve, i, j) && curve[i] > 0.0 ensures d <= Drop(curve[i], curve[j]) {
      if j < n {
        assert IsPeak(before, i, j);
      } else {
        assert curve[i] == curve[p];
      }
    }
    if d != 0.0 && d == d0 {
      var i, j :| IsPeak(before, i, j) && before[i] > 0.0 && d0 == Drop(before[i], before[j]);
      assert IsPeak(curve, i, j);
    }
  }

  lemma {:induction false} DropFromHigher(a: real, b: real, v: real)
    requires 0.0 < a <= b && v >= 0.0
    ensures Drop(b, v) <= Drop(a, v)
  {
  }

  lemma {:induction false} Scale(x: real, y: real, b: real)
    requires b > 0.0 && x * b <= y * b
    ensures x <= y
  {
  }

  /** The highest point up to `j`. */
  lemma {:induction false} PeakUpTo(curve: seq<real>, j: nat) returns (p: nat)
    requires j < |curve|
    ensures IsPeak(curve, p, j)
  {
    p := 0;
    if j > 0 {
      p := PeakUpTo(curve, j - 1);
      if curve[j] > curve[p] {
        p := j;
      }
    }
  }

  /** Exactly when the loop returns the minimum over all pairs of points: every fall from a
      positive point to a negative one is no deeper than what it returned. */
  lemma {:induction false} OnePassIsAllPairsIff(curve: seq<real>)
    ensures AllPairs(curve, OnePass(curve)) <==>
      forall i, j :: Ordered(curve, i, j) && curve[i] > 0.0 > curve[j] ==> OnePass(curve) <= Drop(curve[i], curve[j])
  {
    OnePassIsPeakToTrough(curve);
    var d := OnePass(curve);
    forall i, j | Ordered(curve, i, j) && curve[i] > 0.0 && curve[j] >= 0.0 ensures d <= Drop(curve[i], curve[j]) {
      var p := PeakUpTo(curve, j);
      assert IsPeak(curve, p, j) && curve[p] >= curve[i];
      DropFromHigher(curve[i], curve[p], curve[j]);
    }
    if d != 0.0 {
      var i, j :| IsPeak(curve, i, j) && curve[i] > 0.0 && d == Drop(curve[i], curve[j]);
      assert Ordered(curve, i, j);
    }
  }

  /** In particular on every curve that is never negative. */
  lemma {:induction false} OnePassIsAllPairs(curve: seq<real>)
    requires forall k :: 0 <= k < |curve| ==> curve[k] >= 0.0
    ensures AllPairs(curve, OnePass(curve))
  {
    OnePassIsAllPairsIff(curve);
  }

  /** Why nonnegative: once equity is negative, the fall from a lower point counts for more. */
  lemma {:induction false} NegativeEquityDiffers()
    ensures OnePass([1.0, 2.0, -1.0]) == -1.5 && !AllPairs([1.0, 2.0, -1.0], -1.5)
  {
    var c := [1.0, 2.0, -1.0];
    assert c[..2] == [1.0, 2.0] && c[..2][..1] == [1.0];
    assert Pass([1.0]) == Track(1.0, 0.0) && Pass([1.0, 2.0]) == Track(2.0, 0.0);
    assert Ordered(c, 0, 2) && Drop(c[0], c[2]) == -2.0;
  }

  // --------------------------------------------------------------- the two loops

  /** The curve of an account that starts at `initial` and books `pnls`. */
  function Curve(initial: real, pnls: seq<real>): (r: seq<real>)
    ensures |r| == |pnls| + 1
  {
    if pnls == [] then [initial]
    else
      var before := Curve(initial, pnls[..|pnls| - 1]);
      before + [before[|pnls| - 1] + pnls[|pnls| - 1]]
  }

  /** The engine's loop over an equity curve. */
  method EngineMaxDrawdown(equity: seq<real>) returns (worst: real)
    ensures worst == OnePass(equity)
  {
    if |equity| < 2 {
      if |equity| == 1 {
        assert equity[0] > 0.0 ==> Drop(equity[0], equity[0]) == 0.0;
      }
      return 0.0;
    }
    var peak := equity[0];
    worst := 0.0;
    var i := 0;
    while i < |equity|
      invariant 0 <= i <= |equity|
      invariant if i == 0 then peak == equity[0] && worst == 0.0 else Track(peak, worst) == Pass(equity[..i])
    {
      assert equity[..i + 1][..i] == equity[..i];
      peak := Max(peak, equity[i]);
      if peak > 0.0 {
        worst := Min(worst, Drop(peak, equity[i]));
      }
      i := i + 1;
    }
    assert equity[..i] == equity;
  }

  /** The metrics engine's loop over the realised results. */
  method MetricsMaxDrawdown(initial: real, pnls: seq<real>) returns (worst: real)
    ensures worst == OnePass(Curve(initial, pnls))
  {
    assert initial > 0.0 ==> Drop(initial, initial) == 0.0;
    if pnls == [] {
      return 0.0;
    }
    var equity, peak := initial, initial;
    worst := 0.0;
    var i := 0;
    assert pnls[..0] == [];
    while i < |pnls|
      invariant 0 <= i <= |pnls|
      invariant equity == Curve(initial, pnls[..i])[i]
      invariant Track(peak, worst) == Pass(Curve(initial, pnls[..i]))
    {
      assert pnls[..i + 1][..i] == pnls[..i];
      var next := Curve(initial, pnls[..i + 1]);
      assert next[..|next| - 1] == Curve(initial, pnls[..i]);
      equity := equity + pnls[i];
      peak := Max(peak, equity);
      if peak > 0.0 {
        worst := Min(worst, Drop(peak, equity));
      }
      i := i + 1;
    }
    assert pnls[..i] == pnls;
  }

  function Highest(curve: seq<real>): (m: real)
    requires curve != []
    ensures m in curve && forall i :: 0 <= i < |curve| ==> curve[i] <= m
  {
    if |curve| == 1 then curve[0] else Max(Highest(curve[..|curve| - 1]), curve[|curve| - 1])
  }

  /** What one more point does to the drawdown: it counts by its fall from the highest point so far. */
  lemma {:induction false} LastPointOmitted(curve: seq<real>, v: real)
    requires curve != []
    ensures OnePass(curve + [v])
         == if Highest(curve) > 0.0 then Min(OnePass(curve), Drop(Highest(curve), v)) else OnePass(curve)
  {
    var p := PassPeak(curve);
    var peak := Highest(curve);
    assert (curve + [v])[..|curve|] == curve;
    assert curve[p] == peak;
    OnePassIsPeakToTrough(curve);
    if v > peak > 0.0 {
      assert Drop(v, v) == 0.0;
      RiseIsNoDrop(peak, v);
    }
  }

  lemma {:induction false} RiseIsNoDrop(a: real, b: real)
    requires 0.0 < a <= b
    ensures Drop(a, b) >= 0.0
  {
  }
}
