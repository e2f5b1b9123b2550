/** Monte Carlo over shuffled trade orders, in exact arithmetic: the final equity does not
    depend on the order, and the worst simulated drawdown is pinned between two bounds. */
module MonteCarlo {
  import opened Lists
  import opened Drawdown

  function Times(a: real, b: real): real { a * b }

  function ProductBy(rs: seq<real>, f: real -> real): real {
    if rs == [] then 1.0 else Times(f(rs[0]), ProductBy(rs[1..], f))
  }

  function Factor(r: real): real { 1.0 + r }
  function LossFactor(r: real): real { if r < 0.0 then 1.0 + r else 1.0 }

  /** Compounded growth of a list of per-trade returns. */
  function Growth(rs: seq<real>): real { ProductBy(rs, Factor) }

  /** Compounded growth of the losing trades alone. */
  function Losers(rs: seq<real>): real { ProductBy(rs, LossFactor) }

  ghost predicate AboveRuin(rs: seq<real>) { forall k :: 0 <= k < |rs| ==> rs[k] > -1.0 }

  lemma {:induction false} TimesSwap(a: real, b: real, c: real)
    ensures Times(a, Times(b, c)) == Times(b, Times(a, c))
  {
  }

  lemma {:induction false} TimesAssoc(a: real, b: real, c: real)
    ensures Times(Times(a, b), c) == Times(a, Times(b, c))
  {
  }

  lemma {:induction false} TimesOne(a: real)
    ensures Times(a, 1.0) == a && Times(1.0, a) == a
  {
  }

  lemma {:induction false} TimesBetween(a: real, b: real, x: real, y: real)
    requires 0.0 < a <= x && 0.0 < b <= y
    ensures 0.0 < Times(a, b) <= Times(x, y)
  {
  }

  lemma {:induction false} ProductRemoveAt(rs: seq<real>, i: nat, f: real -> real)
    requires i < |rs|
    ensures ProductBy(rs, f) == Times(f(rs[i]), ProductBy(rs[..i] + rs[i + 1..], f))
  {
    var rest := rs[..i] + rs[i + 1..];
    if i == 0 {
      assert rest == rs[1..];
    } else {
      ProductRemoveAt(rs[1..], i - 1, f);
      assert rest[1..] == rs[1..][..i - 1] + rs[1..][i..];
      TimesSwap(f(rs[0]), f(rs[i]), ProductBy(rest[1..], f));
    }
  }

  lemma {:induction false} ProductPermute(rs: seq<real>, ss: seq<real>, f: real -> real)
    requires multiset(rs) == multiset(ss)
    ensures ProductBy(rs, f) == ProductBy(ss, f)
  {
    if rs == [] {
      PermutedEmpty(ss);
    } else {
      var i := PickHead(rs, ss);
      ProductPermute(rs[1..], ss[..i] + ss[i + 1..], f);
      ProductRemoveAt(ss, i, f);
    }
  }

  /** Shuffling changes neither product. */
  lemma {:induction false} ShuffleInvariant(rs: seq<real>, ss: seq<real>)
    requires multiset(rs) == multiset(ss)
    ensures Growth(rs) == Growth(ss) && Losers(rs) == Losers(ss)
  {
    ProductPermute(rs, ss, Factor);
    ProductPermute(rs, ss, LossFactor);
  }

  lemma {:induction false} ProductConcat(a: seq<real>, b: seq<real>, f: real -> real)
    ensures ProductBy(a + b, f) == Times(ProductBy(a, f), ProductBy(b, f))
  {
    if a == [] {
      assert a + b == b;
      TimesOne(ProductBy(b, f));
    } else {
      ProductConcat(a[1..], b, f);
      assert (a + b)[1..] == a[1..] + b;
      TimesAssoc(f(a[0]), ProductBy(a[1..], f), ProductBy(b, f));
    }
  }

  lemma {:induction false} AboveRest(rs: seq<real>)
    requires AboveRuin(rs) && rs != []
    ensures AboveRuin(rs[1..]) && 0.0 < LossFactor(rs[0]) <= Factor(rs[0]) && LossFactor(rs[0]) <= 1.0
  {
  }

  /** Losing trades alone bring the equity down at least as far as any stretch of trades does. */
  lemma {:induction false} LosersBound(rs: seq<real>)
    requires AboveRuin(rs)
    ensures 0.0 < Losers(rs) <= Growth(rs) && Losers(rs) <= 1.0
  {
    if rs != [] {
      AboveRest(rs);
      LosersBound(rs[1..]);
      TimesBetween(LossFactor(rs[0]), Losers(rs[1..]), Factor(rs[0]), Growth(rs[1..]));
      TimesBetween(LossFactor(rs[0]), Losers(rs[1..]), 1.0, 1.0);
      TimesOne(1.0);
    }
  }

  lemma {:induction false} AboveSlices(rs: seq<real>, i: nat, j: nat)
    requires AboveRuin(rs) && i <= j <= |rs|
    ensures AboveRuin(rs[..i]) && AboveRuin(rs[i..j]) && AboveRuin(rs[j..])
  {
  }

  lemma {:induction false} SliceLosers(rs: seq<real>, i: nat, j: nat)
    requires AboveRuin(rs) && i <= j <= |rs|
    ensures Losers(rs) <= Losers(rs[i..j])
  {
    var a, b, c := rs[..i], rs[i..j], rs[j..];
    AboveSlices(rs, i, j);
    assert rs == a + (b + c);
    ProductConcat(a, b + c, LossFactor);
    ProductConcat(b, c, LossFactor);
    LosersBound(a);
    LosersBound(b);
    LosersBound(c);
    TimesBetween(Losers(b), Losers(c), Losers(b), 1.0);
    TimesOne(Losers(b));
    TimesBetween(Losers(a), Times(Losers(b), Losers(c)), 1.0, Losers(b));
  }

  /** The equity path of one shuffled order, from 1. */
  function Path(rs: seq<real>): (r: seq<real>)
    ensures |r| == |rs| + 1
  {
    if rs == [] then [1.0]
    else
      var before := Path(rs[..|rs| - 1]);
      before + [Times(before[|rs| - 1], Factor(rs[|rs| - 1]))]
  }

  ghost predicate Multiplies(a: real, r: real, b: real) { b == a * (1.0 + r) }

  /** `path` is the equity of one order: 1 to begin with, and each trade multiplies what is there. */
  ghost predicate Compounds(path: seq<real>, rs: seq<real>) {
    && |path| == |rs| + 1 && path[0] == 1.0
    && forall k :: 0 <= k < |rs| ==> Multiplies(path[k], rs[k], path[k + 1])
  }

  lemma {:induction false} CompoundsSnoc(path: seq<real>, rs: seq<real>, r: real)
    requires Compounds(path, rs)
    ensures Compounds(path + [Times(path[|rs|], Factor(r))], rs + [r])
  {
    var next := Times(path[|rs|], Factor(r));
    assert Multiplies(path[|rs|], r, next);
    var more, orders := path + [next], rs + [r];
    forall k | 0 <= k < |orders| ensures Multiplies(more[k], orders[k], more[k + 1]) {
      if k < |rs| {
        assert Multiplies(path[k], rs[k], path[k + 1]);
      }
    }
  }

  lemma {:induction false} PathCompounds(rs: seq<real>)
    ensures Compounds(Path(rs), rs)
  {
    if rs != [] {
      var n := |rs| - 1;
      PathCompounds(rs[..n]);
      CompoundsSnoc(Path(rs[..n]), rs[..n], rs[n]);
      assert rs == rs[..n] + [rs[n]];
    }
  }

  /** There is only one such path. */
  lemma {:induction false} CompoundsOnce(a: seq<real>, b: seq<real>, rs: seq<real>, k: nat)
    requires Compounds(a, rs) && Compounds(b, rs) && k <= |rs|
    ensures a[k] == b[k]
    decreases k
  {
    if k > 0 {
      CompoundsOnce(a, b, rs, k - 1);
      assert Multiplies(a[k - 1], rs[k - 1], a[k - 1 + 1]) && Multiplies(b[k - 1], rs[k - 1], b[k - 1 + 1]);
    }
  }

  /** `d` is the drawdown of one order: the deepest fall of its equity from a running peak. */
  ghost predicate DrawdownOf(rs: seq<real>, d: real) { exists path :: Compounds(path, rs) && PeakToTrough(path, d) }

  lemma {:induction false} DrawdownIs(rs: seq<real>, d: real)
    ensures DrawdownOf(rs, d) <==> d == OnePass(Path(rs))
  {
    PathCompounds(rs);
    OnePassIsPeakToTrough(Path(rs));
    if DrawdownOf(rs, d) {
      var path :| Compounds(path, rs) && PeakToTrough(path, d);
      forall k | 0 <= k < |path| ensures path[k] == Path(rs)[k] {
        CompoundsOnce(path, Path(rs), rs, k);
      }
      assert path == Path(rs);
      PeakToTroughUnique(path, d, OnePass(path));
    }
  }

  /** `worst` is the deepest drawdown of the orders, and 0 when there is no order. */
  ghost predicate WorstOf(orders: seq<seq<real>>, worst: real) {
    && (forall k, d :: 0 <= k < |orders| && DrawdownOf(orders[k], d) ==> worst <= d)
    && (if orders == [] then worst == 0.0 else exists k :: 0 <= k < |orders| && DrawdownOf(orders[k], worst))
  }

  lemma {:induction false} WorstSnoc(orders: seq<seq<real>>, worst: real, order: seq<real>)
    requires WorstOf(orders, worst) && worst <= 0.0
    ensures WorstOf(orders + [order], Min(worst, OnePass(Path(order))))
  {
    var next := Min(worst, OnePass(Path(order)));
    var more := orders + [order];
    forall k, d | 0 <= k < |more| && DrawdownOf(more[k], d) ensures next <= d {
      if k < |orders| {
        assert more[k] == orders[k];
      } else {
        DrawdownIs(order, d);
      }
    }
    OnePassIsPeakToTrough(Path(order));
    DrawdownIs(order, OnePass(Path(order)));
    if next == OnePass(Path(order)) {
      assert DrawdownOf(more[|orders|], next);
    } else {
      var k :| 0 <= k < |orders| && DrawdownOf(orders[k], worst);
      assert DrawdownOf(more[k], next);
    }
  }

  lemma {:induction false} WorstNext(orders: seq<seq<real>>, k: nat, before: real, worst: real)
    requires k < |orders| && WorstOf(orders[..k], before) && before <= 0.0
    requires worst == Min(before, OnePass(Path(orders[k])))
    ensures worst <= 0.0 && WorstOf(orders[..k + 1], worst)
  {
    WorstSnoc(orders[..k], before, orders[k]);
    assert orders[..k + 1] == orders[..k] + [orders[k]];
  }

  lemma {:induction false} GrowthSnoc(rs: seq<real>, r: real)
    ensures Growth(rs + [r]) == Times(Growth(rs), Factor(r))
  {
    ProductConcat(rs, [r], Factor);
    assert [r][1..] == [];
    TimesOne(Factor(r));
  }

  lemma {:induction false} PathIsGrowth(rs: seq<real>, k: nat)
    requires k <= |rs|
    ensures Path(rs)[k] == Growth(rs[..k])
  {
    if rs == [] {
    } else if k == |rs| {
      PathIsGrowth(rs[..k - 1], k - 1);
      assert rs[..k] == rs && rs == rs[..k - 1] + [rs[k - 1]];
      assert rs[..k - 1][..k - 1] == rs[..k - 1];
      GrowthSnoc(rs[..k - 1], rs[k - 1]);
    } else {
      PathIsGrowth(rs[..|rs| - 1], k);
      assert rs[..|rs| - 1][..k] == rs[..k];
    }
  }

  lemma {:induction false} PathPositive(rs: seq<real>)
    requires AboveRuin(rs)
    ensures forall k :: 0 <= k < |Path(rs)| ==> Path(rs)[k] > 0.0
  {
    forall k | 0 <= k < |Path(rs)| ensures Path(rs)[k] > 0.0 {
      PathIsGrowth(rs, k);
      assert AboveRuin(rs[..k]);
      LosersBound(rs[..k]);
    }
  }

  lemma {:induction false} DropOf(a: real, g: real)
    requires a > 0.0
    ensures Drop(a, Times(a, g)) == g - 1.0
  {
    var d := Drop(a, Times(a, g));
    assert d * a == Times(a, g) - a;
    assert (d - g + 1.0) * a == 0.0;
    Scale(d - g + 1.0, 0.0, a);
    Scale(0.0, d - g + 1.0, a);
  }

  /** Any fall along the path is bounded by the losing trades alone. */
  lemma {:induction false} FallBound(rs: seq<real>, i: nat, j: nat)
    requires AboveRuin(rs) && i <= j <= |rs|
    ensures Path(rs)[i] > 0.0 && Drop(Path(rs)[i], Path(rs)[j]) >= Losers(rs) - 1.0
  {
    PathPositive(rs);
    PathIsGrowth(rs, i);
    PathIsGrowth(rs, j);
    assert rs[..j] == rs[..i] + rs[i..j];
    ProductConcat(rs[..i], rs[i..j], Factor);
    SliceLosers(rs, i, j);
    AboveSlices(rs, i, j);
    LosersBound(rs[i..j]);
    DropOf(Path(rs)[i], Growth(rs[i..j]));
  }

  lemma {:induction false} PathEnds(rs: seq<real>)
    ensures Path(rs)[0] == 1.0 && Path(rs)[|rs|] == Growth(rs)
  {
    PathIsGrowth(rs, |rs|);
    assert rs[..|rs|] == rs;
    PathIsGrowth(rs, 0);
  }

  /** One simulated order: its drawdown lies between the losers' product and the final result. */
  lemma {:induction false} OrderBounds(rs: seq<real>)
    requires AboveRuin(rs)
    ensures Losers(rs) - 1.0 <= OnePass(Path(rs)) <= Min(0.0, Growth(rs) - 1.0)
  {
    var path := Path(rs);
    PathPositive(rs);
    OnePassIsAllPairs(path);
    LosersBound(rs);
    PathEnds(rs);
    var d := OnePass(path);
    assert Ordered(path, 0, |rs|) && Drop(path[0], path[|rs|]) == Growth(rs) - 1.0;
    if d != 0.0 {
      var i, j :| Ordered(path, i, j) && path[i] > 0.0 && d == Drop(path[i], path[j]);
      FallBound(rs, i, j);
    }
  }

  // ----------------------------------------------------------------- simulation

  datatype Result = Result(simulations: nat, p5: real, p50: real, p95: real,
                           worstDrawdown: real, pctProfitable: real, rejected: bool)

  function Identity(x: real): real { x }

  ghost predicate AllEqual(xs: seq<real>, v: real) { forall k :: 0 <= k < |xs| ==> xs[k] == v }

  lemma {:induction false} SortAllEqual(xs: seq<real>, v: real)
    requires AllEqual(xs, v)
    ensures AllEqual(StableSort(xs, Identity), v)
  {
    var r := StableSort(xs, Identity);
    forall k | 0 <= k < |r| ensures r[k] == v {
      assert r[k] in multiset(xs);
    }
  }

  /** One shuffled order, run through the inner loop. */
  method RunOrder(shuffled: seq<real>, worstSoFar: real) returns (equity: real, worst: real)
    requires worstSoFar <= 0.0
    ensures equity == Growth(shuffled)
    ensures worst == Min(worstSoFar, OnePass(Path(shuffled)))
  {
    equity, worst := 1.0, worstSoFar;
    var peak := 1.0;
    assert shuffled[..0] == [];
    var i := 0;
    while i < |shuffled|
      invariant 0 <= i <= |shuffled|
      invariant equity == Path(shuffled[..i])[i]
      invariant peak == Pass(Path(shuffled[..i])).peak >= 1.0
      invariant worst == Min(worstSoFar, Pass(Path(shuffled[..i])).worst)
    {
      assert shuffled[..i + 1][..i] == shuffled[..i];
      ghost var next := Path(shuffled[..i + 1]);
      assert next[..|next| - 1] == Path(shuffled[..i]);
      equity := Times(equity, Factor(shuffled[i]));
      peak := Max(peak, equity);
      if peak > 0.0 {
        worst := Min(worst, Drop(peak, equity));
      }
      i := i + 1;
    }
    assert shuffled[..i] == shuffled;
    PathEnds(shuffled);
  }

  lemma {:induction false} ShuffleBounds(rs: seq<real>, ss: seq<real>)
    requires AboveRuin(rs) && multiset(rs) == multiset(ss)
    ensures AboveRuin(ss) && Growth(ss) == Growth(rs)
    ensures Losers(rs) - 1.0 <= OnePass(Path(ss)) <= Min(0.0, Growth(rs) - 1.0)
  {
    ShuffledAbove(rs, ss);
    ShuffleInvariant(rs, ss);
    OrderBounds(ss);
  }

  lemma {:induction false} WorstBounds(gains: seq<real>, shuffles: seq<seq<real>>, worst: real)
    requires AboveRuin(gains) && shuffles != [] && WorstOf(shuffles, worst)
    requires forall k :: 0 <= k < |shuffles| ==> multiset(shuffles[k]) == multiset(gains)
    ensures Losers(gains) - 1.0 <= worst <= Min(0.0, Growth(gains) - 1.0)
  {
    var k :| 0 <= k < |shuffles| && DrawdownOf(shuffles[k], worst);
    DrawdownIs(shuffles[k], worst);
    ShuffleBounds(gains, shuffles[k]);
  }

  /** The simulation loop: every order ends at the same equity, and the worst drawdown is the deepest
      of all of them, whatever the returns. */
  method RunAll(gains: seq<real>, shuffles: seq<seq<real>>) returns (finals: seq<real>, worst: real)
    requires forall k :: 0 <= k < |shuffles| ==> multiset(shuffles[k]) == multiset(gains)
    ensures |finals| == |shuffles| && AllEqual(finals, Growth(gains) - 1.0)
    ensures WorstOf(shuffles, worst)
    ensures AboveRuin(gains) && shuffles != [] ==>
      Losers(gains) - 1.0 <= worst <= Min(0.0, Growth(gains) - 1.0)
  {
    finals, worst := [], 0.0;
    for k := 0 to |shuffles|
      invariant |finals| == k && AllEqual(finals, Growth(gains) - 1.0)
      invariant worst <= 0.0 && WorstOf(shuffles[..k], worst)
    {
      var equity;
      ghost var before := worst;
      equity, worst := RunOrder(shuffles[k], worst);
      finals := finals + [equity - 1.0];
      ShuffleInvariant(gains, shuffles[k]);
      WorstNext(shuffles, k, before, worst);
    }
    assert shuffles[..|shuffles|] == shuffles;
    if AboveRuin(gains) && shuffles != [] {
      WorstBounds(gains, shuffles, worst);
    }
  }

  method CountProfitable(finals: seq<real>, ghost v: real) returns (n: nat)
    requires AllEqual(finals, v)
    ensures n == if v > 0.0 then |finals| else 0
  {
    n := 0;
    for k := 0 to |finals|
      invariant n == if v > 0.0 then k else 0
    {
      if finals[k] > 0.0 {
        n := n + 1;
      }
    }
  }

  lemma {:induction false} WholeShare(n: nat)
    requires n > 0
    ensures n as real / n as real == 1.0 && 0.0 / n as real == 0.0
  {
  }

  /** For any shuffles of any returns: every percentile is the one compounded result, the trades
      are rejected exactly when that result is a loss, the worst drawdown is the deepest of all
      orders, and, with every return above -1, it lies between the losing trades' product less one and the smaller of 0 and that result.
      With trades but no simulation at all, indexing the empty result list raises. */
  method Simulate(gains: seq<real>, shuffles: seq<seq<real>>) returns (r: Option<Result>)
    requires forall k :: 0 <= k < |shuffles| ==> multiset(shuffles[k]) == multiset(gains)
    ensures gains == [] ==> r == Some(Result(0, 0.0, 0.0, 0.0, 0.0, 0.0, true))
    ensures gains != [] ==> (r.None? <==> shuffles == [])
    ensures gains != [] && r.Some? ==>
      var g := Growth(gains);
      && r.value.simulations == |shuffles|
      && r.value.p5 == g - 1.0 && r.value.p50 == g - 1.0 && r.value.p95 == g - 1.0
      && r.value.pctProfitable == (if g > 1.0 then 1.0 else 0.0)
      && (r.value.rejected <==> g < 1.0)
      && WorstOf(shuffles, r.value.worstDrawdown)
      && (AboveRuin(gains) ==> Losers(gains) - 1.0 <= r.value.worstDrawdown <= Min(0.0, g - 1.0))
  {
    if gains == [] {
      return Some(Result(0, 0.0, 0.0, 0.0, 0.0, 0.0, true));
    }
    var finals, worst := RunAll(gains, shuffles);
    if |finals| == 0 {
      return None;
    }
    SortAllEqual(finals, Growth(gains) - 1.0);
    finals := StableSort(finals, Identity);
    var n := |finals|;
    var p5, p50, p95 := finals[Percentile(0.05, n)], finals[Percentile(0.5, n)], finals[Percentile(0.95, n)];
    var profitable := CountProfitable(finals, Growth(gains) - 1.0);
    WholeShare(n);
    r := Some(Result(n, p5, p50, p95, worst, profitable as real / n as real, p5 < 0.0));
  }

  /** `int(q * n)`, inside the list. */
  function Percentile(q: real, n: nat): (i: nat)
    requires 0.0 <= q < 1.0 && n > 0
    ensures i < n
  {
    assert q * n as real < n as real;
    assert q * n as real >= 0.0;
    (q * n as real).Floor
  }

  lemma {:induction false} ShuffledAbove(rs: seq<real>, ss: seq<real>)
    requires AboveRuin(rs) && multiset(rs) == multiset(ss)
    ensures AboveRuin(ss)
  {
    forall k | 0 <= k < |ss| ensures ss[k] > -1.0 {
      assert ss[k] in multiset(rs);
    }
  }
}
