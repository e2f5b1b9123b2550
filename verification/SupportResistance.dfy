/** Pivot detection and the clustering of pivot levels into zones. */
module SupportResistance {
  import opened Lists

  // ------------------------------------------------------------------- pivots

  function Largest(xs: seq<real>): (m: real)
    requires xs != []
    ensures m in xs && forall i :: 0 <= i < |xs| ==> xs[i] <= m
  {
    if |xs| == 1 then xs[0] else Max(Largest(xs[..|xs| - 1]), xs[|xs| - 1])
  }

  function Smallest(xs: seq<real>): (m: real)
    requires xs != []
    ensures m in xs && forall i :: 0 <= i < |xs| ==> m <= xs[i]
  {
    if |xs| == 1 then xs[0] else Min(Smallest(xs[..|xs| - 1]), xs[|xs| - 1])
  }

  /** `numpy.sum(window == v)` */
  function CountEqual(xs: seq<real>, v: real): nat {
    if xs == [] then 0 else CountEqual(xs[..|xs| - 1], v) + (if xs[|xs| - 1] == v then 1 else 0)
  }

  lemma {:induction false} CountZero(xs: seq<real>, v: real)
    requires forall i :: 0 <= i < |xs| ==> xs[i] != v
    ensures CountEqual(xs, v) == 0
  {
    if xs != [] {
      CountZero(xs[..|xs| - 1], v);
    }
  }

  lemma {:induction false} CountAtLeastOne(xs: seq<real>, v: real, i: nat)
    requires i < |xs| && xs[i] == v
    ensures CountEqual(xs, v) >= 1
  {
    if i < |xs| - 1 {
      CountAtLeastOne(xs[..|xs| - 1], v, i);
    }
  }

  /** The count is one exactly when no other place holds the value. */
  lemma {:induction false} CountOneIff(xs: seq<real>, v: real, i: nat)
    requires i < |xs| && xs[i] == v
    ensures CountEqual(xs, v) == 1 <==> forall j :: 0 <= j < |xs| && j != i ==> xs[j] != v
  {
    var n := |xs| - 1;
    var before := xs[..n];
    if i == n {
      if exists j :: 0 <= j < n && xs[j] == v {
        var j :| 0 <= j < n && xs[j] == v;
        CountAtLeastOne(before, v, j);
      } else {
        CountZero(before, v);
      }
    } else {
      CountOneIff(before, v, i);
      CountAtLeastOne(before, v, i);
      assert forall j :: 0 <= j < n ==> before[j] == xs[j];
    }
  }

  /** Candle `i` beats every other candle within `lookback` of it, strictly. */
  ghost predicate IsPivot(values: seq<real>, lookback: nat, higher: bool, i: int) {
    && lookback <= i < |values| - lookback
    && forall j :: i - lookback <= j <= i + lookback && j != i ==>
         if higher then values[j] < values[i] else values[j] > values[i]
  }

  /** The source's window test. */
  predicate Stands(values: seq<real>, lookback: nat, higher: bool, i: nat)
    requires lookback <= i < |values| - lookback
  {
    var window := values[i - lookback..i + lookback + 1];
    (values[i] == if higher then Largest(window) else Smallest(window)) && CountEqual(window, values[i]) == 1
  }

  /** `xs[m]` is the extreme of the list and occurs once exactly when it beats every other entry strictly. */
  lemma {:induction false} ExtremeOnceIff(xs: seq<real>, higher: bool, m: nat)
    requires m < |xs|
    ensures (xs[m] == (if higher then Largest(xs) else Smallest(xs))) && CountEqual(xs, xs[m]) == 1
       <==> forall k :: 0 <= k < |xs| && k != m ==> if higher then xs[k] < xs[m] else xs[k] > xs[m]
  {
    CountOneIff(xs, xs[m], m);
    var top := if higher then Largest(xs) else Smallest(xs);
    var t :| 0 <= t < |xs| && xs[t] == top;
  }

  /** Beating every other entry of the window is beating every other candle of it. */
  lemma {:induction false} WindowIff(values: seq<real>, lookback: nat, higher: bool, i: nat, window: seq<real>)
    requires lookback <= i < |values| - lookback && window == values[i - lookback..i + lookback + 1]
    ensures IsPivot(values, lookback, higher, i) <==>
      forall k :: 0 <= k < |window| && k != lookback ==>
        if higher then window[k] < window[lookback] else window[k] > window[lookback]
  {
    var lo := i - lookback;
    assert forall j :: lo <= j <= i + lookback ==> values[j] == window[j - lo];
    assert forall k :: 0 <= k < |window| ==> window[k] == values[lo + k];
  }

  lemma {:induction false} StandsIffPivot(values: seq<real>, lookback: nat, higher: bool, i: nat)
    requires lookback <= i < |values| - lookback
    ensures Stands(values, lookback, higher, i) <==> IsPivot(values, lookback, higher, i)
  {
    var window := values[i - lookback..i + lookback + 1];
    assert window[lookback] == values[i];
    ExtremeOnceIff(window, higher, lookback);
    WindowIff(values, lookback, higher, i, window);
  }

  ghost predicate Increasing(xs: seq<nat>) { forall i, j :: 0 <= i < j < |xs| ==> xs[i] < xs[j] }

  /** Exactly the strict local extremes, in order. */
  method FindPivots(values: seq<real>, lookback: nat, higher: bool) returns (pivots: seq<nat>)
    ensures Increasing(pivots)
    ensures forall i :: i in pivots <==> IsPivot(values, lookback, higher, i)
  {
    pivots := [];
    var i := lookback;
    while i < |values| - lookback
      invariant lookback <= i
      invariant Increasing(pivots) && forall a :: 0 <= a < |pivots| ==> pivots[a] < i
      invariant forall k :: k in pivots <==> k < i && IsPivot(values, lookback, higher, k)
    {
      StandsIffPivot(values, lookback, higher, i);
      if Stands(values, lookback, higher, i) {
        pivots := pivots + [i];
      }
      i := i + 1;
    }
  }

  /** Two pivots of one kind are more than `lookback` candles apart. */
  lemma {:induction false} PivotsApart(values: seq<real>, lookback: nat, higher: bool, i: int, j: int)
    requires IsPivot(values, lookback, higher, i) && IsPivot(values, lookback, higher, j) && i < j
    ensures j - i > lookback
  {
    if j - i <= lookback {
      Beats(values, lookback, higher, i, j);
      Beats(values, lookback, higher, j, i);
    }
  }

  lemma {:induction false} Beats(values: seq<real>, lookback: nat, higher: bool, i: int, j: int)
    requires IsPivot(values, lookback, higher, i) && i != j && i - lookback <= j <= i + lookback
    ensures if higher then values[j] < values[i] else values[j] > values[i]
  {
  }

  lemma {:induction false} SpacedFrom(values: seq<real>, lookback: nat, higher: bool, pivots: seq<nat>, k: nat)
    requires Increasing(pivots) && forall i <- pivots :: IsPivot(values, lookback, higher, i)
    requires k < |pivots|
    ensures pivots[k] >= lookback + k * (lookback + 1)
  {
    assert pivots[k] in pivots;
    if k > 0 {
      SpacedFrom(values, lookback, higher, pivots, k - 1);
      assert pivots[k - 1] in pivots;
      PivotsApart(values, lookback, higher, pivots[k - 1], pivots[k]);
      assert k * (lookback + 1) == (k - 1) * (lookback + 1) + (lookback + 1);
    }
  }

  /** So a series holds at most one pivot of a kind per `lookback + 1` candles. */
  lemma {:induction false} PivotCount(values: seq<real>, lookback: nat, higher: bool, pivots: seq<nat>)
    requires Increasing(pivots) && forall i <- pivots :: IsPivot(values, lookback, higher, i)
    requires pivots != []
    ensures |pivots| * (lookback + 1) <= |values| - lookback
  {
    var k := |pivots| - 1;
    SpacedFrom(values, lookback, higher, pivots, k);
    assert pivots[k] in pivots;
    assert |pivots| * (lookback + 1) == k * (lookback + 1) + (lookback + 1);
  }

  // --------------------------------------------------------------- clustering

  function Id(x: real): real { x }

  function Flatten(cs: seq<seq<real>>): seq<real> {
    if cs == [] then [] else cs[0] + Flatten(cs[1..])
  }

  function Last(c: seq<real>): real
    requires c != []
  {
    c[|c| - 1]
  }

  /** `b` is within the relative tolerance of the level below it. */
  predicate Near(a: real, b: real, tol: real) { b - a <= a * tol }

  ghost predicate Linked(c: seq<real>, k: nat, tol: real)
    requires k + 1 < |c|
  {
    Near(c[k], c[k + 1], tol)
  }

  ghost predicate Chained(c: seq<real>, tol: real) {
    c != [] && forall k :: 0 <= k < |c| - 1 ==> Linked(c, k, tol)
  }

  /** Run `k + 1` does not start near the end of run `k`. */
  ghost predicate Apart(cs: seq<seq<real>>, k: nat, tol: real)
    requires k + 1 < |cs|
  {
    cs[k] != [] && cs[k + 1] != [] && !Near(Last(cs[k]), cs[k + 1][0], tol)
  }

  ghost predicate Parted(cs: seq<seq<real>>, tol: real) {
    forall k :: 0 <= k < |cs| - 1 ==> Apart(cs, k, tol)
  }

  /** A partition of `xs` into runs: near inside a run, not near from one run to the next. */
  ghost predicate Partition(cs: seq<seq<real>>, xs: seq<real>, tol: real) {
    Flatten(cs) == xs && (forall k :: 0 <= k < |cs| ==> Chained(cs[k], tol)) && Parted(cs, tol)
  }

  lemma {:induction false} FlattenSnoc(cs: seq<seq<real>>, c: seq<real>)
    ensures Flatten(cs + [c]) == Flatten(cs) + c
  {
    if cs == [] {
      assert [c][1..] == [];
    } else {
      FlattenSnoc(cs[1..], c);
      assert (cs + [c])[1..] == cs[1..] + [c];
    }
  }

  lemma {:induction false} ChainSnoc(c: seq<real>, x: real, tol: real)
    requires Chained(c, tol) && Near(Last(c), x, tol)
    ensures Chained(c + [x], tol)
  {
    forall k | 0 <= k < |c| ensures Linked(c + [x], k, tol) {
      assert k + 1 < |c| ==> Linked(c, k, tol);
    }
  }

  lemma {:induction false} PartitionExtend(cs: seq<seq<real>>, c: seq<real>, xs: seq<real>, x: real, tol: real)
    requires Partition(cs + [c], xs, tol) && c != [] && Near(Last(c), x, tol)
    ensures Partition(cs + [c + [x]], xs + [x], tol)
  {
    FlattenSnoc(cs, c);
    FlattenSnoc(cs, c + [x]);
    var former, grown := cs + [c], cs + [c + [x]];
    assert Chained(former[|cs|], tol);
    forall k | 0 <= k < |grown| ensures Chained(grown[k], tol) {
      if k == |cs| {
        ChainSnoc(c, x, tol);
      } else {
        assert grown[k] == former[k];
      }
    }
    forall k | 0 <= k < |grown| - 1 ensures Apart(grown, k, tol) {
      assert Apart(former, k, tol);
      assert grown[k] == former[k] && grown[k + 1][0] == former[k + 1][0];
    }
  }

  lemma {:induction false} PartitionStart(cs: seq<seq<real>>, c: seq<real>, xs: seq<real>, x: real, tol: real)
    requires Partition(cs + [c], xs, tol) && c != [] && !Near(Last(c), x, tol)
    ensures Partition(cs + [c] + [[x]], xs + [x], tol)
  {
    FlattenSnoc(cs + [c], [x]);
    var former, grown := cs + [c], cs + [c] + [[x]];
    forall k | 0 <= k < |grown| ensures Chained(grown[k], tol) {
      assert k < |former| ==> grown[k] == former[k];
    }
    forall k | 0 <= k < |grown| - 1 ensures Apart(grown, k, tol) {
      assert k + 1 < |former| ==> Apart(former, k, tol);
      assert grown[k] == former[k];
    }
  }

  /** One turn of the loop: extend the last cluster or start a new one. */
  method PlaceLevel(clusters: seq<seq<real>>, price: real, tol: real, ghost done: seq<real>)
    returns (more: seq<seq<real>>)
    requires clusters != [] && Partition(clusters, done, tol)
    ensures more != [] && Partition(more, done + [price], tol)
  {
    var n := |clusters| - 1;
    var last := clusters[n];
    ghost var before := clusters[..n];
    assert clusters == before + [last] && Chained(clusters[n], tol);
    if price - Last(last) <= Last(last) * tol {
      PartitionExtend(before, last, done, price, tol);
      more := clusters[n := last + [price]];
      assert more == before + [last + [price]];
    } else {
      PartitionStart(before, last, done, price, tol);
      more := clusters + [[price]];
    }
  }

  lemma {:induction false} PartitionOne(x: real, tol: real)
    ensures Partition([[x]], [x], tol)
  {
  }

  /** The loop over sorted levels: each one joins the last cluster when it is near its end. */
  method ClusterSorted(sorted: seq<real>, tol: real) returns (clusters: seq<seq<real>>)
    requires sorted != []
    ensures Partition(clusters, sorted, tol)
  {
    clusters := [[sorted[0]]];
    PartitionOne(sorted[0], tol);
    assert sorted[..1] == [sorted[0]];
    var i := 1;
    while i < |sorted|
      invariant 1 <= i <= |sorted| && clusters != []
      invariant Partition(clusters, sorted[..i], tol)
    {
      assert sorted[..i + 1] == sorted[..i] + [sorted[i]];
      clusters := PlaceLevel(clusters, sorted[i], tol, sorted[..i]);
      i := i + 1;
    }
    assert sorted[..i] == sorted;
  }

  /** Groups the levels, sorted, into runs of near neighbours. */
  method Cluster(levels: seq<real>, tol: real) returns (clusters: seq<seq<real>>)
    ensures Partition(clusters, StableSort(levels, Id), tol)
  {
    clusters := [];
    if levels != [] {
      clusters := ClusterSorted(StableSort(levels, Id), tol);
    }
  }

  lemma {:induction false} PartitionRest(cs: seq<seq<real>>, xs: seq<real>, tol: real)
    requires Partition(cs, xs, tol) && cs != []
    ensures |cs[0]| <= |xs| && xs[..|cs[0]|] == cs[0] && cs[0] != []
    ensures Partition(cs[1..], xs[|cs[0]|..], tol)
    ensures |xs| > |cs[0]| <==> |cs| > 1
    ensures |cs| > 1 ==> xs[|cs[0]|] == cs[1][0]
  {
    assert Chained(cs[0], tol);
    var rest := cs[1..];
    forall k | 0 <= k < |rest| ensures Chained(rest[k], tol) {
      assert rest[k] == cs[k + 1];
    }
    forall k | 0 <= k < |rest| - 1 ensures Apart(rest, k, tol) {
      assert Apart(cs, k + 1, tol);
    }
    if |cs| > 1 {
      assert Chained(cs[1], tol);
      assert Flatten(rest) == rest[0] + Flatten(rest[1..]);
    }
  }

  lemma {:induction false} FirstBreak(cs: seq<seq<real>>, xs: seq<real>, tol: real)
    requires Partition(cs, xs, tol) && |cs| > 1
    ensures 0 < |cs[0]| < |xs| && !Near(xs[|cs[0]| - 1], xs[|cs[0]|], tol)
  {
    PartitionRest(cs, xs, tol);
    assert Apart(cs, 0, tol);
    assert xs[..|cs[0]|][|cs[0]| - 1] == Last(cs[0]);
  }

  lemma {:induction false} FirstRun(ds: seq<seq<real>>, xs: seq<real>, tol: real, k: nat)
    requires Partition(ds, xs, tol) && ds != [] && k + 1 < |ds[0]|
    ensures k + 1 < |xs| && Near(xs[k], xs[k + 1], tol)
  {
    PartitionRest(ds, xs, tol);
    assert Chained(ds[0], tol) && Linked(ds[0], k, tol);
    assert xs[..|ds[0]|][k] == ds[0][k] && xs[..|ds[0]|][k + 1] == ds[0][k + 1];
  }

  /** A first run cannot stop earlier than another first run of the same list. */
  lemma {:induction false} FirstNotShorter(cs: seq<seq<real>>, ds: seq<seq<real>>, xs: seq<real>, tol: real)
    requires Partition(cs, xs, tol) && Partition(ds, xs, tol) && cs != [] && ds != []
    ensures |cs[0]| >= |ds[0]|
  {
    PartitionRest(cs, xs, tol);
    PartitionRest(ds, xs, tol);
    if |cs[0]| < |ds[0]| {
      FirstRun(ds, xs, tol, |cs[0]| - 1);
      FirstBreak(cs, xs, tol);
    }
  }

  /** There is only one such partition of a list. */
  lemma {:induction false} PartitionUnique(cs: seq<seq<real>>, ds: seq<seq<real>>, xs: seq<real>, tol: real)
    requires Partition(cs, xs, tol) && Partition(ds, xs, tol)
    ensures cs == ds
    decreases |cs|
  {
    if cs == [] {
      if ds != [] {
        PartitionRest(ds, xs, tol);
      }
    } else {
      PartitionRest(cs, xs, tol);
      if ds != [] {
        FirstNotShorter(cs, ds, xs, tol);
        FirstNotShorter(ds, cs, xs, tol);
        PartitionRest(ds, xs, tol);
        PartitionUnique(cs[1..], ds[1..], xs[|cs[0]|..], tol);
        assert cs == [cs[0]] + cs[1..] && ds == [ds[0]] + ds[1..];
      }
    }
  }

  // -------------------------------------------------------------------- means

  function Mean(c: seq<real>): real
    requires c != []
  {
    SumBy(c, Id) / |c| as real
  }

  function Deviation(m: real): real -> real { (x: real) => x - m }

  lemma {:induction false} DeviationSum(c: seq<real>, m: real)
    ensures SumBy(c, Deviation(m)) == SumBy(c, Id) - m * |c| as real
  {
    if c != [] {
      DeviationSum(c[1..], m);
      assert m * |c| as real == m + m * |c[1..]| as real;
    }
  }

  /** The mean of a cluster is the one price its levels deviate from by nothing in total. */
  lemma {:induction false} MeanIff(c: seq<real>, m: real)
    requires c != []
    ensures SumBy(c, Deviation(m)) == 0.0 <==> m == Mean(c)
  {
    DeviationSum(c, m);
    var n := |c| as real;
    assert Mean(c) * n == SumBy(c, Id);
    NonNegativeFactor(m - Mean(c), n);
    NonNegativeFactor(Mean(c) - m, n);
  }

  /** Neighbours inside a cluster differ by at most the tolerance of the lower one, and the last level
      of a cluster and the first of the next by more. */
  lemma {:induction false} ClusterGaps(cs: seq<seq<real>>, xs: seq<real>, tol: real, k: nat, i: nat)
    requires Partition(cs, xs, tol) && k < |cs|
    ensures cs[k] != []
    ensures i + 1 < |cs[k]| ==> cs[k][i + 1] - cs[k][i] <= cs[k][i] * tol
    ensures k + 1 < |cs| ==> cs[k + 1] != [] && cs[k + 1][0] - cs[k][|cs[k]| - 1] > cs[k][|cs[k]| - 1] * tol
  {
    assert Chained(cs[k], tol);
    assert i + 1 < |cs[k]| ==> Linked(cs[k], i, tol);
    assert k + 1 < |cs| ==> Apart(cs, k, tol);
  }

  lemma {:induction false} SumWithin(c: seq<real>, lo: real, hi: real)
    requires forall k :: 0 <= k < |c| ==> lo <= c[k] <= hi
    ensures lo * |c| as real <= SumBy(c, Id) <= hi * |c| as real
  {
    if c != [] {
      var rest := c[1..];
      assert forall k :: 0 <= k < |rest| ==> rest[k] == c[k + 1];
      SumWithin(rest, lo, hi);
      assert lo * |c| as real == lo + lo * |rest| as real;
      assert hi * |c| as real == hi + hi * |rest| as real;
    }
  }

  lemma {:induction false} DivideWithin(s: real, n: real, lo: real, hi: real)
    requires n > 0.0 && lo * n <= s <= hi * n
    ensures lo <= s / n <= hi
  {
  }

  lemma {:induction false} MeanWithin(c: seq<real>)
    requires c != [] && SortedBy(c, Id)
    ensures c[0] <= Mean(c) <= Last(c)
  {
    assert forall k :: 0 <= k < |c| ==> Id(c[0]) <= Id(c[k]) <= Id(Last(c));
    SumWithin(c, c[0], Last(c));
    DivideWithin(SumBy(c, Id), |c| as real, c[0], Last(c));
  }

  ghost predicate Positive(xs: seq<real>) { forall k :: 0 <= k < |xs| ==> xs[k] > 0.0 }

  lemma {:induction false} FarIsAbove(a: real, b: real, tol: real)
    requires a > 0.0 && tol >= 0.0 && !Near(a, b, tol)
    ensures a < b
  {
  }

  /** For positive sorted levels the cluster means strictly increase. */
  lemma {:induction false} MeansIncrease(cs: seq<seq<real>>, xs: seq<real>, tol: real, k: nat)
    requires Partition(cs, xs, tol) && SortedBy(xs, Id) && Positive(xs) && tol >= 0.0
    requires k + 1 < |cs|
    ensures cs[k] != [] && cs[k + 1] != [] && Mean(cs[k]) < Mean(cs[k + 1])
    decreases |cs|
  {
    PartitionRest(cs, xs, tol);
    var rest := xs[|cs[0]|..];
    if k > 0 {
      assert forall i :: 0 <= i < |rest| ==> rest[i] == xs[i + |cs[0]|];
      MeansIncrease(cs[1..], rest, tol, k - 1);
    } else {
      assert cs[1] == cs[1..][0];
      PartitionRest(cs[1..], rest, tol);
      assert forall i :: 0 <= i < |cs[0]| ==> cs[0][i] == xs[i];
      assert forall i :: 0 <= i < |cs[1]| ==> cs[1][i] == xs[i + |cs[0]|];
      MeanWithin(cs[0]);
      MeanWithin(cs[1]);
      assert Apart(cs, 0, tol);
      FarIsAbove(Last(cs[0]), cs[1][0], tol);
    }
  }

  // -------------------------------------------------------------------- zones

  datatype Zone = Zone(price: real, strength: nat, lastTouch: real)

  function Weakness(z: Zone): real { -(z.strength as real) }

  function ToZones(cs: seq<seq<real>>): (zs: seq<Zone>)
    requires forall k :: 0 <= k < |cs| ==> cs[k] != []
    ensures |zs| == |cs|
    ensures forall k :: 0 <= k < |cs| ==> zs[k] == Zone(Mean(cs[k]), |cs[k]|, Last(cs[k]))
  {
    if cs == [] then []
    else
      assert forall k :: 0 <= k < |cs[1..]| ==> cs[1..][k] == cs[k + 1];
      [Zone(Mean(cs[0]), |cs[0]|, Last(cs[0]))] + ToZones(cs[1..])
  }

  /** The three strongest zones, strongest first, ties in price order. */
  method Zones(levels: seq<real>, tol: real) returns (zones: seq<Zone>, clusters: seq<seq<real>>)
    ensures Partition(clusters, StableSort(levels, Id), tol)
    ensures forall k :: 0 <= k < |clusters| ==> clusters[k] != []
    ensures var ranked := StableSort(ToZones(clusters), Weakness);
      zones == if |ranked| > 3 then ranked[..3] else ranked
  {
    var cs := Cluster(levels, tol);
    assert forall k :: 0 <= k < |cs| ==> Chained(cs[k], tol);
    clusters := cs;
    var ranked := StableSort(ToZones(cs), Weakness);
    zones := if |ranked| > 3 then ranked[..3] else ranked;
  }

  /** No cluster left out of the reported zones is stronger than one that is in. */
  lemma {:induction false} StrongestKept(cs: seq<seq<real>>, zones: seq<Zone>, i: nat, j: nat)
    requires forall k :: 0 <= k < |cs| ==> cs[k] != []
    requires var ranked := StableSort(ToZones(cs), Weakness); zones == if |ranked| > 3 then ranked[..3] else ranked
    requires i < |zones| && j < |cs|
    ensures zones[i].strength >= |cs[j]| || ToZones(cs)[j] in zones
  {
    var all := ToZones(cs);
    var ranked := StableSort(all, Weakness);
    assert all[j] in multiset(ranked);
    var k :| 0 <= k < |ranked| && ranked[k] == all[j];
    if k > i {
      assert Weakness(ranked[i]) <= Weakness(ranked[k]);
    } else {
      assert zones[k] == ranked[k];
    }
  }

  lemma {:induction false} MeansSorted(cs: seq<seq<real>>, xs: seq<real>, tol: real, i: nat, j: nat)
    requires Partition(cs, xs, tol) && SortedBy(xs, Id) && Positive(xs) && tol >= 0.0
    requires i < j < |cs|
    ensures cs[i] != [] && cs[j] != [] && Mean(cs[i]) < Mean(cs[j])
    decreases j - i
  {
    MeansIncrease(cs, xs, tol, j - 1);
    if i < j - 1 {
      MeansSorted(cs, xs, tol, i, j - 1);
    }
  }

  /** Zones of equal strength are reported from the lowest price up. */
  lemma {:induction false} TiesByPrice(cs: seq<seq<real>>, xs: seq<real>, tol: real, zones: seq<Zone>, i: nat, j: nat)
    requires Partition(cs, xs, tol) && SortedBy(xs, Id) && Positive(xs) && tol >= 0.0
    requires forall k :: 0 <= k < |cs| ==> cs[k] != []
    requires zones == StableSort(ToZones(cs), Weakness)
    requires i < j < |zones| && zones[i].strength == zones[j].strength
    ensures zones[i].price < zones[j].price
  {
    var all := ToZones(cs);
    var key := Weakness(zones[i]);
    StableSortKeepsTies(all, Weakness, key);
    var a, b := FilterOrder(zones, HasKey(Weakness, key), i, j);
    var k, l := FilterSource(all, HasKey(Weakness, key), a, b);
    MeansSorted(cs, xs, tol, k, l);
  }
}
