/** Volume profile: binning, the point of control and the 70% value area. */
module VolumeProfile {
  import opened Lists

  datatype Bar = Bar(high: real, low: real, close: real, volume: real)

  datatype Profile = Profile(poc: real, valueAreaHigh: real, valueAreaLow: real)

  function Close(b: Bar): real { b.close }
  function Volume(b: Bar): real { b.volume }
  function Id(x: real): real { x }

  // ------------------------------------------------------------------- binning

  /** `numpy.linspace(lo, hi, bins + 1)[k]` */
  function Edge(lo: real, hi: real, bins: nat, k: nat): real
    requires bins > 0
  {
    lo + (hi - lo) * (k as real / bins as real)
  }

  /** `numpy.digitize`: how many of the first `n` edges are at or below `x`. */
  function EdgesBelow(x: real, lo: real, hi: real, bins: nat, n: nat): (r: nat)
    requires bins > 0
    ensures r <= n
  {
    if n == 0 then 0 else EdgesBelow(x, lo, hi, bins, n - 1) + (if Edge(lo, hi, bins, n - 1) <= x then 1 else 0)
  }

  function BinOf(x: real, lo: real, hi: real, bins: nat): (k: nat)
    requires bins > 0
    ensures k < bins
  {
    var i: int := EdgesBelow(x, lo, hi, bins, bins + 1) - 1;
    if i < 0 then 0 else if i > bins - 1 then bins - 1 else i
  }

  function Zeros(n: nat): (r: seq<real>)
    ensures |r| == n && forall i :: 0 <= i < n ==> r[i] == 0.0
  {
    seq(n, i => 0.0)
  }

  function AddAt(v: seq<real>, k: nat, x: real): seq<real>
    requires k < |v|
  {
    v[k := v[k] + x]
  }

  function Histogram(bars: seq<Bar>, lo: real, hi: real, bins: nat): (v: seq<real>)
    requires bins > 0
    ensures |v| == bins
  {
    if bars == [] then Zeros(bins)
    else
      var b := bars[|bars| - 1];
      AddAt(Histogram(bars[..|bars| - 1], lo, hi, bins), BinOf(b.close, lo, hi, bins), b.volume)
  }

  lemma {:induction false} EdgeStep(lo: real, hi: real, bins: nat, k: nat)
    requires bins > 0 && lo < hi
    ensures Edge(lo, hi, bins, k) < Edge(lo, hi, bins, k + 1)
    ensures Edge(lo, hi, bins, 0) == lo && Edge(lo, hi, bins, bins) == hi
  {
  }

  lemma {:induction false} EdgesOrdered(lo: real, hi: real, bins: nat, i: nat, j: nat)
    requires bins > 0 && lo < hi && i <= j
    ensures Edge(lo, hi, bins, i) <= Edge(lo, hi, bins, j)
  {
  }

  /** The count says which edges are below: the first `r`, and no other. */
  lemma {:induction false} EdgesBelowSplit(x: real, lo: real, hi: real, bins: nat, n: nat)
    requires bins > 0 && lo < hi
    ensures var r := EdgesBelow(x, lo, hi, bins, n);
      && (r > 0 ==> Edge(lo, hi, bins, r - 1) <= x)
      && (r < n ==> x < Edge(lo, hi, bins, r))
  {
    if n > 0 {
      EdgesBelowSplit(x, lo, hi, bins, n - 1);
      var r := EdgesBelow(x, lo, hi, bins, n - 1);
      if r < n - 1 {
        EdgesOrdered(lo, hi, bins, r, n - 1);
      }
    }
  }

  /** The bins are equally wide. */
  lemma {:induction false} EqualBins(lo: real, hi: real, bins: nat, k: nat)
    requires bins > 0
    ensures Edge(lo, hi, bins, k + 1) - Edge(lo, hi, bins, k) == (hi - lo) / bins as real
  {
    var n := bins as real;
    assert (k + 1) as real / n == k as real / n + 1.0 / n;
    assert (hi - lo) * (1.0 / n) == (hi - lo) / n;
  }

  /** A close outside the range goes to the end bin on its side. */
  lemma {:induction false} BinOutside(x: real, lo: real, hi: real, bins: nat)
    requires bins > 0 && lo < hi
    ensures x < lo ==> BinOf(x, lo, hi, bins) == 0
    ensures x > hi ==> BinOf(x, lo, hi, bins) == bins - 1
  {
    EdgesBelowSplit(x, lo, hi, bins, bins + 1);
    EdgeStep(lo, hi, bins, 0);
    var r := EdgesBelow(x, lo, hi, bins, bins + 1);
    if x < lo && r > 0 {
      EdgesOrdered(lo, hi, bins, 0, r - 1);
    }
    if x > hi && r < bins + 1 {
      EdgesOrdered(lo, hi, bins, r, bins);
    }
  }

  /** A close inside the range lands in the bin whose edges enclose it; the top edge goes to
      the last bin. */
  lemma {:induction false} BinEncloses(x: real, lo: real, hi: real, bins: nat)
    requires bins > 0 && lo < hi && lo <= x <= hi
    ensures var k := BinOf(x, lo, hi, bins);
      && Edge(lo, hi, bins, k) <= x <= Edge(lo, hi, bins, k + 1)
      && (x == Edge(lo, hi, bins, k + 1) ==> k == bins - 1)
  {
    EdgesBelowSplit(x, lo, hi, bins, bins + 1);
    EdgeStep(lo, hi, bins, 0);
    var r := EdgesBelow(x, lo, hi, bins, bins + 1);
    if r == bins + 1 {
      EdgeStep(lo, hi, bins, bins - 1);
    }
  }

  function InBin(lo: real, hi: real, bins: nat, k: nat): Bar -> bool
    requires bins > 0
  {
    (b: Bar) => BinOf(b.close, lo, hi, bins) == k
  }

  /** Each bin holds the volume of the candles that close in it. */
  lemma {:induction false} BinHolds(bars: seq<Bar>, lo: real, hi: real, bins: nat, k: nat)
    requires k < bins
    ensures Histogram(bars, lo, hi, bins)[k] == SumBy(Filter(bars, InBin(lo, hi, bins, k)), Volume)
  {
    if bars != [] {
      var before, b := bars[..|bars| - 1], bars[|bars| - 1];
      BinHolds(before, lo, hi, bins, k);
      assert bars == before + [b];
      FilterConcat(before, [b], InBin(lo, hi, bins, k));
      FilterOne(b, InBin(lo, hi, bins, k));
      if InBin(lo, hi, bins, k)(b) {
        SumBySnoc(Filter(before, InBin(lo, hi, bins, k)), b, Volume);
      } else {
        assert Filter(before, InBin(lo, hi, bins, k)) + [] == Filter(before, InBin(lo, hi, bins, k));
      }
    }
  }

  lemma {:induction false} SumZeros(v: seq<real>)
    requires forall i :: 0 <= i < |v| ==> v[i] == 0.0
    ensures SumBy(v, Id) == 0.0
  {
    if v != [] {
      assert forall i :: 0 <= i < |v[1..]| ==> v[1..][i] == v[i + 1];
      SumZeros(v[1..]);
    }
  }

  /** Binning conserves volume, whatever the closes. */
  lemma {:induction false} BinningConserves(bars: seq<Bar>, lo: real, hi: real, bins: nat)
    requires bins > 0
    ensures SumBy(Histogram(bars, lo, hi, bins), Id) == SumBy(bars, Volume)
  {
    if bars == [] {
      SumZeros(Zeros(bins));
    } else {
      var before := bars[..|bars| - 1];
      var b := bars[|bars| - 1];
      BinningConserves(before, lo, hi, bins);
      var h := Histogram(before, lo, hi, bins);
      var k := BinOf(b.close, lo, hi, bins);
      SumByUpdateAt(h, k, h[k] + b.volume, Id);
      assert bars == before + [b];
      SumBySnoc(before, b, Volume);
    }
  }

  ghost predicate NonNegative(v: seq<real>) { forall i :: 0 <= i < |v| ==> v[i] >= 0.0 }

  lemma {:induction false} HistogramNonNegative(bars: seq<Bar>, lo: real, hi: real, bins: nat)
    requires bins > 0 && forall b <- bars :: b.volume >= 0.0
    ensures NonNegative(Histogram(bars, lo, hi, bins))
  {
    if bars != [] {
      assert bars[|bars| - 1] in bars;
      HistogramNonNegative(bars[..|bars| - 1], lo, hi, bins);
    }
  }

  // ---------------------------------------------------------------- value area

  /** `numpy.argmax`: the first index of the maximum among the first `n`. */
  function ArgMax(v: seq<real>, n: nat): (k: nat)
    requires 0 < n <= |v|
    ensures k < n && forall i :: 0 <= i < n ==> v[i] <= v[k]
    ensures forall i :: 0 <= i < k ==> v[i] < v[k]
  {
    if n == 1 then 0 else var k := ArgMax(v, n - 1); if v[n - 1] > v[k] then n - 1 else k
  }

  function Area(v: seq<real>, lo: nat, hi: nat): real
    requires lo <= hi < |v|
  {
    SumBy(v[lo..hi + 1], Id)
  }

  function UpStep(v: seq<real>, lo: nat, hi: nat): bool
    requires lo <= hi < |v|
  {
    (if hi < |v| - 1 then v[hi + 1] else -1.0) >= (if lo > 0 then v[lo - 1] else -1.0)
  }

  /** The greedy growth of the interval [lo, hi] until it holds `target`. */
  function Grow(v: seq<real>, target: real, lo: nat, hi: nat): (r: (nat, nat))
    requires lo <= hi < |v| && NonNegative(v)
    ensures r.0 <= lo && hi <= r.1 < |v|
    decreases |v| - (hi - lo)
  {
    if Area(v, lo, hi) >= target || (lo == 0 && hi == |v| - 1) then (lo, hi)
    else if UpStep(v, lo, hi) then Grow(v, target, lo, hi + 1)
    else Grow(v, target, lo - 1, hi)
  }

  lemma {:induction false} AreaWhole(v: seq<real>)
    requires v != []
    ensures Area(v, 0, |v| - 1) == SumBy(v, Id)
  {
    assert v[0..|v|] == v;
  }

  lemma {:induction false} AreaOne(v: seq<real>, k: nat)
    requires k < |v|
    ensures Area(v, k, k) == v[k]
  {
    assert v[k..k + 1] == [] + [v[k]];
    SumBySnoc([], v[k], Id);
  }

  /** The bin that turns [lo2, hi2] into [lo, hi] is the fuller of the two beside it, the upper one
      on a tie. */
  ghost predicate Fuller(v: seq<real>, lo: nat, hi: nat, lo2: nat, hi2: nat)
    requires lo <= lo2 <= hi2 <= hi < |v|
  {
    if hi2 < hi then lo2 == 0 || v[hi] >= v[lo2 - 1] else hi2 == |v| - 1 || v[lo] > v[hi2 + 1]
  }

  /** The last interval before the final growth step, when there was one. */
  ghost predicate JustShort(v: seq<real>, target: real, poc: nat, lo: nat, hi: nat, lo2: nat, hi2: nat) {
    && lo <= lo2 <= poc <= hi2 <= hi < |v| && hi2 - lo2 + 1 == hi - lo
    && Area(v, lo2, hi2) < target && Fuller(v, lo, hi, lo2, hi2)
  }

  /** Growth ends with an interval around its start that holds the target, and held less than
      the target one step before, which took the fuller neighbour. */
  lemma {:induction false} GrowReaches(v: seq<real>, target: real, poc: nat, lo: nat, hi: nat) returns (lo2: nat, hi2: nat)
    requires lo <= poc <= hi < |v| && NonNegative(v) && target <= SumBy(v, Id)
    requires (lo == poc == hi) || exists a, b :: JustShort(v, target, poc, lo, hi, a, b)
    ensures var (l, h) := Grow(v, target, lo, hi);
      && l <= poc <= h < |v| && Area(v, l, h) >= target
      && ((l == poc == h) || JustShort(v, target, poc, l, h, lo2, hi2))
    decreases |v| - (hi - lo)
  {
    AreaWhole(v);
    if Area(v, lo, hi) >= target || (lo == 0 && hi == |v| - 1) {
      lo2, hi2 := lo, hi;
      if !(lo == poc == hi) {
        lo2, hi2 :| JustShort(v, target, poc, lo, hi, lo2, hi2);
      }
    } else if UpStep(v, lo, hi) {
      assert JustShort(v, target, poc, lo, hi + 1, lo, hi);
      lo2, hi2 := GrowReaches(v, target, poc, lo, hi + 1);
    } else {
      assert JustShort(v, target, poc, lo - 1, hi, lo, hi);
      lo2, hi2 := GrowReaches(v, target, poc, lo - 1, hi);
    }
  }

  // ------------------------------------------------------------------ optimality

  /** Volumes rise to the point of control and fall after it. */
  ghost predicate Unimodal(v: seq<real>, poc: nat) {
    && (forall i, j :: 0 <= i <= j <= poc && j < |v| ==> v[i] <= v[j])
    && (forall i, j :: poc <= i <= j < |v| ==> v[j] <= v[i])
  }

  /** Every bin inside is at least as full as every bin outside. */
  ghost predicate TopInterval(v: seq<real>, lo: nat, hi: nat) {
    lo <= hi < |v| && forall i, j :: lo <= i <= hi && 0 <= j < |v| && !(lo <= j <= hi) ==> v[j] <= v[i]
  }

  lemma {:induction false} TopStart(v: seq<real>, poc: nat)
    requires poc < |v| && Unimodal(v, poc)
    ensures TopInterval(v, poc, poc)
  {
  }

  lemma {:induction false} TopStep(v: seq<real>, poc: nat, lo: nat, hi: nat)
    requires lo <= poc <= hi < |v| && Unimodal(v, poc) && NonNegative(v) && TopInterval(v, lo, hi)
    requires !(lo == 0 && hi == |v| - 1)
    ensures if UpStep(v, lo, hi) then TopInterval(v, lo, hi + 1) else lo > 0 && TopInterval(v, lo - 1, hi)
  {
  }

  /** A set of bins, as a membership mask. */
  function MaskSum(v: seq<real>, m: seq<bool>): real
    requires |m| == |v|
  {
    if v == [] then 0.0
    else MaskSum(v[..|v| - 1], m[..|v| - 1]) + (if m[|v| - 1] then v[|v| - 1] else 0.0)
  }

  function MaskCount(m: seq<bool>): nat {
    if m == [] then 0 else MaskCount(m[..|m| - 1]) + (if m[|m| - 1] then 1 else 0)
  }

  function IntervalMask(n: nat, lo: nat, hi: nat): (m: seq<bool>)
    ensures |m| == n && forall i :: 0 <= i < n ==> m[i] == (lo <= i <= hi)
  {
    seq(n, i => lo <= i <= hi)
  }

  function Lift(t: real, c: nat): real { t * c as real }

  lemma {:induction false} LiftSuc(t: real, c: nat)
    ensures Lift(t, c + 1) == Lift(t, c) + t
  {
  }

  lemma {:induction false} LiftMono(t: real, a: nat, b: nat)
    requires t >= 0.0 && a <= b
    ensures Lift(t, a) <= Lift(t, b)
  {
  }

  /** Counting each bin above a level `t`: no set beats the set of bins at or above `t`. */
  lemma {:induction false} ThresholdBest(v: seq<real>, m: seq<bool>, top: seq<bool>, t: real)
    requires |m| == |top| == |v|
    requires forall i :: 0 <= i < |v| ==> if top[i] then v[i] >= t else v[i] <= t
    ensures MaskSum(v, m) - Lift(t, MaskCount(m)) <= MaskSum(v, top) - Lift(t, MaskCount(top))
  {
    if v != [] {
      var n := |v| - 1;
      ThresholdBest(v[..n], m[..n], top[..n], t);
      LiftSuc(t, MaskCount(m[..n]));
      LiftSuc(t, MaskCount(top[..n]));
    }
  }

  lemma {:induction false} IntervalMaskPrefix(n: nat, lo: nat, hi: nat)
    requires n > 0
    ensures IntervalMask(n, lo, hi)[..n - 1] == IntervalMask(n - 1, lo, hi)
  {
  }

  lemma {:induction false} IntervalMaskBefore(v: seq<real>, lo: nat, hi: nat)
    requires |v| <= lo
    ensures MaskSum(v, IntervalMask(|v|, lo, hi)) == 0.0 && MaskCount(IntervalMask(|v|, lo, hi)) == 0
  {
    if v != [] {
      IntervalMaskPrefix(|v|, lo, hi);
      IntervalMaskBefore(v[..|v| - 1], lo, hi);
    }
  }

  /** The mask of an interval has its area and its width. */
  lemma {:induction false} IntervalMaskArea(v: seq<real>, lo: nat, hi: nat)
    requires lo <= hi < |v|
    ensures MaskSum(v, IntervalMask(|v|, lo, hi)) == Area(v, lo, hi)
    ensures MaskCount(IntervalMask(|v|, lo, hi)) == hi - lo + 1
  {
    var n := |v| - 1;
    var w := v[..n];
    IntervalMaskPrefix(|v|, lo, hi);
    if hi < n {
      IntervalMaskArea(w, lo, hi);
      assert w[lo..hi + 1] == v[lo..hi + 1];
    } else {
      assert v[lo..hi + 1] == v[lo..hi] + [v[hi]];
      SumBySnoc(v[lo..hi], v[hi], Id);
      if lo < hi {
        IntervalMaskAll(w, lo, hi);
        IntervalMaskArea(w, lo, hi - 1);
        assert w[lo..hi] == v[lo..hi];
      } else {
        IntervalMaskBefore(w, lo, hi);
      }
    }
  }

  lemma {:induction false} IntervalMaskAll(v: seq<real>, lo: nat, hi: nat)
    requires hi == |v| && lo < hi
    ensures IntervalMask(|v|, lo, hi) == IntervalMask(|v|, lo, hi - 1)
  {
  }

  lemma {:induction false} LeastInside(v: seq<real>, lo: nat, hi: nat) returns (k: nat)
    requires lo <= hi < |v|
    ensures lo <= k <= hi && forall i :: lo <= i <= hi ==> v[k] <= v[i]
    decreases hi - lo
  {
    k := hi;
    if lo < hi {
      k := LeastInside(v, lo, hi - 1);
      if v[hi] < v[k] {
        k := hi;
      }
    }
  }

  /** No set of at most as many bins holds more than a top interval. */
  lemma {:induction false} TopIntervalBest(v: seq<real>, lo: nat, hi: nat, m: seq<bool>)
    requires NonNegative(v) && TopInterval(v, lo, hi) && |m| == |v| && MaskCount(m) <= hi - lo + 1
    ensures MaskSum(v, m) <= Area(v, lo, hi)
  {
    var k := LeastInside(v, lo, hi);
    var top := IntervalMask(|v|, lo, hi);
    ThresholdBest(v, m, top, v[k]);
    IntervalMaskArea(v, lo, hi);
    LiftMono(v[k], MaskCount(m), MaskCount(top));
  }

  /** Along the growth every interval is a top interval, so the one just short of the target is. */
  lemma {:induction false} GrowOptimalFrom(v: seq<real>, target: real, poc: nat, lo: nat, hi: nat, m: seq<bool>)
    requires lo <= poc <= hi < |v| && NonNegative(v) && Unimodal(v, poc) && TopInterval(v, lo, hi)
    requires |m| == |v| && MaskSum(v, m) >= target && MaskCount(m) >= hi - lo + 1
    ensures var (l, h) := Grow(v, target, lo, hi); MaskCount(m) >= h - l + 1
    decreases |v| - (hi - lo)
  {
    if Area(v, lo, hi) < target && !(lo == 0 && hi == |v| - 1) {
      if MaskCount(m) <= hi - lo + 1 {
        TopIntervalBest(v, lo, hi, m);
      }
      TopStep(v, poc, lo, hi);
      if UpStep(v, lo, hi) {
        GrowOptimalFrom(v, target, poc, lo, hi + 1, m);
      } else {
        GrowOptimalFrom(v, target, poc, lo - 1, hi, m);
      }
    }
  }

  lemma {:induction false} EmptyMask(v: seq<real>, m: seq<bool>)
    requires |m| == |v| && MaskCount(m) == 0
    ensures MaskSum(v, m) == 0.0
  {
    if v != [] {
      EmptyMask(v[..|v| - 1], m[..|v| - 1]);
    }
  }

  function Target(v: seq<real>): real { 0.70 * SumBy(v, Id) }

  function ValueArea(v: seq<real>): (nat, nat)
    requires v != [] && NonNegative(v)
  {
    Grow(v, Target(v), ArgMax(v, |v|), ArgMax(v, |v|))
  }

  /** For any nonnegative histogram: a contiguous run of bins around the point of control that
      holds 70% of the volume, and that held less before its last bin was added. */
  lemma {:induction false} ValueAreaHolds(v: seq<real>) returns (lo2: nat, hi2: nat)
    requires v != [] && NonNegative(v)
    ensures var (l, h) := ValueArea(v);
      var poc := ArgMax(v, |v|);
      && l <= poc <= h < |v| && Area(v, l, h) >= Target(v)
      && ((l == poc == h) || JustShort(v, Target(v), poc, l, h, lo2, hi2))
  {
    SumNonNegative(v, Id);
    lo2, hi2 := GrowReaches(v, Target(v), ArgMax(v, |v|), ArgMax(v, |v|), ArgMax(v, |v|));
  }

  /** On a histogram that is unimodal around its point of control, no set of bins whatever
      reaches 70% of the volume with fewer bins than the value area has. */
  lemma {:induction false} ValueAreaOptimal(v: seq<real>, m: seq<bool>)
    requires v != [] && NonNegative(v) && SumBy(v, Id) > 0.0 && Unimodal(v, ArgMax(v, |v|))
    requires |m| == |v| && MaskSum(v, m) >= Target(v)
    ensures var (l, h) := ValueArea(v); MaskCount(m) >= h - l + 1
  {
    if MaskCount(m) == 0 {
      EmptyMask(v, m);
    }
    TopStart(v, ArgMax(v, |v|));
    GrowOptimalFrom(v, Target(v), ArgMax(v, |v|), ArgMax(v, |v|), ArgMax(v, |v|), m);
  }

  // ------------------------------------------------- the exact condition

  function Without<T>(xs: seq<T>, i: nat): (r: seq<T>)
    requires i < |xs|
    ensures |r| == |xs| - 1
  {
    xs[..i] + xs[i + 1..]
  }

  /** The total volume of the `k` fullest bins. */
  function Fullest(v: seq<real>, k: nat): real {
    if k == 0 || v == [] then 0.0
    else
      var top := ArgMax(v, |v|);
      v[top] + Fullest(Without(v, top), k - 1)
  }

  lemma {:induction false} MaskWithout(v: seq<real>, m: seq<bool>, i: nat)
    requires |m| == |v| && i < |v|
    ensures MaskSum(v, m) == MaskSum(Without(v, i), Without(m, i)) + (if m[i] then v[i] else 0.0)
    ensures MaskCount(m) == MaskCount(Without(m, i)) + (if m[i] then 1 else 0)
  {
    var n := |v| - 1;
    if i == n {
      assert Without(v, i) == v[..n] && Without(m, i) == m[..n];
    } else {
      MaskWithout(v[..n], m[..n], i);
      assert Without(v, i)[..n - 1] == Without(v[..n], i) && Without(m, i)[..n - 1] == Without(m[..n], i);
      assert Without(v, i)[n - 1] == v[n] && Without(m, i)[n - 1] == m[n];
    }
  }

  lemma {:induction false} SomeBin(m: seq<bool>) returns (i: nat)
    requires MaskCount(m) > 0
    ensures i < |m| && m[i]
  {
    i := |m| - 1;
    if !m[i] {
      i := SomeBin(m[..i]);
    }
  }

  lemma {:induction false} FullestNonNegative(v: seq<real>, k: nat)
    requires NonNegative(v)
    ensures Fullest(v, k) >= 0.0
    decreases k
  {
    if k > 0 && v != [] {
      FullestNonNegative(Without(v, ArgMax(v, |v|)), k - 1);
    }
  }

  /** A set without one of its bins `i`, as a set of the bins other than `top`, which it does not have. */
  lemma {:induction false} TakeOut(v: seq<real>, m: seq<bool>, i: nat, top: nat) returns (rest: seq<bool>)
    requires |m| == |v| && i < |v| && m[i] && top < |v| && (i == top || !m[top])
    ensures |rest| == |v| - 1 && MaskCount(m) == MaskCount(rest) + 1
    ensures MaskSum(v, m) == v[i] + MaskSum(Without(v, top), rest)
  {
    var less := m[i := false];
    MaskWithout(v, m, i);
    MaskWithout(v, less, i);
    assert Without(less, i) == Without(m, i);
    MaskWithout(v, less, top);
    rest := Without(less, top);
  }

  /** No set of at most `k` bins holds more than the `k` fullest. */
  lemma {:induction false} FullestBest(v: seq<real>, m: seq<bool>, k: nat)
    requires |m| == |v| && NonNegative(v) && MaskCount(m) <= k
    ensures MaskSum(v, m) <= Fullest(v, k)
    decreases k
  {
    if MaskCount(m) == 0 {
      EmptyMask(v, m);
      FullestNonNegative(v, k);
    } else {
      var top := ArgMax(v, |v|);
      var i := SomeBin(m);
      if m[top] {
        i := top;
      }
      var rest := TakeOut(v, m, i, top);
      FullestBest(Without(v, top), rest, k - 1);
    }
  }

  /** Some set of at most `k` bins holds that much. */
  lemma {:induction false} FullestAttained(v: seq<real>, k: nat) returns (m: seq<bool>)
    ensures |m| == |v| && MaskCount(m) <= k && MaskSum(v, m) == Fullest(v, k)
    decreases k
  {
    if k == 0 || v == [] {
      m := seq(|v|, _ => false);
      NoBins(v, m);
    } else {
      var top := ArgMax(v, |v|);
      var rest := FullestAttained(Without(v, top), k - 1);
      m := rest[..top] + [true] + rest[top..];
      assert Without(m, top) == rest;
      MaskWithout(v, m, top);
    }
  }

  lemma {:induction false} NoBins(v: seq<real>, m: seq<bool>)
    requires |m| == |v| && forall i :: 0 <= i < |m| ==> !m[i]
    ensures MaskCount(m) == 0 && MaskSum(v, m) == 0.0
  {
    if v != [] {
      NoBins(v[..|v| - 1], m[..|v| - 1]);
    }
  }

  /** On any histogram: the value area has the fewest bins of any set reaching 70% of the volume
      if and only if one bin fewer cannot reach it even with the fullest bins. */
  lemma {:induction false} ValueAreaOptimalIff(v: seq<real>)
    requires v != [] && NonNegative(v)
    ensures var (l, h) := ValueArea(v);
      (forall m :: |m| == |v| && MaskSum(v, m) >= Target(v) ==> MaskCount(m) >= h - l + 1)
      <==> Fullest(v, h - l) < Target(v)
  {
    var (l, h) := ValueArea(v);
    if Fullest(v, h - l) < Target(v) {
      forall m | |m| == |v| && MaskSum(v, m) >= Target(v) ensures MaskCount(m) >= h - l + 1 {
        if MaskCount(m) <= h - l {
          FullestBest(v, m, h - l);
        }
      }
    } else {
      var m := FullestAttained(v, h - l);
    }
  }

  /** Why unimodal: with a hole beside the point of control, two separate bins reach 70% but
      the contiguous value area needs three. */
  lemma {:induction false} BimodalCounterexample()
    ensures var v := [4.0, 0.0, 5.0]; var m := [true, false, true];
      && NonNegative(v) && MaskSum(v, m) >= Target(v) && MaskCount(m) == 2
      && ValueArea(v) == (0, 2)
  {
    var v, m := [4.0, 0.0, 5.0], [true, false, true];
    assert v[1..] == [0.0, 5.0] && v[1..][1..] == [5.0] && [5.0][1..] == [];
    assert SumBy([5.0], Id) == 5.0 && SumBy([0.0, 5.0], Id) == 5.0;
    assert SumBy(v, Id) == 9.0;
    assert v[..2] == [4.0, 0.0] && m[..2] == [true, false];
    assert v[..2][..1] == [4.0] && m[..2][..1] == [true] && [4.0][..0] == [] && [true][..0] == [];
    assert MaskSum([4.0], [true]) == 4.0 && MaskCount([true]) == 1;
    assert MaskSum([4.0, 0.0], [true, false]) == 4.0 && MaskCount([true, false]) == 1;
    assert ArgMax(v, 1) == 0 && ArgMax(v, 2) == 0 && ArgMax(v, 3) == 2;
    assert v[2..3] == [5.0] && v[1..3] == [0.0, 5.0];
    assert Area(v, 2, 2) == 5.0 && Area(v, 1, 2) == 5.0;
    assert !UpStep(v, 2, 2) && !UpStep(v, 1, 2);
    assert Grow(v, Target(v), 0, 2) == (0, 2);
    assert Grow(v, Target(v), 1, 2) == (0, 2);
  }

  // ------------------------------------------------------------------- the method

  function LowMin(bars: seq<Bar>): real
    requires bars != []
  {
    if |bars| == 1 then bars[0].low else Min(LowMin(bars[..|bars| - 1]), bars[|bars| - 1].low)
  }

  function HighMax(bars: seq<Bar>): real
    requires bars != []
  {
    if |bars| == 1 then bars[0].high else Max(HighMax(bars[..|bars| - 1]), bars[|bars| - 1].high)
  }

  function Mid(lo: real, hi: real, bins: nat, k: nat): real
    requires bins > 0
  {
    (Edge(lo, hi, bins, k) + Edge(lo, hi, bins, k + 1)) / 2.0
  }

  function Flat(price: real): Profile { Profile(price, price, price) }

  /** The profile's levels, in price, before rounding. */
  ghost function ProfileOf(bars: seq<Bar>, bins: nat): Profile
    requires bins > 0 && forall b <- bars :: b.volume >= 0.0
  {
    if bars == [] then Flat(0.0)
    else if |bars| == 1 then Flat(bars[0].close)
    else
      var lo, hi := LowMin(bars), HighMax(bars);
      if hi <= lo then Flat(SumBy(bars, Close) / |bars| as real)
      else
        HistogramNonNegative(bars, lo, hi, bins);
        var v := Histogram(bars, lo, hi, bins);
        var poc := Mid(lo, hi, bins, ArgMax(v, bins));
        if SumBy(v, Id) == 0.0 then Flat(poc)
        else
          var (l, h) := ValueArea(v);
          Profile(poc, Mid(lo, hi, bins, h), Mid(lo, hi, bins, l))
  }

  lemma {:induction false} MidOrdered(lo: real, hi: real, bins: nat, i: nat, j: nat)
    requires bins > 0 && lo < hi && i <= j
    ensures Mid(lo, hi, bins, i) <= Mid(lo, hi, bins, j)
  {
  }

  /** Value area low <= point of control <= value area high, on every input. */
  lemma {:induction false} LevelsOrdered(bars: seq<Bar>, bins: nat)
    requires bins > 0 && forall b <- bars :: b.volume >= 0.0
    ensures var p := ProfileOf(bars, bins); p.valueAreaLow <= p.poc <= p.valueAreaHigh
  {
    if |bars| > 1 && HighMax(bars) > LowMin(bars) {
      var lo, hi := LowMin(bars), HighMax(bars);
      HistogramNonNegative(bars, lo, hi, bins);
      var v := Histogram(bars, lo, hi, bins);
      var (l, h) := ValueArea(v);
      MidOrdered(lo, hi, bins, l, ArgMax(v, bins));
      MidOrdered(lo, hi, bins, ArgMax(v, bins), h);
    }
  }

  /** The range is that of the lows and the highs. */
  lemma {:induction false} RangeIs(bars: seq<Bar>)
    requires bars != []
    ensures forall b <- bars :: LowMin(bars) <= b.low && b.high <= HighMax(bars)
    ensures exists b <- bars :: b.low == LowMin(bars)
    ensures exists b <- bars :: b.high == HighMax(bars)
  {
    var n := |bars| - 1;
    assert bars[n] in bars;
    if n > 0 {
      var before := bars[..n];
      RangeIs(before);
      forall b <- bars ensures LowMin(bars) <= b.low && b.high <= HighMax(bars) {
        assert b == bars[n] || b in before;
      }
      var low :| low in before && low.low == LowMin(before);
      var high :| high in before && high.high == HighMax(before);
      assert low in bars && high in bars;
    }
  }

  /** `price` is the middle of bin `k`, as far from its lower edge as from its upper one. */
  ghost predicate MiddleOf(price: real, lo: real, hi: real, bins: nat, k: nat)
    requires bins > 0
  {
    && Edge(lo, hi, bins, k) < price < Edge(lo, hi, bins, k + 1)
    && price - Edge(lo, hi, bins, k) == Edge(lo, hi, bins, k + 1) - price
  }

  lemma {:induction false} MidIsMiddle(lo: real, hi: real, bins: nat, k: nat)
    requires bins > 0 && lo < hi
    ensures MiddleOf(Mid(lo, hi, bins, k), lo, hi, bins, k)
  {
    EdgeStep(lo, hi, bins, k);
  }

  /** The three prices of a profile with a range and a volume: the middle of the first fullest bin,
      and the middles of the end bins of an interval around it that holds at least 70% of the volume
      and held less before its last bin, the fuller neighbour, was added. */
  lemma {:induction false} LevelsInBins(bars: seq<Bar>, bins: nat) returns (l: nat, k: nat, h: nat, l2: nat, h2: nat)
    requires bins > 0 && forall b <- bars :: b.volume >= 0.0
    requires |bars| > 1 && LowMin(bars) < HighMax(bars) && SumBy(bars, Volume) > 0.0
    ensures var p, lo, hi := ProfileOf(bars, bins), LowMin(bars), HighMax(bars);
      var v := Histogram(bars, lo, hi, bins);
      && l <= k <= h < bins
      && MiddleOf(p.poc, lo, hi, bins, k) && MiddleOf(p.valueAreaLow, lo, hi, bins, l) && MiddleOf(p.valueAreaHigh, lo, hi, bins, h)
      && (forall i :: 0 <= i < bins ==> v[i] <= v[k]) && (forall i :: 0 <= i < k ==> v[i] < v[k])
      && Area(v, l, h) >= 0.70 * SumBy(bars, Volume)
      && (l == k == h || JustShort(v, 0.70 * SumBy(bars, Volume), k, l, h, l2, h2))
  {
    var lo, hi := LowMin(bars), HighMax(bars);
    var v := Histogram(bars, lo, hi, bins);
    HistogramNonNegative(bars, lo, hi, bins);
    BinningConserves(bars, lo, hi, bins);
    l2, h2 := ValueAreaHolds(v);
    var area := ValueArea(v);
    l, k, h := area.0, ArgMax(v, bins), area.1;
    MidIsMiddle(lo, hi, bins, l);
    MidIsMiddle(lo, hi, bins, k);
    MidIsMiddle(lo, hi, bins, h);
  }

  /** The profiles with no range or no volume: one price, for all three levels. */
  lemma {:induction false} FlatLevels(bars: seq<Bar>, bins: nat)
    requires bins > 0 && forall b <- bars :: b.volume >= 0.0
    ensures var p := ProfileOf(bars, bins);
      && (bars == [] ==> p == Profile(0.0, 0.0, 0.0))
      && (|bars| == 1 ==> p == Profile(bars[0].close, bars[0].close, bars[0].close))
      && (|bars| > 1 && HighMax(bars) <= LowMin(bars) ==>
            p.valueAreaLow == p.poc == p.valueAreaHigh && p.poc * |bars| as real == SumBy(bars, Close))
      && (|bars| > 1 && HighMax(bars) > LowMin(bars) && SumBy(bars, Volume) == 0.0 ==>
            p.valueAreaLow == p.poc == p.valueAreaHigh
            && MiddleOf(p.poc, LowMin(bars), HighMax(bars), bins, 0))
  {
    if |bars| > 1 {
      var lo, hi := LowMin(bars), HighMax(bars);
      if hi <= lo {
        var n := |bars| as real;
        assert SumBy(bars, Close) / n * n == SumBy(bars, Close);
      } else {
        HistogramNonNegative(bars, lo, hi, bins);
        BinningConserves(bars, lo, hi, bins);
        if SumBy(bars, Volume) == 0.0 {
          EmptyBins(Histogram(bars, lo, hi, bins));
          MidIsMiddle(lo, hi, bins, 0);
        }
      }
    }
  }

  lemma {:induction false} EmptyBins(v: seq<real>)
    requires v != [] && NonNegative(v) && SumBy(v, Id) == 0.0
    ensures ArgMax(v, |v|) == 0
  {
    var k := ArgMax(v, |v|);
    if k > 0 {
      assert v == v[..k] + v[k..] && v[k..][0] == v[k];
      SumByConcat(v[..k], v[k..], Id);
      SumNonNegative(v[..k], Id);
      SumNonNegative(v[k..][1..], Id);
    }
  }

  /** Fills the bins in place. */
  method FillBins(bars: seq<Bar>, lo: real, hi: real, volume: array<real>)
    requires volume.Length > 0 && forall k :: 0 <= k < volume.Length ==> volume[k] == 0.0
    modifies volume
    ensures volume[..] == Histogram(bars, lo, hi, volume.Length)
  {
    var bins := volume.Length;
    assert volume[..] == Zeros(bins);
    assert bars[..0] == [];
    for i := 0 to |bars|
      invariant volume[..] == Histogram(bars[..i], lo, hi, bins)
    {
      var k := BinOf(bars[i].close, lo, hi, bins);
      assert bars[..i + 1][..i] == bars[..i];
      ghost var before := volume[..];
      volume[k] := volume[k] + bars[i].volume;
      assert volume[..] == AddAt(before, k, bars[i].volume);
    }
    assert bars[..|bars|] == bars;
  }

  /** The value-area loop over the filled bins. */
  method GrowValueArea(volume: array<real>, target: real, poc: nat) returns (lo: nat, hi: nat)
    requires poc < volume.Length && NonNegative(volume[..])
    ensures (lo, hi) == Grow(volume[..], target, poc, poc)
  {
    ghost var v := volume[..];
    lo, hi := poc, poc;
    var accumulated := volume[poc];
    AreaOne(v, poc);
    while accumulated < target
      invariant lo <= poc <= hi < volume.Length && volume[..] == v
      invariant accumulated == Area(v, lo, hi)
      invariant Grow(v, target, lo, hi) == Grow(v, target, poc, poc)
      decreases volume.Length - (hi - lo)
    {
      var canGoLower, canGoHigher := lo > 0, hi < volume.Length - 1;
      if !canGoLower && !canGoHigher {
        break;
      }
      var nextLo := if canGoLower then volume[lo - 1] else -1.0;
      var nextHi := if canGoHigher then volume[hi + 1] else -1.0;
      if nextHi >= nextLo {
        assert v[lo..hi + 2] == v[lo..hi + 1] + [v[hi + 1]];
        SumBySnoc(v[lo..hi + 1], v[hi + 1], Id);
        hi := hi + 1;
        accumulated := accumulated + volume[hi];
      } else {
        assert v[lo - 1..hi + 1][1..] == v[lo..hi + 1];
        lo := lo - 1;
        accumulated := accumulated + volume[lo];
      }
    }
  }

  method Analyze(bars: seq<Bar>, bins: nat) returns (p: Profile)
    requires bins > 0 && forall b <- bars :: b.volume >= 0.0
    ensures p == ProfileOf(bars, bins)
  {
    if |bars| < 2 {
      return Flat(if bars == [] then 0.0 else bars[0].close);
    }
    var lo, hi := LowMin(bars), HighMax(bars);
    if hi <= lo {
      return Flat(SumBy(bars, Close) / |bars| as real);
    }
    var volume := new real[bins](_ => 0.0);
    FillBins(bars, lo, hi, volume);
    HistogramNonNegative(bars, lo, hi, bins);
    var pocBin := ArgMax(volume[..], bins);
    var poc := Mid(lo, hi, bins, pocBin);
    var total := SumBy(volume[..], Id);
    if total == 0.0 {
      return Flat(poc);
    }
    var l, h := GrowValueArea(volume, 0.70 * total, pocBin);
    p := Profile(poc, Mid(lo, hi, bins, h), Mid(lo, hi, bins, l));
  }
}
