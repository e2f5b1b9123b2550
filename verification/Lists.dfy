/** Sums over sequences and a stable sort, shared by the other modules. */
module Lists {

  datatype Option<+T> = None | Some(value: T) {
    function GetOr(default: T): T {
      if Some? then value else default
    }
  }

  function Min(a: real, b: real): real { if a <= b then a else b }
  function Max(a: real, b: real): real { if a >= b then a else b }

  function SumBy<T>(xs: seq<T>, f: T -> real): real {
    if xs == [] then 0.0 else f(xs[0]) + SumBy(xs[1..], f)
  }

  lemma {:induction false} SumNonNegative<T>(xs: seq<T>, f: T -> real)
    requires forall x <- xs :: f(x) >= 0.0
    ensures SumBy(xs, f) >= 0.0
  {
    if xs != [] {
      SumNonNegative(xs[1..], f);
    }
  }

  /** The sign of a product by a positive factor. */
  lemma {:induction false} NonNegativeFactor(x: real, q: real)
    requires q > 0.0
    ensures x * q >= 0.0 <==> x >= 0.0
    ensures x * q > 0.0 <==> x > 0.0
  {
  }

  lemma {:induction false} SumByConcat<T>(xs: seq<T>, ys: seq<T>, f: T -> real)
    ensures SumBy(xs + ys, f) == SumBy(xs, f) + SumBy(ys, f)
  {
    if xs == [] {
      assert xs + ys == ys;
    } else {
      SumByConcat(xs[1..], ys, f);
      assert (xs + ys)[1..] == xs[1..] + ys;
    }
  }

  lemma {:induction false} SumBySnoc<T>(xs: seq<T>, x: T, f: T -> real)
    ensures SumBy(xs + [x], f) == SumBy(xs, f) + f(x)
  {
    SumByConcat(xs, [x], f);
    assert [x][1..] == [];
  }

  lemma {:induction false} SumByRemoveAt<T>(xs: seq<T>, i: nat, f: T -> real)
    requires i < |xs|
    ensures SumBy(xs[..i] + xs[i + 1..], f) == SumBy(xs, f) - f(xs[i])
  {
    if i == 0 {
      assert xs[..0] + xs[1..] == xs[1..];
    } else {
      SumByRemoveAt(xs[1..], i - 1, f);
      var ys := xs[..i] + xs[i + 1..];
      assert ys[1..] == xs[1..][..i - 1] + xs[1..][i..];
    }
  }

  lemma {:induction false} SumByUpdateAt<T>(xs: seq<T>, i: nat, x: T, f: T -> real)
    requires i < |xs|
    ensures SumBy(xs[i := x], f) == SumBy(xs, f) - f(xs[i]) + f(x)
  {
    var ys := xs[i := x];
    assert ys[..i] == xs[..i] && ys[i + 1..] == xs[i + 1..];
    SumByRemoveAt(xs, i, f);
    SumByRemoveAt(ys, i, f);
  }

  ghost predicate SortedBy<T>(xs: seq<T>, key: T -> real) {
    forall i, j :: 0 <= i < j < |xs| ==> key(xs[i]) <= key(xs[j])
  }

  function Filter<T>(xs: seq<T>, p: T -> bool): seq<T> {
    if xs == [] then [] else (if p(xs[0]) then [xs[0]] else []) + Filter(xs[1..], p)
  }

  function HasKey<T>(key: T -> real, k: real): T -> bool { x => key(x) == k }

  /** The elements whose key is `k`, in their order in `xs`. */
  function WithKey<T>(xs: seq<T>, key: T -> real, k: real): seq<T> {
    Filter(xs, HasKey(key, k))
  }

  function Insert<T>(x: T, xs: seq<T>, key: T -> real): seq<T> {
    if xs == [] || key(x) <= key(xs[0]) then [x] + xs else [xs[0]] + Insert(x, xs[1..], key)
  }

  lemma {:induction false} InsertPermutes<T>(x: T, xs: seq<T>, key: T -> real)
    ensures multiset(Insert(x, xs, key)) == multiset{x} + multiset(xs)
  {
    if xs != [] && key(x) > key(xs[0]) {
      InsertPermutes(x, xs[1..], key);
      assert xs == [xs[0]] + xs[1..];
    }
  }

  lemma {:induction false} InsertSorts<T>(x: T, xs: seq<T>, key: T -> real)
    requires SortedBy(xs, key)
    ensures SortedBy(Insert(x, xs, key), key)
  {
    if xs != [] && key(x) > key(xs[0]) {
      InsertSorts(x, xs[1..], key);
      InsertPermutes(x, xs[1..], key);
      HeadBelow(xs[0], Insert(x, xs[1..], key), x, xs[1..], key);
    }
  }

  lemma {:induction false} HeadBelow<T>(h: T, rest: seq<T>, x: T, tail: seq<T>, key: T -> real)
    requires multiset(rest) == multiset{x} + multiset(tail)
    requires key(h) <= key(x) && forall j :: 0 <= j < |tail| ==> key(h) <= key(tail[j])
    ensures forall j :: 0 <= j < |rest| ==> key(h) <= key(rest[j])
  {
    forall j | 0 <= j < |rest| ensures key(h) <= key(rest[j]) {
      assert rest[j] in multiset(rest);
      assert rest[j] == x || rest[j] in tail;
    }
  }

  /** Python's `sorted(xs, key=...)`: ascending keys, equal keys keep their order. */
  function StableSort<T>(xs: seq<T>, key: T -> real): (r: seq<T>)
    ensures SortedBy(r, key)
    ensures multiset(r) == multiset(xs)
    ensures |r| == |xs|
  {
    if xs == [] then []
    else
      var rest := StableSort(xs[1..], key);
      InsertSorts(xs[0], rest, key);
      InsertPermutes(xs[0], rest, key);
      var r := Insert(xs[0], rest, key);
      assert xs == [xs[0]] + xs[1..];
      assert |multiset(r)| == |r| && |multiset(xs)| == |xs|;
      r
  }

  lemma {:induction false} InsertKeepsTies<T>(x: T, xs: seq<T>, key: T -> real, k: real)
    ensures WithKey(Insert(x, xs, key), key, k) == WithKey([x] + xs, key, k)
  {
    if xs == [] || key(x) <= key(xs[0]) {
    } else {
      InsertKeepsTies(x, xs[1..], key, k);
      var p := HasKey(key, k);
      var rest := Insert(x, xs[1..], key);
      FilterConcat([xs[0]], rest, p);
      FilterConcat([x], [xs[0]] + xs[1..], p);
      FilterConcat([xs[0]], xs[1..], p);
      FilterConcat([x], xs[1..], p);
      FilterOne(x, p);
      FilterOne(xs[0], p);
      assert xs == [xs[0]] + xs[1..];
    }
  }

  /** Stability: within one key the sorted list keeps the original order. */
  lemma {:induction false} StableSortKeepsTies<T>(xs: seq<T>, key: T -> real, k: real)
    ensures WithKey(StableSort(xs, key), key, k) == WithKey(xs, key, k)
  {
    if xs != [] {
      StableSortKeepsTies(xs[1..], key, k);
      InsertKeepsTies(xs[0], StableSort(xs[1..], key), key, k);
      assert ([xs[0]] + StableSort(xs[1..], key))[1..] == StableSort(xs[1..], key);
    }
  }

  ghost predicate DistinctKeys<T>(xs: seq<T>, key: T -> real) {
    forall i, j :: 0 <= i < j < |xs| ==> key(xs[i]) != key(xs[j])
  }

  lemma {:induction false} SortedTail<T>(xs: seq<T>, key: T -> real)
    requires xs != [] && SortedBy(xs, key)
    ensures SortedBy(xs[1..], key) && (DistinctKeys(xs, key) ==> DistinctKeys(xs[1..], key))
    ensures multiset(xs[1..]) == multiset(xs) - multiset{xs[0]}
  {
    assert xs == [xs[0]] + xs[1..];
  }

  lemma {:induction false} PermutedLength<T>(xs: seq<T>, ys: seq<T>)
    requires multiset(xs) == multiset(ys)
    ensures |xs| == |ys|
  {
    assert |multiset(xs)| == |xs| && |multiset(ys)| == |ys|;
  }

  lemma {:induction false} SameParts<T>(xs: seq<T>, ys: seq<T>)
    requires xs != [] && ys != [] && xs[0] == ys[0] && xs[1..] == ys[1..]
    ensures xs == ys
  {
    assert xs == [xs[0]] + xs[1..] && ys == [ys[0]] + ys[1..];
  }

  /** With distinct keys the sorted list depends only on which elements are present. */
  lemma {:induction false} SortedPermutationUnique<T>(xs: seq<T>, ys: seq<T>, key: T -> real)
    requires SortedBy(xs, key) && SortedBy(ys, key)
    requires multiset(xs) == multiset(ys)
    requires DistinctKeys(xs, key)
    ensures xs == ys
  {
    PermutedLength(xs, ys);
    if xs != [] {
      SameHead(xs, ys, key);
      SortedTail(xs, key);
      SortedTail(ys, key);
      SortedPermutationUnique(xs[1..], ys[1..], key);
      SameParts(xs, ys);
    }
  }

  lemma {:induction false} SameHead<T>(xs: seq<T>, ys: seq<T>, key: T -> real)
    requires SortedBy(xs, key) && SortedBy(ys, key)
    requires multiset(xs) == multiset(ys)
    requires DistinctKeys(xs, key)
    requires xs != [] && ys != []
    ensures xs[0] == ys[0]
  {
    assert xs[0] in multiset(ys) && ys[0] in multiset(xs);
    var i :| 0 <= i < |ys| && ys[i] == xs[0];
    var j :| 0 <= j < |xs| && xs[j] == ys[0];
    assert key(ys[0]) <= key(xs[0]) && key(xs[0]) <= key(ys[0]);
  }

  /** Whether a list has distinct keys depends only on its multiset. */
  lemma {:induction false} DistinctKeysPermute<T>(xs: seq<T>, ys: seq<T>, key: T -> real)
    requires DistinctKeys(xs, key) && multiset(xs) == multiset(ys)
    ensures DistinctKeys(ys, key)
  {
    forall i, j | 0 <= i < j < |ys| ensures key(ys[i]) != key(ys[j]) {
      if key(ys[i]) == key(ys[j]) {
        assert ys[i] in multiset(xs) && ys[j] in multiset(xs);
        var a :| 0 <= a < |xs| && xs[a] == ys[i];
        var b :| 0 <= b < |xs| && xs[b] == ys[j];
        assert a == b;
        TwiceInList(ys, i, j);
        OnceInDistinct(xs, key, a);
      }
    }
  }

  lemma {:induction false} TwiceInList<T>(ys: seq<T>, i: nat, j: nat)
    requires i < j < |ys| && ys[i] == ys[j]
    ensures multiset(ys)[ys[i]] >= 2
  {
    assert ys == ys[..i] + [ys[i]] + ys[i + 1..j] + [ys[j]] + ys[j + 1..];
  }

  lemma {:induction false} OnceInDistinct<T>(xs: seq<T>, key: T -> real, a: nat)
    requires DistinctKeys(xs, key) && a < |xs|
    ensures multiset(xs)[xs[a]] == 1
  {
    assert xs == xs[..a] + [xs[a]] + xs[a + 1..];
    assert xs[a] !in xs[..a] && xs[a] !in xs[a + 1..];
  }

  /** A permutation sorts to the same list when the keys are distinct. */
  lemma {:induction false} StableSortPermutation<T>(xs: seq<T>, ys: seq<T>, key: T -> real)
    requires multiset(xs) == multiset(ys) && DistinctKeys(xs, key)
    ensures StableSort(xs, key) == StableSort(ys, key)
  {
    DistinctKeysPermute(xs, StableSort(xs, key), key);
    SortedPermutationUnique(StableSort(xs, key), StableSort(ys, key), key);
  }

  lemma {:induction false} MultisetRemoveAt<T>(xs: seq<T>, i: nat)
    requires i < |xs|
    ensures multiset(xs) == multiset(xs[..i] + xs[i + 1..]) + multiset{xs[i]}
  {
    assert xs == xs[..i] + [xs[i]] + xs[i + 1..];
  }

  /** The head of one list, found and taken out of a permutation of it. */
  lemma {:induction false} PickHead<T>(xs: seq<T>, ys: seq<T>) returns (i: nat)
    requires multiset(xs) == multiset(ys) && xs != []
    ensures i < |ys| && ys[i] == xs[0]
    ensures multiset(xs[1..]) == multiset(ys[..i] + ys[i + 1..])
  {
    assert xs[0] in multiset(ys);
    i :| 0 <= i < |ys| && ys[i] == xs[0];
    MultisetRemoveAt(ys, i);
    assert xs == [xs[0]] + xs[1..];
    assert multiset(xs[1..]) == multiset(xs) - multiset{xs[0]};
    assert multiset(ys[..i] + ys[i + 1..]) == multiset(ys) - multiset{ys[i]};
  }

  lemma {:induction false} PermutedEmpty<T>(ys: seq<T>)
    requires multiset(ys) == multiset{}
    ensures ys == []
  {
    assert |multiset(ys)| == |ys|;
  }

  lemma {:induction false} SumByPermute<T>(xs: seq<T>, ys: seq<T>, f: T -> real)
    requires multiset(xs) == multiset(ys)
    ensures SumBy(xs, f) == SumBy(ys, f)
  {
    if xs == [] {
      PermutedEmpty(ys);
    } else {
      var i := PickHead(xs, ys);
      SumByRemoveAt(ys, i, f);
      SumByPermute(xs[1..], ys[..i] + ys[i + 1..], f);
    }
  }

  function Reverse<T>(xs: seq<T>): (r: seq<T>)
    ensures |r| == |xs| && forall i :: 0 <= i < |xs| ==> r[i] == xs[|xs| - 1 - i]
  {
    if xs == [] then [] else Reverse(xs[1..]) + [xs[0]]
  }

  // ----------------------------------------------------------------- filters

  lemma {:induction false} FilterMember<T>(xs: seq<T>, p: T -> bool, x: T)
    ensures x in Filter(xs, p) <==> x in xs && p(x)
  {
    if xs != [] {
      FilterMember(xs[1..], p, x);
      assert x in xs <==> x == xs[0] || x in xs[1..];
    }
  }

  lemma {:induction false} FilterConcat<T>(a: seq<T>, b: seq<T>, p: T -> bool)
    ensures Filter(a + b, p) == Filter(a, p) + Filter(b, p)
  {
    if a == [] {
      assert a + b == b;
    } else {
      FilterConcat(a[1..], b, p);
      assert (a + b)[1..] == a[1..] + b;
      SeqAssoc(if p(a[0]) then [a[0]] else [], Filter(a[1..], p), Filter(b, p));
    }
  }

  lemma {:induction false} SeqAssoc<T>(a: seq<T>, b: seq<T>, c: seq<T>)
    ensures a + b + c == a + (b + c)
  {
  }

  lemma {:induction false} FilterOne<T>(x: T, p: T -> bool)
    ensures Filter([x], p) == if p(x) then [x] else []
  {
  }

  lemma {:induction false} FilterRemoveAt<T>(xs: seq<T>, i: nat, p: T -> bool)
    requires i < |xs|
    ensures multiset(Filter(xs, p))
         == multiset(Filter(xs[..i] + xs[i + 1..], p)) + (if p(xs[i]) then multiset{xs[i]} else multiset{})
  {
    var a, b := xs[..i], xs[i + 1..];
    assert xs == a + ([xs[i]] + b);
    FilterConcat(a, [xs[i]] + b, p);
    FilterConcat([xs[i]], b, p);
    FilterOne(xs[i], p);
    FilterConcat(a, b, p);
  }

  lemma {:induction false} FilterPermute<T>(xs: seq<T>, ys: seq<T>, p: T -> bool)
    requires multiset(xs) == multiset(ys)
    ensures multiset(Filter(xs, p)) == multiset(Filter(ys, p))
  {
    if xs == [] {
      PermutedEmpty(ys);
    } else {
      var i := PickHead(xs, ys);
      FilterPermute(xs[1..], ys[..i] + ys[i + 1..], p);
      FilterRemoveAt(ys, i, p);
      assert xs[..0] + xs[1..] == xs[1..];
      FilterRemoveAt(xs, 0, p);
    }
  }

  lemma {:induction false} ReverseCons<T>(x: T, xs: seq<T>)
    ensures Reverse([x] + xs) == Reverse(xs) + [x]
  {
    assert ([x] + xs)[1..] == xs;
  }

  lemma {:induction false} FilterReverse<T>(xs: seq<T>, p: T -> bool)
    ensures Filter(Reverse(xs), p) == Reverse(Filter(xs, p))
  {
    if xs != [] {
      var rest := Filter(xs[1..], p);
      FilterReverse(xs[1..], p);
      FilterConcat(Reverse(xs[1..]), [xs[0]], p);
      FilterOne(xs[0], p);
      if p(xs[0]) {
        ReverseCons(xs[0], rest);
      } else {
        assert [] + rest == rest && Reverse(rest) + [] == Reverse(rest);
      }
    }
  }

  ghost predicate Distinct<T>(xs: seq<T>) {
    forall i, j :: 0 <= i < j < |xs| ==> xs[i] != xs[j]
  }

  lemma {:induction false} FilterDistinct<T>(xs: seq<T>, p: T -> bool)
    requires Distinct(xs)
    ensures Distinct(Filter(xs, p))
  {
    if xs != [] {
      assert Distinct(xs[1..]);
      FilterDistinct(xs[1..], p);
      FilterMember(xs[1..], p, xs[0]);
    }
  }

  lemma {:induction false} FilterTwo<T>(xs: seq<T>, p: T -> bool, i: nat, j: nat)
    requires i < j < |xs| && p(xs[i]) && p(xs[j])
    ensures |Filter(xs, p)| >= 2
  {
    var a, b := xs[..j], xs[j..];
    assert xs == a + b;
    FilterConcat(a, b, p);
    FilterMember(a, p, a[i]);
    FilterMember(b, p, b[0]);
  }

  /** Where two elements that pass the filter end up: in the same order. */
  lemma {:induction false} FilterOrder<T>(xs: seq<T>, p: T -> bool, i: nat, j: nat) returns (a: nat, b: nat)
    requires i < j < |xs| && p(xs[i]) && p(xs[j])
    ensures a < b < |Filter(xs, p)| && Filter(xs, p)[a] == xs[i] && Filter(xs, p)[b] == xs[j]
  {
    var before, after := xs[..j], xs[j..];
    assert xs == before + after;
    FilterConcat(before, after, p);
    FilterMember(before, p, before[i]);
    a :| 0 <= a < |Filter(before, p)| && Filter(before, p)[a] == xs[i];
    b := |Filter(before, p)|;
    assert after[0] == xs[j];
  }

  /** And where they came from. */
  lemma {:induction false} FilterSource<T>(xs: seq<T>, p: T -> bool, a: nat, b: nat) returns (i: nat, j: nat)
    requires a < b < |Filter(xs, p)|
    ensures i < j < |xs| && xs[i] == Filter(xs, p)[a] && xs[j] == Filter(xs, p)[b]
  {
    if !p(xs[0]) {
      i, j := FilterSource(xs[1..], p, a, b);
      i, j := i + 1, j + 1;
    } else if a == 0 {
      FilterMember(xs[1..], p, Filter(xs[1..], p)[b - 1]);
      j :| 0 <= j < |xs[1..]| && xs[1..][j] == Filter(xs[1..], p)[b - 1];
      i, j := 0, j + 1;
    } else {
      i, j := FilterSource(xs[1..], p, a - 1, b - 1);
      i, j := i + 1, j + 1;
    }
  }

  /** A stable sort of distinct elements depends on the input order as soon as two keys tie. */
  lemma {:induction false} TieOrderMatters<T>(xs: seq<T>, key: T -> real, i: nat, j: nat)
    requires Distinct(xs) && i < j < |xs| && key(xs[i]) == key(xs[j])
    ensures StableSort(xs, key) != StableSort(Reverse(xs), key)
  {
    var k := key(xs[i]);
    FilterTwo(xs, HasKey(key, k), i, j);
    FilterReverse(xs, HasKey(key, k));
    FilterDistinct(xs, HasKey(key, k));
    StableSortKeepsTies(xs, key, k);
    StableSortKeepsTies(Reverse(xs), key, k);
    var tied := WithKey(xs, key, k);
    assert Reverse(tied)[0] == tied[|tied| - 1];
  }

  lemma {:induction false} ReverseDistinct<T>(xs: seq<T>)
    requires Distinct(xs)
    ensures Distinct(Reverse(xs))
  {
  }
}
