/** SparseVector (mllib/linalg.py) over exact reals: construction, and dot product and squared
    distance by merging sorted index lists. */
module SparseVectors {
  import opened Reals
  import opened Seqs
  import opened Orders

  datatype Sparse = Sparse(size: int, indices: seq<int>, values: seq<real>)
  {
    predicate Valid()
    {
      |indices| == |values| && Increasing(indices)
    }

    /** All indices lie in lo..hi - 1. */
    ghost predicate Within(lo: int, hi: int)
    {
      lo <= hi && forall i :: 0 <= i < |indices| ==> lo <= indices[i] < hi
    }
  }

  predicate Increasing(s: seq<int>)
  {
    forall i :: 0 <= i < |s| - 1 ==> s[i] < s[i + 1]
  }

  lemma {:induction false} IncreasingPairs(s: seq<int>, i: int, j: int)
    requires Increasing(s) && 0 <= i < j < |s|
    ensures s[i] < s[j]
  {
    if i + 1 < j {
      IncreasingPairs(s, i, j - 1);
    }
  }

  // ---------- Construction ----------

  datatype Error = LengthMismatch | NotSorted | IndexError

  /** SparseVector(size, indices, values) */
  method FromArrays(size: int, indices: seq<int>, values: seq<real>) returns (r: Result<Sparse, Error>)
    ensures r.Ok? <==> |indices| == |values| && Increasing(indices)
    ensures r.Ok? ==> r.value == Sparse(size, indices, values) && r.value.Valid()
  {
    if |indices| != |values| {
      return Err(LengthMismatch);
    }
    var i := 0;
    while i < |indices| - 1
      invariant 0 <= i && (i <= |indices| - 1 || i == 0)
      invariant forall j :: 0 <= j < i ==> indices[j] < indices[j + 1]
    {
      if indices[i] >= indices[i + 1] {
        return Err(NotSorted);
      }
      i := i + 1;
    }
    return Ok(Sparse(size, indices, values));
  }

  function PairOrder(a: (int, real), b: (int, real)): bool
  {
    a.0 < b.0 || (a.0 == b.0 && a.1 <= b.1)
  }

  function Index(p: (int, real)): int { p.0 }
  function Entry(p: (int, real)): real { p.1 }

  /** SparseVector(size, pairs): sorted, but never checked for repeated indices. */
  function FromPairs(size: int, pairs: seq<(int, real)>): Sparse
  {
    var sorted := Sort(pairs, PairOrder);
    Sparse(size, Map(Index, sorted), Map(Entry, sorted))
  }

  /** The unchecked constructor yields a proper sparse vector exactly when no index is repeated. */
  lemma FromPairsValid(size: int, pairs: seq<(int, real)>)
    ensures FromPairs(size, pairs).Valid() <==> NoDup(Map(Index, pairs))
  {
    var sorted := Sort(pairs, PairOrder);
    var indices := Map(Index, sorted);
    SortCorrect(pairs, PairOrder);
    MapPerm(Index, sorted, pairs);
    if Increasing(indices) {
      forall i, j | 0 <= i < j < |indices|
        ensures indices[i] != indices[j]
      {
        IncreasingPairs(indices, i, j);
      }
      NoDupPerm(indices, Map(Index, pairs));
    }
    if NoDup(Map(Index, pairs)) {
      NoDupPerm(Map(Index, pairs), indices);
      forall i | 0 <= i < |indices| - 1
        ensures indices[i] < indices[i + 1]
      {
        assert PairOrder(sorted[i], sorted[i + 1]);
      }
    }
  }

  /** (indices[i], values[i]) for every i. */
  function Entries(v: Sparse): (r: seq<(int, real)>)
    requires |v.indices| == |v.values|
    ensures |r| == |v.indices|
  {
    seq(|v.indices|, i requires 0 <= i < |v.indices| => (v.indices[i], v.values[i]))
  }

  /** The pairs are kept, each value beside its index, in the order of indices and, for a repeated
      index, of values. */
  lemma FromPairsEntries(size: int, pairs: seq<(int, real)>)
    ensures var v := FromPairs(size, pairs);
      && v.size == size && |v.indices| == |v.values| == |pairs|
      && multiset(Entries(v)) == multiset(pairs)
      && forall i, j :: 0 <= i < j < |pairs| ==>
           v.indices[i] < v.indices[j] || (v.indices[i] == v.indices[j] && v.values[i] <= v.values[j])
  {
    var sorted := Sort(pairs, PairOrder);
    SortCorrect(pairs, PairOrder);
    assert Entries(FromPairs(size, pairs)) == sorted;
  }

  /** With no index repeated, the vector holds each given value at its index and zero elsewhere. */
  lemma FromPairsAt(size: int, pairs: seq<(int, real)>, k: int)
    requires NoDup(Map(Index, pairs))
    ensures var v := FromPairs(size, pairs);
      && |v.indices| == |v.values|
      && (forall i :: 0 <= i < |pairs| && pairs[i].0 == k ==> At(v, k) == pairs[i].1)
      && (k !in Map(Index, pairs) ==> At(v, k) == 0.0)
  {
    hide Lookup;
    var v := FromPairs(size, pairs);
    FromPairsValid(size, pairs);
    FromPairsEntries(size, pairs);
    forall i | 0 <= i < |pairs| && pairs[i].0 == k
      ensures At(v, k) == pairs[i].1
    {
      InMultiset(Entries(v), pairs, pairs[i]);
      var j :| 0 <= j < |v.indices| && Entries(v)[j] == pairs[i];
      LookupHit(v.indices, v.values, j);
    }
    if k !in Map(Index, pairs) {
      forall j | 0 <= j < |v.indices|
        ensures v.indices[j] != k
      {
        InMultiset(Entries(v), pairs, Entries(v)[j]);
        assert Entries(v)[j] in Entries(v);
        var i :| 0 <= i < |pairs| && pairs[i] == Entries(v)[j];
        assert Map(Index, pairs)[i] == v.indices[j];
      }
      LookupMiss(v.indices, v.values, k);
    }
  }

  lemma {:induction false} NoDupPerm<T>(s: seq<T>, t: seq<T>)
    requires NoDup(s) && multiset(s) == multiset(t)
    ensures NoDup(t)
  {
    if s != [] {
      var n := |s| - 1;
      var a, b := TakeOut(s, t);
      NoDupPerm(s[..n], a + b);
      assert s[n] !in s[..n];
      InMultiset(s[..n], a + b, s[n]);
      var u := a + b;
      forall i, j | 0 <= i < j < |t|
        ensures t[i] != t[j]
      {
        var p, q := if i < |a| then i else i - 1, if j < |a| then j else j - 1;
        if i != |a| && j != |a| {
          assert t[i] == u[p] && t[j] == u[q];
        } else if i == |a| {
          assert t[j] == u[q];
        } else {
          assert t[i] == u[p];
        }
      }
    } else {
      assert |multiset(t)| == 0;
    }
  }

  // ---------- Dense meaning ----------

  /** Coordinate k. */
  function At(v: Sparse, k: int): real
    requires |v.indices| == |v.values|
  {
    Lookup(v.indices, v.values, k)
  }

  function Lookup(indices: seq<int>, values: seq<real>, k: int): real
    requires |indices| == |values|
  {
    if indices == [] then 0.0
    else if indices[0] == k then values[0]
    else Lookup(indices[1..], values[1..], k)
  }

  lemma {:induction false} LookupHit(indices: seq<int>, values: seq<real>, i: nat)
    requires |indices| == |values| && Increasing(indices) && i < |indices|
    ensures Lookup(indices, values, indices[i]) == values[i]
  {
    if i > 0 {
      IncreasingPairs(indices, 0, i);
      assert forall j :: 0 <= j < |indices[1..]| ==> indices[1..][j] == indices[j + 1];
      LookupHit(indices[1..], values[1..], i - 1);
    }
  }

  lemma {:induction false} LookupMiss(indices: seq<int>, values: seq<real>, k: int)
    requires |indices| == |values| && k !in indices
    ensures Lookup(indices, values, k) == 0.0
  {
    if indices != [] {
      assert indices[0] in indices;
      assert forall x :: x in indices[1..] ==> x in indices;
      LookupMiss(indices[1..], values[1..], k);
    }
  }

  /** The dense vector as a function of the coordinate. */
  function Dense(v: Sparse): int -> real
    requires |v.indices| == |v.values|
  {
    k => At(v, k)
  }

  function DenseArray(a: seq<real>): int -> real
  {
    k => if 0 <= k < |a| then a[k] else 0.0
  }

  function Products(f: int -> real, g: int -> real): int -> real { k => Mul(f(k), g(k)) }
  function SquaredDiffs(f: int -> real, g: int -> real): int -> real { k => Sq(f(k) - g(k)) }

  function RangeSum(f: int -> real, lo: int, hi: int): real
    decreases hi - lo
  {
    if hi <= lo then 0.0 else RangeSum(f, lo, hi - 1) + f(hi - 1)
  }

  lemma {:induction false} SumOverZeros(f: int -> real, lo: int, mid: int, hi: int)
    requires lo <= mid <= hi
    requires forall k :: mid <= k < hi ==> f(k) == 0.0
    ensures RangeSum(f, lo, hi) == RangeSum(f, lo, mid)
    decreases hi - mid
  {
    if mid < hi {
      SumOverZeros(f, lo, mid, hi - 1);
    }
  }

  /** Everything before position i is below coordinate m, everything from i on is not. */
  ghost predicate Frontier(v: Sparse, i: int, m: int)
  {
    && 0 <= i <= |v.indices|
    && (i > 0 ==> v.indices[i - 1] < m)
    && (i < |v.indices| ==> m <= v.indices[i])
  }

  lemma StartFrontier(a: Sparse, b: Sparse, lo: int, hi: int)
    requires a.Within(lo, hi) && b.Within(lo, hi)
    ensures Frontier(a, 0, lo) && Frontier(b, 0, lo)
  {
  }

  lemma EmptyRange(f: int -> real, lo: int)
    ensures RangeSum(f, lo, lo) == 0.0
  {
  }

  /** No entry between the frontier and the next index. */
  lemma GapIsZero(v: Sparse, i: int, m: int, k: int)
    requires v.Valid() && Frontier(v, i, m) && m <= k && (i < |v.indices| ==> k < v.indices[i])
    ensures At(v, k) == 0.0
  {
    forall j | 0 <= j < |v.indices|
      ensures v.indices[j] != k
    {
      if j < i - 1 {
        IncreasingPairs(v.indices, j, i - 1);
      } else if j > i {
        IncreasingPairs(v.indices, i, j);
      }
    }
    LookupMiss(v.indices, v.values, k);
  }

  lemma NextFrontier(v: Sparse, i: int, m: int, x: int)
    requires v.Valid() && Frontier(v, i, m) && m <= x && (i < |v.indices| ==> x <= v.indices[i])
    ensures i < |v.indices| && v.indices[i] == x ==> Frontier(v, i + 1, x + 1)
    ensures !(i < |v.indices| && v.indices[i] == x) ==> Frontier(v, i, x + 1)
  {
  }

  /** Moving both frontiers past x, the smaller next index: only coordinate x can contribute. */
  lemma MergeStep(f: int -> real, a: Sparse, b: Sparse, i: int, j: int, lo: int, m: int, x: int)
    requires a.Valid() && b.Valid() && Frontier(a, i, m) && Frontier(b, j, m) && lo <= m
    requires (i < |a.indices| && x == a.indices[i]) || (j < |b.indices| && x == b.indices[j])
    requires i < |a.indices| ==> x <= a.indices[i]
    requires j < |b.indices| ==> x <= b.indices[j]
    requires forall k :: At(a, k) == 0.0 && At(b, k) == 0.0 ==> f(k) == 0.0
    ensures RangeSum(f, lo, x + 1) == RangeSum(f, lo, m) + f(x)
    ensures i < |a.indices| && a.indices[i] == x ==> At(a, x) == a.values[i] && Frontier(a, i + 1, x + 1)
    ensures !(i < |a.indices| && a.indices[i] == x) ==> At(a, x) == 0.0 && Frontier(a, i, x + 1)
    ensures j < |b.indices| && b.indices[j] == x ==> At(b, x) == b.values[j] && Frontier(b, j + 1, x + 1)
    ensures !(j < |b.indices| && b.indices[j] == x) ==> At(b, x) == 0.0 && Frontier(b, j, x + 1)
  {
    forall k | m <= k < x
      ensures f(k) == 0.0
    {
      GapIsZero(a, i, m, k);
      GapIsZero(b, j, m, k);
    }
    SumOverZeros(f, lo, m, x);
    NextFrontier(a, i, m, x);
    NextFrontier(b, j, m, x);
    if i < |a.indices| && a.indices[i] == x {
      LookupHit(a.indices, a.values, i);
    } else {
      GapIsZero(a, i, m, x);
    }
    if j < |b.indices| && b.indices[j] == x {
      LookupHit(b.indices, b.values, j);
    } else {
      GapIsZero(b, j, m, x);
    }
  }

  /** `dot` of two sparse vectors, whatever their sizes: the dense dot product over any range that
      holds all indices. */
  method Dot(a: Sparse, b: Sparse, ghost lo: int, ghost hi: int) returns (result: real)
    requires a.Valid() && b.Valid() && a.Within(lo, hi) && b.Within(lo, hi)
    ensures result == RangeSum(Products(Dense(a), Dense(b)), lo, hi)
  {
    hide Mul, Lookup;
    ghost var f := Products(Dense(a), Dense(b));
    ghost var m := lo;
    ProductsVanish(a, b);
    result := 0.0;
    var i, j := 0, 0;
    while i < |a.indices| && j < |b.indices|
      invariant lo <= m <= hi && Frontier(a, i, m) && Frontier(b, j, m)
      invariant result == RangeSum(f, lo, m)
      decreases |a.indices| - i + |b.indices| - j
    {
      ghost var x := if a.indices[i] <= b.indices[j] then a.indices[i] else b.indices[j];
      MergeStep(f, a, b, i, j, lo, m, x);
      m := x + 1;
      if a.indices[i] == b.indices[j] {
        result := result + Mul(a.values[i], b.values[j]);
        i := i + 1;
        j := j + 1;
      } else if a.indices[i] < b.indices[j] {
        i := i + 1;
      } else {
        j := j + 1;
      }
    }
    forall k | m <= k < hi
      ensures f(k) == 0.0
    {
      if i == |a.indices| {
        GapIsZero(a, i, m, k);
      } else {
        GapIsZero(b, j, m, k);
      }
    }
    SumOverZeros(f, lo, m, hi);
  }

  lemma ProductsVanish(a: Sparse, b: Sparse)
    requires |a.indices| == |a.values| && |b.indices| == |b.values|
    ensures forall k :: At(a, k) == 0.0 || At(b, k) == 0.0 ==> Products(Dense(a), Dense(b))(k) == 0.0
  {
    hide Mul, Lookup;
    forall k | At(a, k) == 0.0 || At(b, k) == 0.0
      ensures Products(Dense(a), Dense(b))(k) == 0.0
    {
      MulOne(At(a, k));
      MulOne(At(b, k));
    }
  }

  lemma DiffsVanish(a: Sparse, b: Sparse)
    requires |a.indices| == |a.values| && |b.indices| == |b.values|
    ensures forall k :: At(a, k) == 0.0 && At(b, k) == 0.0 ==> SquaredDiffs(Dense(a), Dense(b))(k) == 0.0
    ensures forall k :: At(b, k) == 0.0 ==> SquaredDiffs(Dense(a), Dense(b))(k) == Sq(At(a, k))
    ensures forall k :: At(a, k) == 0.0 ==> SquaredDiffs(Dense(a), Dense(b))(k) == Sq(At(b, k))
  {
    hide Mul, Lookup;
    forall k
      ensures At(a, k) == 0.0 && At(b, k) == 0.0 ==> SquaredDiffs(Dense(a), Dense(b))(k) == 0.0
      ensures At(b, k) == 0.0 ==> SquaredDiffs(Dense(a), Dense(b))(k) == Sq(At(a, k))
      ensures At(a, k) == 0.0 ==> SquaredDiffs(Dense(a), Dense(b))(k) == Sq(At(b, k))
    {
      MulOne(0.0);
      SquareOfNegative(At(b, k));
    }
  }

  /** `squared_distance` of two sparse vectors. */
  method SquaredDistance(a: Sparse, b: Sparse, ghost lo: int, ghost hi: int) returns (result: real)
    requires a.Valid() && b.Valid() && a.Within(lo, hi) && b.Within(lo, hi)
    ensures result == RangeSum(SquaredDiffs(Dense(a), Dense(b)), lo, hi)
  {
    hide Mul, Sq, Lookup, Frontier, RangeSum;
    StartFrontier(a, b, lo, hi);
    EmptyRange(SquaredDiffs(Dense(a), Dense(b)), lo);
    ghost var f := SquaredDiffs(Dense(a), Dense(b));
    ghost var m := lo;
    DiffsVanish(a, b);
    result := 0.0;
    var i, j := 0, 0;
    while i < |a.indices| && j < |b.indices|
      invariant lo <= m <= hi && 0 <= i <= |a.indices| && 0 <= j <= |b.indices|
      invariant Frontier(a, i, m) && Frontier(b, j, m)
      invariant result == RangeSum(f, lo, m)
      decreases |a.indices| - i + |b.indices| - j
    {
      ghost var x := if a.indices[i] <= b.indices[j] then a.indices[i] else b.indices[j];
      MergeStep(f, a, b, i, j, lo, m, x);
      m := x + 1;
      if a.indices[i] == b.indices[j] {
        var diff := a.values[i] - b.values[j];
        result := result + Sq(diff);
        i := i + 1;
        j := j + 1;
      } else if a.indices[i] < b.indices[j] {
        result := result + Sq(a.values[i]);
        i := i + 1;
      } else {
        result := result + Sq(b.values[j]);
        j := j + 1;
      }
    }
    while i < |a.indices|
      invariant lo <= m <= hi && 0 <= i <= |a.indices| && 0 <= j <= |b.indices|
      invariant Frontier(a, i, m) && Frontier(b, j, m)
      invariant i == |a.indices| || j == |b.indices|
      invariant result == RangeSum(f, lo, m)
    {
      MergeStep(f, a, b, i, j, lo, m, a.indices[i]);
      m := a.indices[i] + 1;
      result := result + Sq(a.values[i]);
      i := i + 1;
    }
    while j < |b.indices|
      invariant lo <= m <= hi && 0 <= i <= |a.indices| && 0 <= j <= |b.indices|
      invariant Frontier(a, i, m) && Frontier(b, j, m) && i == |a.indices|
      invariant result == RangeSum(f, lo, m)
    {
      MergeStep(f, a, b, i, j, lo, m, b.indices[j]);
      m := b.indices[j] + 1;
      result := result + Sq(b.values[j]);
      j := j + 1;
    }
    forall k | m <= k < hi
      ensures f(k) == 0.0
    {
      GapIsZero(a, i, m, k);
      GapIsZero(b, j, m, k);
    }
    SumOverZeros(f, lo, m, hi);
  }

  // ---------- Against a dense array ----------

  /** numpy's `other[k]`: negative positions count from the end; None is an IndexError. */
  function ArrayAt(a: seq<real>, k: int): Option<real>
  {
    if 0 <= k < |a| then Some(a[k]) else if -|a| <= k < 0 then Some(a[|a| + k]) else None
  }

  /** A negative position names the entry that many places from the end. */
  lemma ArrayAtFromEnd(a: seq<real>, k: int)
    ensures ArrayAt(a, k).Some? <==> -|a| <= k < |a|
    ensures 0 <= k < |a| ==> ArrayAt(a, k) == Some(a[k])
    ensures 0 <= k < |a| ==> ArrayAt(a, k - |a|) == ArrayAt(a, k)
  {
  }

  /** values[i] * other[indices[i]] over the first n entries, negative positions included. */
  function EntrySum(v: Sparse, other: seq<real>, n: nat): real
    requires v.Valid() && n <= |v.indices|
    requires forall i :: 0 <= i < n ==> ArrayAt(other, v.indices[i]).Some?
  {
    if n == 0 then 0.0
    else EntrySum(v, other, n - 1) + Mul(v.values[n - 1], ArrayAt(other, v.indices[n - 1]).value)
  }

  /** `dot` with a one-dimensional array. */
  method DotArray(v: Sparse, other: seq<real>) returns (r: Option<real>)
    requires v.Valid()
    ensures r.None? <==> exists i :: 0 <= i < |v.indices| && ArrayAt(other, v.indices[i]).None?
    ensures r.Some? ==> r.value == EntrySum(v, other, |v.indices|)
    ensures v.Within(0, |other|) ==> r == Some(RangeSum(Products(Dense(v), DenseArray(other)), 0, |other|))
  {
    hide Mul, Lookup;
    ghost var f := Products(Dense(v), DenseArray(other));
    ghost var m := 0;
    ArrayProductsVanish(v, other);
    var result := 0.0;
    for i := 0 to |v.indices|
      invariant forall j :: 0 <= j < i ==> ArrayAt(other, v.indices[j]).Some?
      invariant result == EntrySum(v, other, i)
      invariant v.Within(0, |other|) ==> 0 <= m <= |other| && Frontier(v, i, m) && result == RangeSum(f, 0, m)
    {
      var x := ArrayAt(other, v.indices[i]);
      if x.None? {
        return None;
      }
      if v.Within(0, |other|) {
        MergeStep(f, v, v, i, i, 0, m, v.indices[i]);
        m := v.indices[i] + 1;
      }
      result := result + Mul(v.values[i], x.value);
    }
    if v.Within(0, |other|) {
      forall k | m <= k < |other|
        ensures f(k) == 0.0
      {
        GapIsZero(v, |v.indices|, m, k);
      }
      SumOverZeros(f, 0, m, |other|);
    }
    r := Some(result);
  }

  lemma ArrayProductsVanish(v: Sparse, other: seq<real>)
    requires |v.indices| == |v.values|
    ensures forall k :: At(v, k) == 0.0 ==> Products(Dense(v), DenseArray(other))(k) == 0.0
  {
    hide Mul, Lookup;
    forall k | At(v, k) == 0.0
      ensures Products(Dense(v), DenseArray(other))(k) == 0.0
    {
      MulOne(DenseArray(other)(k));
    }
  }

  /** `squared_distance` from a one-dimensional array: the distance over the array's coordinates, as
      long as no index is negative; a negative first index makes the loop skip every entry. */
  method SquaredDistanceArray(v: Sparse, other: seq<real>) returns (result: real)
    requires v.Valid()
    ensures v.indices == [] || v.indices[0] >= 0 ==>
              result == RangeSum(SquaredDiffs(Dense(v), DenseArray(other)), 0, |other|)
    ensures v.indices != [] && v.indices[0] < 0 ==>
              result == RangeSum(Products(DenseArray(other), DenseArray(other)), 0, |other|)
  {
    hide Mul, Lookup;
    ghost var f := SquaredDiffs(Dense(v), DenseArray(other));
    ghost var g := Products(DenseArray(other), DenseArray(other));
    ghost var natural := v.indices == [] || v.indices[0] >= 0;
    result := 0.0;
    var j := 0;
    for i := 0 to |other|
      invariant natural ==> Frontier(v, j, i) && result == RangeSum(f, 0, i)
      invariant !natural ==> j == 0 && result == RangeSum(g, 0, i)
    {
      if j < |v.indices| && v.indices[j] == i {
        if natural {
          LookupHit(v.indices, v.values, j);
          NextFrontier(v, j, i, i);
        }
        var diff := v.values[j] - other[i];
        result := result + Mul(diff, diff);
        j := j + 1;
      } else {
        if natural {
          GapIsZero(v, j, i, i);
          NextFrontier(v, j, i, i);
          SquareOfNegative(other[i]);
        }
        result := result + Mul(other[i], other[i]);
      }
    }
  }

  lemma SquareOfNegative(x: real)
    ensures Sq(0.0 - x) == Mul(x, x)
  {
  }

  // ---------- Laws ----------

  lemma {:induction false} DotSymmetric(f: int -> real, g: int -> real, lo: int, hi: int)
    ensures RangeSum(Products(f, g), lo, hi) == RangeSum(Products(g, f), lo, hi)
    decreases hi - lo
  {
    hide Mul;
    if lo < hi {
      DotSymmetric(f, g, lo, hi - 1);
      MulComm(f(hi - 1), g(hi - 1));
    }
  }

  lemma SquareOfDifference(x: real, y: real)
    ensures Sq(x - y) == Sq(y - x)
    ensures Sq(x - y) == Mul(x, x) + Mul(y, y) - 2.0 * Mul(x, y)
  {
  }

  /** |a - b|^2 = |b - a|^2 = a.a + b.b - 2 a.b, for what the loops above compute. */
  lemma {:induction false} Polarization(f: int -> real, g: int -> real, lo: int, hi: int)
    ensures RangeSum(SquaredDiffs(f, g), lo, hi) == RangeSum(SquaredDiffs(g, f), lo, hi)
    ensures RangeSum(SquaredDiffs(f, g), lo, hi)
         == RangeSum(Products(f, f), lo, hi) + RangeSum(Products(g, g), lo, hi) - 2.0 * RangeSum(Products(f, g), lo, hi)
    decreases hi - lo
  {
    hide Mul, Sq;
    if lo < hi {
      Polarization(f, g, lo, hi - 1);
      SquareOfDifference(f(hi - 1), g(hi - 1));
    }
  }
}
