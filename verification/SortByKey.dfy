/** `sortByKey` (rdd.py): sample-based range bounds, a shuffle by range, and a local sort. */
module SortByKey {
  import opened Reals
  import opened Seqs
  import opened Shuffle
  import opened Orders

  /** The number of leading bounds below x: where the scan of `rangePartitionFunc` stops. */
  function RangeIndex<K>(x: K, bounds: seq<K>, leq: (K, K) -> bool): (p: nat)
    ensures p <= |bounds|
    ensures forall i :: 0 <= i < p ==> !leq(x, bounds[i])
    ensures p < |bounds| ==> leq(x, bounds[p])
  {
    if bounds == [] || leq(x, bounds[0]) then 0 else 1 + RangeIndex(x, bounds[1..], leq)
  }

  /** The split of key k. */
  function Split<K>(bounds: seq<K>, keyfunc: K -> K, leq: (K, K) -> bool, ascending: bool, n: int): K -> int
  {
    k => if ascending then RangeIndex(keyfunc(k), bounds, leq) else n - 1 - RangeIndex(keyfunc(k), bounds, leq)
  }

  method RangePartitionFunc<K>(k: K, bounds: seq<K>, keyfunc: K -> K, leq: (K, K) -> bool, ascending: bool, numPartitions: int)
    returns (split: int)
    ensures split == Split(bounds, keyfunc, leq, ascending, numPartitions)(k)
  {
    var p := 0;
    while p < |bounds| && !leq(keyfunc(k), bounds[p])
      invariant 0 <= p <= |bounds|
      invariant RangeIndex(keyfunc(k), bounds, leq) == p + RangeIndex(keyfunc(k), bounds[p..], leq)
    {
      assert bounds[p..][1..] == bounds[p + 1..];
      p := p + 1;
    }
    if ascending {
      return p;
    } else {
      return numPartitions - 1 - p;
    }
  }

  /** Monotone for every bounds list, sorted or not. */
  lemma RangeMonotone<K(!new)>(x: K, y: K, bounds: seq<K>, leq: (K, K) -> bool)
    requires TotalPreorder(leq) && leq(x, y)
    ensures RangeIndex(x, bounds, leq) <= RangeIndex(y, bounds, leq)
  {
    var p := RangeIndex(y, bounds, leq);
    if p < |bounds| {
      assert leq(y, bounds[p]);
      assert leq(x, bounds[p]);
    }
  }

  /** `(len(samples) - 1) * (i + 1) / numPartitions` */
  function SampleIndex(len: int, i: int, n: int): int
    requires n > 0
  {
    (len - 1) * (i + 1) / n
  }

  lemma SampleIndexInRange(len: int, i: int, n: int)
    requires len >= 1 && 0 <= i < n - 1
    ensures 0 <= SampleIndex(len, i, n) < len
  {
    MulMonotone(len - 1, i + 1, n);
    DivBound((len - 1) * (i + 1), len - 1, n);
  }

  /** The samples taken as bounds are evenly spaced: each is the last one at or before its exact
      fraction of the way, and neighbours are (len - 1) / n or one more apart. */
  lemma SampleIndexSpacing(len: int, i: int, n: int)
    requires len >= 1 && n > 0
    ensures SampleIndex(len, i, n) * n <= (len - 1) * (i + 1) < SampleIndex(len, i, n) * n + n
    ensures (len - 1) / n <= SampleIndex(len, i + 1, n) - SampleIndex(len, i, n) <= (len - 1) / n + 1
  {
    var c := len - 1;
    assert c * (i + 1 + 1) == c * (i + 1) + c;
    QuotientBounds(c * (i + 1), n);
    DivSum(c * (i + 1), c, n);
  }

  /** Multiplication by name, so that the proof below can hide it. */
  function Scaled(x: int, n: int): int { x * n }

  lemma ScaledFacts(x: int, y: int, n: int)
    requires n > 0
    ensures Scaled(x + y, n) == Scaled(x, n) + Scaled(y, n)
    ensures Scaled(1, n) == n
    ensures x < y <==> Scaled(x, n) < Scaled(y, n)
  {
    if x < y {
      MulMonotone(n, 1, y - x);
      assert n * (y - x) == y * n - x * n;
    } else {
      MulMonotone(n, 0, x - y);
      assert n * (x - y) == x * n - y * n;
    }
  }

  lemma QuotientBounds(a: int, n: int)
    requires n > 0
    ensures Scaled(a / n, n) <= a < Scaled(a / n, n) + n
  {
  }

  lemma DivSum(a: int, b: int, n: int)
    requires n > 0
    ensures a / n + b / n <= (a + b) / n <= a / n + b / n + 1
  {
    hide Scaled;
    var q, r, s := a / n, b / n, (a + b) / n;
    QuotientBounds(a, n);
    QuotientBounds(b, n);
    QuotientBounds(a + b, n);
    ScaledFacts(q, r, n);
    ScaledFacts(s, 1, n);
    ScaledFacts(1, 1, n);
    ScaledFacts(q + r, 2, n);
    ScaledFacts(q + r, s + 1, n);
    ScaledFacts(s, q + r + 2, n);
  }

  lemma MulMonotone(c: int, x: int, y: int)
    requires c >= 0 && 0 <= x <= y
    ensures 0 <= c * x <= c * y
  {
  }

  lemma DivBound(a: int, q: int, n: int)
    requires 0 <= a <= q * n && n > 0
    ensures 0 <= a / n <= q
  {
  }

  /** The loop that picks the bounds; None stands for the IndexError on an empty sample. */
  method Bounds<K>(samples: seq<K>, numPartitions: int) returns (r: Option<seq<K>>)
    ensures r.None? <==> numPartitions > 1 && samples == []
    ensures r.Some? ==> |r.value| == if numPartitions > 1 then numPartitions - 1 else 0
    ensures r.Some? ==> forall i :: 0 <= i < |r.value| ==>
              var index := SampleIndex(|samples|, i, numPartitions);
              0 <= index < |samples| && r.value[i] == samples[index]
  {
    hide SampleIndex;
    var bounds: seq<K> := [];
    if numPartitions > 1 {
      for i := 0 to numPartitions - 1
        invariant |bounds| == i
        invariant i > 0 ==> samples != []
        invariant forall j :: 0 <= j < i ==>
                    var index := SampleIndex(|samples|, j, numPartitions);
                    0 <= index < |samples| && bounds[j] == samples[index]
      {
        if samples == [] {
          return None;
        }
        SampleIndexInRange(|samples|, i, numPartitions);
        bounds := bounds + [samples[SampleIndex(|samples|, i, numPartitions)]];
      }
    }
    return Some(bounds);
  }

  // ---------- The result ----------

  function RowKey<K, V>(keyfunc: K -> K): ((K, V)) -> K
  {
    (row: (K, V)) => keyfunc(row.0)
  }

  /** The order of the output rows. */
  function RowOrder<K, V>(keyfunc: K -> K, leq: (K, K) -> bool, ascending: bool): ((K, V), (K, V)) -> bool
  {
    ByKey(RowKey(keyfunc), leq, ascending)
  }

  /** Going through the rows, keyfunc of the key never falls, or never rises. */
  ghost predicate KeysInOrder<K, V>(rows: seq<(K, V)>, keyfunc: K -> K, leq: (K, K) -> bool, ascending: bool)
  {
    forall i, j :: 0 <= i < j < |rows| ==>
      if ascending then leq(keyfunc(rows[i].0), keyfunc(rows[j].0)) else leq(keyfunc(rows[j].0), keyfunc(rows[i].0))
  }

  lemma {:induction false} SplitsCount<K, V>(out: seq<seq<(K, V)>>, h: K -> int, n: int, lo: nat, x: (K, V), c: nat)
    requires n > 0
    requires forall r :: 0 <= r < |out| ==> multiset(out[r])[x] == if h(x.0) % n == lo + r then c else 0
    ensures multiset(Flatten(out))[x] == if lo <= h(x.0) % n < lo + |out| then c else 0
  {
    if out != [] {
      assert forall r :: 0 <= r < |out[1..]| ==> out[1..][r] == out[r + 1];
      SplitsCount(out[1..], h, n, lo + 1, x, c);
    }
  }

  /** A shuffle neither loses nor repeats a row. */
  lemma DeliveredKeepsRows<K(!new), V(!new)>(parts: seq<seq<(K, V)>>, h: K -> int, n: int, out: seq<seq<(K, V)>>)
    requires Delivered(parts, h, n, out)
    ensures multiset(Flatten(out)) == multiset(Flatten(parts))
  {
    forall x
      ensures multiset(Flatten(out))[x] == multiset(Flatten(parts))[x]
    {
      forall r | 0 <= r < n
        ensures multiset(out[r])[x] == if h(x.0) % n == 0 + r then multiset(Flatten(parts))[x] else 0
      {
        BucketCount(Flatten(parts), h, n, r, x);
      }
      SplitsCount(out, h, n, 0, x, multiset(Flatten(parts))[x]);
    }
  }

  lemma DeliveredSplit<K(!new), V(!new)>(parts: seq<seq<(K, V)>>, h: K -> int, n: int, out: seq<seq<(K, V)>>, r: int, x: (K, V))
    requires Delivered(parts, h, n, out) && 0 <= r < n && x in out[r]
    ensures h(x.0) % n == r
  {
    BucketCount(Flatten(parts), h, n, r, x);
    assert x in multiset(out[r]);
  }

  lemma {:induction false} FlattenSorted<T(!new)>(out: seq<seq<T>>, leq: (T, T) -> bool)
    requires forall r :: 0 <= r < |out| ==> Sorted(out[r], leq)
    requires forall r, s, x, y :: 0 <= r < s < |out| && x in out[r] && y in out[s] ==> leq(x, y)
    ensures Sorted(Flatten(out), leq)
  {
    if out != [] {
      var rest := out[1..];
      assert forall r :: 0 <= r < |rest| ==> rest[r] == out[r + 1];
      FlattenSorted(rest, leq);
      forall x, y | x in out[0] && y in Flatten(rest)
        ensures leq(x, y)
      {
        InFlatten(rest, y);
        var s :| 0 <= s < |rest| && y in rest[s];
        assert y in out[s + 1];
      }
      var flat := Flatten(out);
      forall i, j | 0 <= i < j < |flat|
        ensures leq(flat[i], flat[j])
      {
        if i < |out[0]| <= j {
          assert flat[i] in out[0] && flat[j] in Flatten(rest);
        }
      }
    }
  }

  lemma {:induction false} FlattenSameBags<T>(a: seq<seq<T>>, b: seq<seq<T>>)
    requires |a| == |b| && forall r :: 0 <= r < |a| ==> multiset(a[r]) == multiset(b[r])
    ensures multiset(Flatten(a)) == multiset(Flatten(b))
  {
    if a != [] {
      FlattenSameBags(a[1..], b[1..]);
    }
  }

  ghost predicate IsSortRun<K(!new), V(!new)>(parts: seq<seq<(K, V)>>, bounds: seq<K>, keyfunc: K -> K, leq: (K, K) -> bool,
                                  ascending: bool, n: int, shuffled: seq<seq<(K, V)>>, out: seq<seq<(K, V)>>)
  {
    && Delivered(parts, Split(bounds, keyfunc, leq, ascending, n), n, shuffled)
    && |out| == n
    && forall r :: 0 <= r < n ==> out[r] == Sort(shuffled[r], RowOrder(keyfunc, leq, ascending))
  }

  /** Main result: whatever list of n - 1 raw keys serves as bounds, whatever keyfunc and arrival
      order, the concatenated partitions are the input rows in keyfunc order. */
  lemma SortByKeyCorrect<K(!new), V(!new)>(parts: seq<seq<(K, V)>>, bounds: seq<K>, keyfunc: K -> K, leq: (K, K) -> bool,
                                           ascending: bool, n: int, shuffled: seq<seq<(K, V)>>, out: seq<seq<(K, V)>>)
    requires TotalPreorder(leq) && n >= 1 && |bounds| == n - 1
    requires IsSortRun(parts, bounds, keyfunc, leq, ascending, n, shuffled, out)
    ensures multiset(Flatten(out)) == multiset(Flatten(parts))
    ensures Sorted(Flatten(out), RowOrder(keyfunc, leq, ascending))
    ensures KeysInOrder(Flatten(out), keyfunc, leq, ascending)
  {
    var le := RowOrder<K, V>(keyfunc, leq, ascending);
    ByKeyIsPreorder(RowKey<K, V>(keyfunc), leq, ascending);
    forall r | 0 <= r < n
      ensures Sorted(out[r], le) && multiset(out[r]) == multiset(shuffled[r])
    {
      SortCorrect(shuffled[r], le);
    }
    FlattenSameBags(out, shuffled);
    DeliveredKeepsRows(parts, Split(bounds, keyfunc, leq, ascending, n), n, shuffled);
    forall r, s, x, y | 0 <= r < s < |out| && x in out[r] && y in out[s]
      ensures le(x, y)
    {
      InMultiset(out[r], shuffled[r], x);
      InMultiset(out[s], shuffled[s], y);
      AcrossSplits(parts, bounds, keyfunc, leq, ascending, n, shuffled, r, s, x, y);
    }
    FlattenSorted(out, le);
    forall i, j | 0 <= i < j < |Flatten(out)|
      ensures if ascending then leq(keyfunc(Flatten(out)[i].0), keyfunc(Flatten(out)[j].0))
                           else leq(keyfunc(Flatten(out)[j].0), keyfunc(Flatten(out)[i].0))
    {
      assert le(Flatten(out)[i], Flatten(out)[j]);
    }
  }

  lemma AcrossSplits<K(!new), V(!new)>(parts: seq<seq<(K, V)>>, bounds: seq<K>, keyfunc: K -> K, leq: (K, K) -> bool, ascending: bool,
                                       n: int, shuffled: seq<seq<(K, V)>>, r: int, s: int, x: (K, V), y: (K, V))
    requires TotalPreorder(leq) && n >= 1 && |bounds| == n - 1
    requires Delivered(parts, Split(bounds, keyfunc, leq, ascending, n), n, shuffled)
    requires 0 <= r < s < n && x in shuffled[r] && y in shuffled[s]
    ensures RowOrder<K, V>(keyfunc, leq, ascending)(x, y)
  {
    DeliveredSplit(parts, Split(bounds, keyfunc, leq, ascending, n), n, shuffled, r, x);
    DeliveredSplit(parts, Split(bounds, keyfunc, leq, ascending, n), n, shuffled, s, y);
    SplitInRange(x.0, bounds, keyfunc, leq, ascending, n);
    SplitInRange(y.0, bounds, keyfunc, leq, ascending, n);
    SplitsAreOrdered(x.0, y.0, bounds, keyfunc, leq, ascending, n);
  }

  /** Each row is in the split that the bounds give its key. */
  lemma SplitsHoldTheirRows<K(!new), V(!new)>(parts: seq<seq<(K, V)>>, bounds: seq<K>, keyfunc: K -> K, leq: (K, K) -> bool,
                                              ascending: bool, n: int, shuffled: seq<seq<(K, V)>>, out: seq<seq<(K, V)>>)
    requires TotalPreorder(leq) && n >= 1 && |bounds| == n - 1
    requires IsSortRun(parts, bounds, keyfunc, leq, ascending, n, shuffled, out)
    ensures InTheirSplits(out, bounds, keyfunc, leq, ascending, n)
  {
    var split := Split(bounds, keyfunc, leq, ascending, n);
    ByKeyIsPreorder(RowKey<K, V>(keyfunc), leq, ascending);
    forall p, row: (K, V) | 0 <= p < |out| && row in out[p]
      ensures Split(bounds, keyfunc, leq, ascending, n)(row.0) == p
    {
      SortCorrect(shuffled[p], RowOrder<K, V>(keyfunc, leq, ascending));
      InMultiset(out[p], shuffled[p], row);
      DeliveredSplit(parts, split, n, shuffled, p, row);
      SplitInRange(row.0, bounds, keyfunc, leq, ascending, n);
    }
  }

  ghost predicate InTheirSplits<K, V>(out: seq<seq<(K, V)>>, bounds: seq<K>, keyfunc: K -> K, leq: (K, K) -> bool, ascending: bool, n: int)
  {
    forall p, row: (K, V) :: 0 <= p < |out| && row in out[p] ==> Split(bounds, keyfunc, leq, ascending, n)(row.0) == p
  }

  /** `% numPartitions` changes nothing: the range function lands in 0..numPartitions - 1. */
  lemma SplitInRange<K>(k: K, bounds: seq<K>, keyfunc: K -> K, leq: (K, K) -> bool, ascending: bool, n: int)
    requires n >= 1 && |bounds| == n - 1
    ensures 0 <= Split(bounds, keyfunc, leq, ascending, n)(k) < n
    ensures Split(bounds, keyfunc, leq, ascending, n)(k) % n == Split(bounds, keyfunc, leq, ascending, n)(k)
  {
    SmallMod(Split(bounds, keyfunc, leq, ascending, n)(k), n);
  }

  lemma SmallMod(a: int, n: int)
    requires 0 <= a < n
    ensures a % n == a
  {
  }

  /** A key in an earlier split comes first in the requested direction. */
  lemma SplitsAreOrdered<K(!new)>(j: K, k: K, bounds: seq<K>, keyfunc: K -> K, leq: (K, K) -> bool, ascending: bool, n: int)
    requires TotalPreorder(leq)
    requires Split(bounds, keyfunc, leq, ascending, n)(j) < Split(bounds, keyfunc, leq, ascending, n)(k)
    ensures if ascending then leq(keyfunc(j), keyfunc(k)) else leq(keyfunc(k), keyfunc(j))
  {
    var a, b := keyfunc(j), keyfunc(k);
    if leq(b, a) {
      RangeMonotone(b, a, bounds, leq);
    }
    if leq(a, b) {
      RangeMonotone(a, b, bounds, leq);
    }
  }

  // ---------- The sample ----------

  /** `min(numPartitions * 20.0 / max(rddSize, 1), 1.0)` */
  function Fraction(size: nat, n: int): real
  {
    var f := (n * 20) as real / (if size > 1 then size else 1) as real;
    if f < 1.0 then f else 1.0
  }

  /** One uniform draw for every row. */
  predicate AreDraws(draws: seq<real>, size: nat)
  {
    |draws| == size && forall i :: 0 <= i < size ==> 0.0 <= draws[i] <= 1.0
  }

  /** The keys of the rows whose draw is within fraction, in collection order. */
  function Sampled<K, V>(rows: seq<(K, V)>, draws: seq<real>, fraction: real): seq<K>
    requires |draws| == |rows|
  {
    if rows == [] then []
    else
      var n := |rows| - 1;
      var before := Sampled(rows[..n], draws[..n], fraction);
      if draws[n] <= fraction then before + [rows[n].0] else before
  }

  lemma {:induction false} SampledKeys<K, V>(rows: seq<(K, V)>, draws: seq<real>, fraction: real)
    requires |draws| == |rows|
    ensures Sampled(rows, draws, fraction) == [] <==> forall i :: 0 <= i < |rows| ==> draws[i] > fraction
    ensures forall k :: k in Sampled(rows, draws, fraction) ==> k in Map(KeyOf, rows)
    ensures (forall i :: 0 <= i < |rows| ==> draws[i] <= fraction) ==> Sampled(rows, draws, fraction) == Map(KeyOf, rows)
  {
    if rows != [] {
      var n := |rows| - 1;
      SampledKeys(rows[..n], draws[..n], fraction);
      assert Map(KeyOf, rows) == Map(KeyOf, rows[..n]) + [rows[n].0];
      assert forall i :: 0 <= i < n ==> draws[..n][i] == draws[i];
    }
  }

  /** Sampling goes row by row, in order. */
  lemma {:induction false} SampledConcat<K, V>(s: seq<(K, V)>, d: seq<real>, t: seq<(K, V)>, e: seq<real>, fraction: real)
    requires |s| == |d| && |t| == |e|
    ensures Sampled(s + t, d + e, fraction) == Sampled(s, d, fraction) + Sampled(t, e, fraction)
    ensures |t| == 1 ==> Sampled(t, e, fraction) == if e[0] > fraction then [] else [t[0].0]
  {
    if t == [] {
      assert s + t == s && d + e == d;
    } else {
      var n := |t| - 1;
      SampledConcat(s, d, t[..n], e[..n], fraction);
      assert (s + t)[..|s + t| - 1] == s + t[..n] && (d + e)[..|d + e| - 1] == d + e[..n];
    }
  }

  method Sample<K, V>(rows: seq<(K, V)>, draws: seq<real>, fraction: real) returns (samples: seq<K>)
    requires |draws| == |rows|
    ensures samples == Sampled(rows, draws, fraction)
  {
    samples := [];
    for i := 0 to |rows|
      invariant samples == Sampled(rows[..i], draws[..i], fraction)
    {
      assert rows[..i + 1][..i] == rows[..i] && draws[..i + 1][..i] == draws[..i];
      if draws[i] <= fraction {
        samples := samples + [rows[i].0];
      }
    }
    assert rows[..|rows|] == rows && draws[..|rows|] == draws;
  }

  /** Up to 20 rows a partition, everything is sampled; above that, 20 rows a partition on average. */
  lemma FractionIsOne(size: nat, n: int)
    requires n >= 1
    ensures 0.0 < Fraction(size, n) <= 1.0
    ensures Fraction(size, n) == 1.0 <==> size <= 20 * n
    ensures size > 20 * n ==> Mul(size as real, Fraction(size, n)) == (20 * n) as real
  {
    var d := (if size > 1 then size else 1) as real;
    RatioBelowOne((n * 20) as real, d);
    Quotient((n * 20) as real, d);
    hide Mul;
  }

  lemma RatioBelowOne(a: real, d: real)
    requires a > 0.0 && d > 0.0
    ensures a / d > 0.0
    ensures a / d < 1.0 <==> a < d
  {
    var q := a / d;
    Quotient(a, d);
    hide Mul;
    MulOne(d);
    MulAdd(d, q, 1.0);
    MulAdd(d, 1.0, q);
    MulAdd(d, 0.0, q);
    if q >= 1.0 {
      MulPositive(d, q - 1.0);
    } else if q > 0.0 {
      MulPositive(d, 1.0 - q);
    } else {
      MulPositive(d, 0.0 - q);
    }
  }

  /** Some rows, but no more than 20 a partition. */
  predicate SampleIsSafe(size: nat, n: int)
  {
    1 <= size <= 20 * n
  }

  /** Main result on failure: sorting data of a given size into n > 1 partitions succeeds whatever
      is drawn exactly when there are between 1 and 20 * n rows; then every key is sampled. */
  lemma SampleIsSafeExact<K, V>(rows: seq<(K, V)>, n: int)
    requires n > 1
    ensures SampleIsSafe(|rows|, n) <==>
            forall draws :: AreDraws(draws, |rows|) ==> Sampled(rows, draws, Fraction(|rows|, n)) != []
    ensures SampleIsSafe(|rows|, n) ==>
              forall draws :: AreDraws(draws, |rows|) ==> Sampled(rows, draws, Fraction(|rows|, n)) == Map(KeyOf, rows)
  {
    var f := Fraction(|rows|, n);
    FractionIsOne(|rows|, n);
    forall draws | AreDraws(draws, |rows|)
      ensures Sampled(rows, draws, f) == [] <==> forall i :: 0 <= i < |rows| ==> draws[i] > f
    {
      SampledKeys(rows, draws, f);
    }
    if !SampleIsSafe(|rows|, n) {
      var high := (1.0 + f) / 2.0;
      var draws: seq<real> := seq(|rows|, i => high);
      assert AreDraws(draws, |rows|);
      assert Sampled(rows, draws, f) == [];
    }
    if SampleIsSafe(|rows|, n) {
      forall draws | AreDraws(draws, |rows|)
        ensures Sampled(rows, draws, f) == Map(KeyOf, rows)
      {
        SampledKeys(rows, draws, f);
      }
    }
  }

  // ---------- Running it ----------

  /** The bounds are taken, evenly spaced, from the sampled keys in the requested order. */
  ghost predicate AreBounds<K, V>(bounds: seq<K>, rows: seq<(K, V)>, draws: seq<real>, ascending: bool, n: int,
                                  keyfunc: K -> K, leq: (K, K) -> bool)
  {
    && n >= 1 && |bounds| == n - 1 && |draws| == |rows|
    && var samples := Sort(Sampled(rows, draws, Fraction(|rows|, n)), ByKey(keyfunc, leq, ascending));
       forall i :: 0 <= i < n - 1 ==> 0 <= SampleIndex(|samples|, i, n) < |samples| && bounds[i] == samples[SampleIndex(|samples|, i, n)]
  }

  /** The first half: sample and choose the bounds. None is the IndexError on an empty sample. */
  method ChooseBounds<K(!new), V>(rows: seq<(K, V)>, ascending: bool, numPartitions: int, keyfunc: K -> K,
                                  leq: (K, K) -> bool, draws: seq<real>)
    returns (r: Option<seq<K>>)
    requires TotalPreorder(leq) && numPartitions >= 1 && AreDraws(draws, |rows|)
    ensures r.None? <==> numPartitions > 1 && forall i :: 0 <= i < |draws| ==> draws[i] > Fraction(|draws|, numPartitions)
    ensures r.Some? ==> AreBounds(r.value, rows, draws, ascending, numPartitions, keyfunc, leq)
  {
    hide Fraction, Sampled, TotalPreorder, Sorted;
    var samples: seq<K> := [];
    if numPartitions > 1 {
      samples := Sample(rows, draws, Fraction(|rows|, numPartitions));
      SampledKeys(rows, draws, Fraction(|rows|, numPartitions));
    }
    var sampleOrder := ByKey(keyfunc, leq, ascending);
    ByKeyIsPreorder(keyfunc, leq, ascending);
    SortCorrect(samples, sampleOrder);
    r := Bounds(Sort(samples, sampleOrder), numPartitions);
  }

  /** The second half: shuffle by range and sort each split. */
  method SortInto<K(==, !new), V(!new)>(parts: seq<seq<(K, V)>>, bounds: seq<K>, ascending: bool, numPartitions: int,
                                        keyfunc: K -> K, leq: (K, K) -> bool)
    returns (out: seq<seq<(K, V)>>)
    requires TotalPreorder(leq) && numPartitions >= 1 && |bounds| == numPartitions - 1
    ensures |out| == numPartitions
    ensures multiset(Flatten(out)) == multiset(Flatten(parts))
    ensures KeysInOrder(Flatten(out), keyfunc, leq, ascending)
    ensures InTheirSplits(out, bounds, keyfunc, leq, ascending, numPartitions)
  {
    hide KeysInOrder, InTheirSplits, TotalPreorder, Sorted, Sort;
    var shuffled := PartitionBy(parts, Split(bounds, keyfunc, leq, ascending, numPartitions), numPartitions);
    assert |shuffled| == numPartitions;
    hide Delivered;
    var rowOrder := RowOrder(keyfunc, leq, ascending);
    out := seq(|shuffled|, i requires 0 <= i < |shuffled| => Sort(shuffled[i], rowOrder));
    SortByKeyCorrect(parts, bounds, keyfunc, leq, ascending, numPartitions, shuffled, out);
    SplitsHoldTheirRows(parts, bounds, keyfunc, leq, ascending, numPartitions, shuffled, out);
  }

  /** `sortByKey` with the uniform draws its sampler makes; None is the IndexError on an empty
      sample. */
  method Run<K(==, !new), V(!new)>(parts: seq<seq<(K, V)>>, ascending: bool, numPartitions: int, keyfunc: K -> K,
                                   leq: (K, K) -> bool, draws: seq<real>)
    returns (r: Option<seq<seq<(K, V)>>>, ghost bounds: seq<K>)
    requires TotalPreorder(leq) && numPartitions >= 1
    requires AreDraws(draws, |Flatten(parts)|)
    ensures r.None? <==> numPartitions > 1 && forall i :: 0 <= i < |draws| ==> draws[i] > Fraction(|draws|, numPartitions)
    ensures numPartitions > 1 && Flatten(parts) == [] ==> r.None?
    ensures numPartitions == 1 || SampleIsSafe(|Flatten(parts)|, numPartitions) ==> r.Some?
    ensures r.Some? ==> |r.value| == numPartitions
    ensures r.Some? ==> multiset(Flatten(r.value)) == multiset(Flatten(parts))
    ensures r.Some? ==> KeysInOrder(Flatten(r.value), keyfunc, leq, ascending)
    ensures r.Some? ==> AreBounds(bounds, Flatten(parts), draws, ascending, numPartitions, keyfunc, leq)
    ensures r.Some? ==> InTheirSplits(r.value, bounds, keyfunc, leq, ascending, numPartitions)
  {
    FractionIsOne(|draws|, numPartitions);
    if SampleIsSafe(|draws|, numPartitions) {
      assert draws[0] <= Fraction(|draws|, numPartitions);
    }
    var chosen := ChooseBounds(Flatten(parts), ascending, numPartitions, keyfunc, leq, draws);
    bounds := [];
    if chosen.None? {
      return None, bounds;
    }
    bounds := chosen.value;
    hide Fraction, KeysInOrder, InTheirSplits, TotalPreorder;
    var out := SortInto(parts, chosen.value, ascending, numPartitions, keyfunc, leq);
    r := Some(out);
  }
}
