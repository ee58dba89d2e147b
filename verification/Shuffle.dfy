/** `partitionBy` and `combineByKey` (rdd.py): map-side combining, a shuffle that delivers the
    buckets in any order, and reduce-side merging. */
module Shuffle {
  import opened Seqs

  // ---------- The value a key must end up with ----------

  /** op extended with None as neutral element: "no value seen yet". */
  function Plus<D>(op: (D, D) -> D, a: Option<D>, b: Option<D>): Option<D>
  {
    if a.None? then b else if b.None? then a else Some(op(a.value, b.value))
  }

  ghost predicate Associative<D(!new)>(op: (D, D) -> D)
  {
    forall a, b, c :: op(op(a, b), c) == op(a, op(b, c))
  }

  ghost predicate Commutative<D(!new)>(op: (D, D) -> D)
  {
    forall a, b :: op(a, b) == op(b, a)
  }

  ghost predicate AC<D(!new)>(op: (D, D) -> D)
  {
    Associative(op) && Commutative(op)
  }

  /** The left fold of op over f of every value that s pairs with key k. */
  function Total<K(==), V, D>(k: K, s: seq<(K, V)>, f: V -> D, op: (D, D) -> D): Option<D>
  {
    if s == [] then None
    else
      var last := s[|s| - 1];
      var before := Total(k, s[..|s| - 1], f, op);
      if last.0 == k then Plus(op, before, Some(f(last.1))) else before
  }

  lemma TotalSnoc<K, V, D>(k: K, s: seq<(K, V)>, p: (K, V), f: V -> D, op: (D, D) -> D)
    ensures Total(k, s + [p], f, op)
         == if p.0 == k then Plus(op, Total(k, s, f, op), Some(f(p.1))) else Total(k, s, f, op)
  {
    assert (s + [p])[..|s + [p]| - 1] == s;
  }

  lemma {:induction false} TotalSome<K, V, D>(k: K, s: seq<(K, V)>, f: V -> D, op: (D, D) -> D)
    ensures Total(k, s, f, op).Some? <==> exists i :: 0 <= i < |s| && s[i].0 == k
  {
    if s != [] {
      var n := |s| - 1;
      TotalSome(k, s[..n], f, op);
      if Total(k, s[..n], f, op).Some? {
        var i :| 0 <= i < |s[..n]| && s[..n][i].0 == k;
        assert s[i].0 == k;
      }
      forall i | 0 <= i < |s| && s[i].0 == k
        ensures Total(k, s, f, op).Some?
      {
        if i < n {
          assert s[..n][i].0 == k;
        }
      }
    }
  }

  lemma {:induction false} TotalConcat<K, V, D(!new)>(k: K, s: seq<(K, V)>, t: seq<(K, V)>, f: V -> D, op: (D, D) -> D)
    requires Associative(op)
    ensures Total(k, s + t, f, op) == Plus(op, Total(k, s, f, op), Total(k, t, f, op))
  {
    if t == [] {
      assert s + t == s;
    } else {
      var n := |t| - 1;
      TotalConcat(k, s, t[..n], f, op);
      assert s + t == (s + t[..n]) + [t[n]];
      TotalSnoc(k, s + t[..n], t[n], f, op);
    }
  }

  /** Arrival order is irrelevant to a commutative and associative op. */
  lemma {:induction false} TotalPerm<K, V, D(!new)>(k: K, s: seq<(K, V)>, t: seq<(K, V)>, f: V -> D, op: (D, D) -> D)
    requires AC(op)
    requires multiset(s) == multiset(t)
    ensures Total(k, s, f, op) == Total(k, t, f, op)
  {
    if s == [] {
      assert |multiset(t)| == 0;
    } else {
      var n := |s| - 1;
      var x := s[n];
      var a, b := TakeOut(s, t);
      TotalPerm(k, s[..n], a + b, f, op);
      TotalConcat(k, a, b, f, op);
      TotalConcat(k, a + [x], b, f, op);
      TotalSnoc(k, a, x, f, op);
    }
  }

  // ---------- Sums of reals by key ----------

  function AddReal(a: real, b: real): real { a + b }

  function Identity<C>(c: C): C { c }

  function SumAt<K(==)>(k: K, s: seq<(K, real)>): real
  {
    match Total(k, s, Identity, AddReal)
    case None => 0.0
    case Some(r) => r
  }

  lemma SumAtSnoc<K>(k: K, s: seq<(K, real)>, p: (K, real))
    ensures SumAt(k, s + [p]) == SumAt(k, s) + if p.0 == k then p.1 else 0.0
  {
    TotalSnoc(k, s, p, Identity, AddReal);
  }

  function Second<K>(p: (K, real)): real { p.1 }

  lemma {:induction false} SumAtMissing<K(!new)>(k: K, keys: seq<K>, s: seq<(K, real)>, p: (K, real))
    requires k !in keys
    requires p.0 == k
    ensures SumAtAll(keys, s + [p]) == SumAtAll(keys, s)
  {
    if keys != [] {
      SumAtMissing(k, keys[..|keys| - 1], s, p);
      SumAtSnoc(keys[|keys| - 1], s, p);
    }
  }

  function SumAtAll<K(==)>(keys: seq<K>, s: seq<(K, real)>): real
  {
    if keys == [] then 0.0 else SumAtAll(keys[..|keys| - 1], s) + SumAt(keys[|keys| - 1], s)
  }

  lemma {:induction false} SumAtAdd<K(!new)>(keys: seq<K>, s: seq<(K, real)>, p: (K, real))
    requires NoDup(keys) && p.0 in keys
    ensures SumAtAll(keys, s + [p]) == SumAtAll(keys, s) + p.1
  {
    var n := |keys| - 1;
    SumAtSnoc(keys[n], s, p);
    if keys[n] == p.0 {
      assert forall i :: 0 <= i < n ==> keys[..n][i] != keys[n];
      SumAtMissing(p.0, keys[..n], s, p);
    } else {
      SumAtAdd(keys[..n], s, p);
    }
  }

  lemma {:induction false} SumAtNone<K>(keys: seq<K>)
    ensures SumAtAll(keys, []) == 0.0
  {
    if keys != [] {
      SumAtNone(keys[..|keys| - 1]);
    }
  }

  /** Summing key by key over a duplicate-free list of all keys sums everything. */
  lemma {:induction false} SumByKey<K(!new)>(keys: seq<K>, s: seq<(K, real)>)
    requires NoDup(keys)
    requires forall i :: 0 <= i < |s| ==> s[i].0 in keys
    ensures SumAtAll(keys, s) == Sum(Map(Second, s))
  {
    if s == [] {
      SumAtNone(keys);
    } else {
      var n := |s| - 1;
      SumByKey(keys, s[..n]);
      assert s == s[..n] + [s[n]];
      SumAtAdd(keys, s[..n], s[n]);
      assert Map(Second, s)[..n] == Map(Second, s[..n]);
    }
  }

  // ---------- combineLocally and _mergeCombiners ----------

  function Get<K(==), C>(m: map<K, C>, k: K): Option<C>
  {
    if k in m then Some(m[k]) else None
  }

  function CombineStep<K(==), V, C>(m: map<K, C>, p: (K, V), create: V -> C, merge: (C, V) -> C): map<K, C>
  {
    if p.0 in m then m[p.0 := merge(m[p.0], p.1)] else m[p.0 := create(p.1)]
  }

  /** The dictionary the loop over one partition builds. */
  function Combine<K(==), V, C>(s: seq<(K, V)>, create: V -> C, merge: (C, V) -> C): map<K, C>
  {
    if s == [] then map[]
    else CombineStep(Combine(s[..|s| - 1], create, merge), s[|s| - 1], create, merge)
  }

  /** The loop of `combineLocally`; `_mergeCombiners` is the same loop with the identity as
      createCombiner and mergeCombiners as mergeValue. */
  method CombineLocally<K(==), V, C>(pairs: seq<(K, V)>, create: V -> C, merge: (C, V) -> C)
    returns (items: seq<(K, C)>)
    ensures Enumerates(items, Combine(pairs, create, merge))
  {
    var combiners: map<K, C> := map[];
    for i := 0 to |pairs|
      invariant combiners == Combine(pairs[..i], create, merge)
    {
      var (k, v) := pairs[i];
      assert pairs[..i + 1][..i] == pairs[..i];
      if k !in combiners {
        combiners := combiners[k := create(v)];
      } else {
        combiners := combiners[k := merge(combiners[k], v)];
      }
    }
    assert pairs[..|pairs|] == pairs;
    items := Items(combiners);
  }

  function View<C, D>(view: C -> D, c: Option<C>): Option<D>
  {
    if c.None? then None else Some(view(c.value))
  }

  /** What mergeValue must satisfy, seen through view (the identity when the combined values
      themselves are compared, `multiset` when only the contents of a list matter). */
  ghost predicate Follows<V(!new), C(!new), D(!new)>(view: C -> D, unit: V -> D, op: (D, D) -> D,
                                                     create: V -> C, merge: (C, V) -> C)
  {
    && (forall v :: view(create(v)) == unit(v))
    && (forall c, v :: view(merge(c, v)) == op(view(c), unit(v)))
  }

  lemma {:induction false} CombineTotals<K, V(!new), C(!new), D(!new)>(
      k: K, s: seq<(K, V)>, create: V -> C, merge: (C, V) -> C, view: C -> D, unit: V -> D, op: (D, D) -> D)
    requires Follows(view, unit, op, create, merge)
    ensures View(view, Get(Combine(s, create, merge), k)) == Total(k, s, unit, op)
  {
    if s != [] {
      CombineTotals(k, s[..|s| - 1], create, merge, view, unit, op);
    }
  }

  lemma {:induction false} NoKeyNoTotal<K, V, D>(k: K, s: seq<(K, V)>, f: V -> D, op: (D, D) -> D)
    requires forall i :: 0 <= i < |s| ==> s[i].0 != k
    ensures Total(k, s, f, op) == None
  {
    if s != [] {
      NoKeyNoTotal(k, s[..|s| - 1], f, op);
    }
  }

  /** With unique keys, the total at a key is its one entry. */
  lemma {:induction false} UniqueTotal<K, C, D(!new)>(s: seq<(K, C)>, i: nat, f: C -> D, op: (D, D) -> D)
    requires UniqueKeys(s) && i < |s|
    ensures Total(s[i].0, s, f, op) == Some(f(s[i].1))
  {
    var n := |s| - 1;
    if i == n {
      NoKeyNoTotal(s[i].0, s[..n], f, op);
    } else {
      UniqueTotal(s[..n], i, f, op);
    }
  }

  lemma EnumerationTotals<K, C, D(!new)>(k: K, e: seq<(K, C)>, m: map<K, C>, f: C -> D, op: (D, D) -> D)
    requires Enumerates(e, m)
    ensures Total(k, e, f, op) == View(f, Get(m, k))
  {
    if k in m {
      var i :| 0 <= i < |e| && e[i] == (k, m[k]);
      UniqueTotal(e, i, f, op);
    } else {
      NoKeyNoTotal(k, e, f, op);
    }
  }

  // ---------- partitionBy ----------

  /** The items of s that partitionFunc sends to split r of n. */
  function Bucket<K, V>(s: seq<(K, V)>, h: K -> int, n: int, r: int): seq<(K, V)>
    requires n > 0
  {
    if s == [] then []
    else
      var before := Bucket(s[..|s| - 1], h, n, r);
      if h(s[|s| - 1].0) % n == r then before + [s[|s| - 1]] else before
  }

  lemma {:induction false} BucketConcat<K, V>(s: seq<(K, V)>, t: seq<(K, V)>, h: K -> int, n: int, r: int)
    requires n > 0
    ensures Bucket(s + t, h, n, r) == Bucket(s, h, n, r) + Bucket(t, h, n, r)
  {
    if t == [] {
      assert s + t == s;
    } else {
      assert (s + t)[..|s + t| - 1] == s + t[..|t| - 1];
      BucketConcat(s, t[..|t| - 1], h, n, r);
    }
  }

  lemma {:induction false} BucketCount<K, V>(s: seq<(K, V)>, h: K -> int, n: int, r: int, x: (K, V))
    requires n > 0
    ensures multiset(Bucket(s, h, n, r))[x] == if h(x.0) % n == r then multiset(s)[x] else 0
  {
    if s != [] {
      BucketCount(s[..|s| - 1], h, n, r, x);
      DropLast(s);
    }
  }

  /** `add_shuffle_key`: the buckets of one map task, and only the splits that got an item. */
  method AddShuffleKey<K(==), V>(pairs: seq<(K, V)>, h: K -> int, n: int) returns (buckets: map<int, seq<(K, V)>>)
    requires n > 0
    ensures forall r :: r in buckets <==> Bucket(pairs, h, n, r) != []
    ensures forall r :: r in buckets ==> 0 <= r < n && buckets[r] == Bucket(pairs, h, n, r)
  {
    buckets := map[];
    for i := 0 to |pairs|
      invariant forall r :: r in buckets <==> Bucket(pairs[..i], h, n, r) != []
      invariant forall r :: r in buckets ==> 0 <= r < n && buckets[r] == Bucket(pairs[..i], h, n, r)
    {
      assert pairs[..i + 1][..i] == pairs[..i];
      var (k, v) := pairs[i];
      var split := h(k) % n;
      buckets := buckets[split := (if split in buckets then buckets[split] else []) + [(k, v)]];
    }
    assert pairs[..|pairs|] == pairs;
  }

  /** What the shuffle guarantees: every pair reaches the split of its key exactly once, in any order. */
  ghost predicate Delivered<K, V>(parts: seq<seq<(K, V)>>, h: K -> int, n: int, out: seq<seq<(K, V)>>)
  {
    && n > 0
    && |out| == n
    && forall r :: 0 <= r < n ==> multiset(out[r]) == multiset(Bucket(Flatten(parts), h, n, r))
  }

  /** The buckets that the map tasks produced for split r, in task order. */
  function BucketsFor<K, V>(parts: seq<seq<(K, V)>>, h: K -> int, n: int, r: int): (bs: seq<seq<(K, V)>>)
    requires n > 0
    ensures |bs| == |parts|
    ensures forall i :: 0 <= i < |parts| ==> bs[i] == Bucket(parts[i], h, n, r)
  {
    seq(|parts|, i requires 0 <= i < |parts| => Bucket(parts[i], h, n, r))
  }

  lemma {:induction false} FlattenPerm<T>(xss: seq<seq<T>>, yss: seq<seq<T>>)
    requires multiset(xss) == multiset(yss)
    ensures multiset(Flatten(xss)) == multiset(Flatten(yss))
  {
    if xss == [] {
      assert |multiset(yss)| == 0;
    } else {
      var x := xss[|xss| - 1];
      var a, b := TakeOut(xss, yss);
      FlattenPerm(xss[..|xss| - 1], a + b);
      DropLast(xss);
      FlattenConcat(xss[..|xss| - 1], [x]);
      FlattenConcat(a, b);
      FlattenConcat(a + [x], b);
      FlattenConcat(a, [x]);
      FlattenOne(x);
    }
  }

  lemma {:induction false} BucketsFlatten<K, V>(parts: seq<seq<(K, V)>>, h: K -> int, n: int, r: int)
    requires n > 0
    ensures Flatten(BucketsFor(parts, h, n, r)) == Bucket(Flatten(parts), h, n, r)
  {
    if parts != [] {
      BucketsFlatten(parts[1..], h, n, r);
      assert BucketsFor(parts, h, n, r)[1..] == BucketsFor(parts[1..], h, n, r);
      BucketConcat(parts[0], Flatten(parts[1..]), h, n, r);
    }
  }

  /** However the bucket frames interleave, each reducer reads a permutation of its share. */
  lemma AnyArrivalOrderDelivers<K, V>(parts: seq<seq<(K, V)>>, h: K -> int, n: int,
                                      arrivals: seq<seq<seq<(K, V)>>>, out: seq<seq<(K, V)>>)
    requires n > 0 && |arrivals| == |out| == n
    requires forall r :: 0 <= r < n ==> multiset(arrivals[r]) == multiset(BucketsFor(parts, h, n, r))
    requires forall r :: 0 <= r < n ==> out[r] == Flatten(arrivals[r])
    ensures Delivered(parts, h, n, out)
  {
    forall r | 0 <= r < n
      ensures multiset(out[r]) == multiset(Bucket(Flatten(parts), h, n, r))
    {
      FlattenPerm(arrivals[r], BucketsFor(parts, h, n, r));
      BucketsFlatten(parts, h, n, r);
    }
  }

  /** A key's pairs all go to one split, none to another. */
  lemma {:induction false} BucketTotal<K, V, D(!new)>(k: K, s: seq<(K, V)>, h: K -> int, n: int, r: int, f: V -> D, op: (D, D) -> D)
    requires n > 0
    ensures Total(k, Bucket(s, h, n, r), f, op) == if h(k) % n == r then Total(k, s, f, op) else None
  {
    if s != [] {
      var m := |s| - 1;
      BucketTotal(k, s[..m], h, n, r, f, op);
      TotalSnoc(k, Bucket(s[..m], h, n, r), s[m], f, op);
    }
  }

  // ---------- combineByKey ----------

  /** What `combineByKey` promises for the pairs of input, with out in partition order: each input
      key once, holding (seen through view) the fold of all its values. */
  ghost predicate Combined<K(!new), V, C, D>(input: seq<(K, V)>, view: C -> D, unit: V -> D, op: (D, D) -> D,
                                             out: seq<(K, C)>)
  {
    && UniqueKeys(out)
    && (forall i :: 0 <= i < |out| ==> Total(out[i].0, input, unit, op) == Some(view(out[i].1)))
    && (forall k :: Total(k, input, unit, op).Some? ==> exists i :: 0 <= i < |out| && out[i].0 == k)
  }

  /** One run: the local dictionaries, the shuffled pairs and the merged dictionaries, each listed
      in whatever order its iteration took. */
  ghost predicate IsRun<K, V, C>(parts: seq<seq<(K, V)>>, create: V -> C, mergeValue: (C, V) -> C,
                                 mergeCombiners: (C, C) -> C, h: K -> int, n: int,
                                 local: seq<seq<(K, C)>>, shuffled: seq<seq<(K, C)>>, out: seq<seq<(K, C)>>)
  {
    && |local| == |parts|
    && (forall i :: 0 <= i < |parts| ==> Enumerates(local[i], Combine(parts[i], create, mergeValue)))
    && Delivered(local, h, n, shuffled)
    && |out| == n
    && (forall r :: 0 <= r < n ==> Enumerates(out[r], Combine(shuffled[r], Identity, mergeCombiners)))
  }

  lemma {:induction false} LocalTotals<K, V(!new), C(!new), D(!new)>(
      k: K, parts: seq<seq<(K, V)>>, local: seq<seq<(K, C)>>, create: V -> C, merge: (C, V) -> C,
      view: C -> D, unit: V -> D, op: (D, D) -> D)
    requires Associative(op) && Follows(view, unit, op, create, merge)
    requires |local| == |parts|
    requires forall i :: 0 <= i < |parts| ==> Enumerates(local[i], Combine(parts[i], create, merge))
    ensures Total(k, Flatten(local), view, op) == Total(k, Flatten(parts), unit, op)
  {
    if parts != [] {
      LocalTotals(k, parts[1..], local[1..], create, merge, view, unit, op);
      TotalConcat(k, local[0], Flatten(local[1..]), view, op);
      TotalConcat(k, parts[0], Flatten(parts[1..]), unit, op);
      EnumerationTotals(k, local[0], Combine(parts[0], create, merge), view, op);
      CombineTotals(k, parts[0], create, merge, view, unit, op);
    }
  }

  /** The dictionary of reducer r holds, for a key of its own, the total over the whole input. */
  lemma ReducerTotals<K, V(!new), C(!new), D(!new)>(
      k: K, r: int, parts: seq<seq<(K, V)>>, create: V -> C, mergeValue: (C, V) -> C, mergeCombiners: (C, C) -> C,
      h: K -> int, n: int, local: seq<seq<(K, C)>>, shuffled: seq<seq<(K, C)>>, out: seq<seq<(K, C)>>,
      view: C -> D, unit: V -> D, op: (D, D) -> D)
    requires IsRun(parts, create, mergeValue, mergeCombiners, h, n, local, shuffled, out)
    requires AC(op) && Follows(view, unit, op, create, mergeValue)
    requires Follows(view, view, op, Identity, mergeCombiners)
    requires 0 <= r < n
    ensures View(view, Get(Combine(shuffled[r], Identity, mergeCombiners), k))
         == if h(k) % n == r then Total(k, Flatten(parts), unit, op) else None
  {
    CombineTotals(k, shuffled[r], Identity, mergeCombiners, view, view, op);
    TotalPerm(k, shuffled[r], Bucket(Flatten(local), h, n, r), view, op);
    BucketTotal(k, Flatten(local), h, n, r, view, op);
    LocalTotals(k, parts, local, create, mergeValue, view, unit, op);
  }

  lemma {:induction false} UniqueAcross<K, C>(out: seq<seq<(K, C)>>, h: K -> int, n: int, lo: nat)
    requires n > 0 && lo + |out| == n
    requires forall r :: 0 <= r < |out| ==> UniqueKeys(out[r])
    requires forall r, i :: 0 <= r < |out| && 0 <= i < |out[r]| ==> h(out[r][i].0) % n == lo + r
    ensures UniqueKeys(Flatten(out))
    ensures forall i :: 0 <= i < |Flatten(out)| ==> h(Flatten(out)[i].0) % n >= lo
  {
    if out != [] {
      assert forall r :: 0 <= r < |out[1..]| ==> out[1..][r] == out[r + 1];
      UniqueAcross(out[1..], h, n, lo + 1);
    }
  }

  /** Main result: for every partitioning, partition function, arrival order and dictionary order,
      `combineByKey` emits each key exactly once, in its own split, with the fold of all its values. */
  lemma CombineByKeyCorrect<K(!new), V(!new), C(!new), D(!new)>(
      parts: seq<seq<(K, V)>>, create: V -> C, mergeValue: (C, V) -> C, mergeCombiners: (C, C) -> C,
      h: K -> int, n: int, local: seq<seq<(K, C)>>, shuffled: seq<seq<(K, C)>>, out: seq<seq<(K, C)>>,
      view: C -> D, unit: V -> D, op: (D, D) -> D)
    requires IsRun(parts, create, mergeValue, mergeCombiners, h, n, local, shuffled, out)
    requires AC(op) && Follows(view, unit, op, create, mergeValue)
    requires Follows(view, view, op, Identity, mergeCombiners)
    ensures Combined(Flatten(parts), view, unit, op, Flatten(out))
    ensures forall r, i :: 0 <= r < n && 0 <= i < |out[r]| ==> h(out[r][i].0) % n == r
  {
    assert n > 0;
    hide Total, Combine, Delivered, Associative, Commutative, Follows;
    var input, flat := Flatten(parts), Flatten(out);
    forall r, i | 0 <= r < n && 0 <= i < |out[r]|
      ensures h(out[r][i].0) % n == r
      ensures Total(out[r][i].0, input, unit, op) == Some(view(out[r][i].1))
    {
      ReducerTotals(out[r][i].0, r, parts, create, mergeValue, mergeCombiners, h, n, local, shuffled, out, view, unit, op);
    }
    UniqueAcross(out, h, n, 0);
    forall i | 0 <= i < |flat|
      ensures Total(flat[i].0, input, unit, op) == Some(view(flat[i].1))
    {
      InFlatten(out, flat[i]);
      var r :| 0 <= r < |out| && flat[i] in out[r];
      var j :| 0 <= j < |out[r]| && out[r][j] == flat[i];
    }
    forall k | Total(k, input, unit, op).Some?
      ensures exists i :: 0 <= i < |flat| && flat[i].0 == k
    {
      EveryKeyIsEmitted(k, parts, create, mergeValue, mergeCombiners, h, n, local, shuffled, out, view, unit, op);
    }
  }

  lemma EveryKeyIsEmitted<K(!new), V(!new), C(!new), D(!new)>(
      k: K, parts: seq<seq<(K, V)>>, create: V -> C, mergeValue: (C, V) -> C, mergeCombiners: (C, C) -> C,
      h: K -> int, n: int, local: seq<seq<(K, C)>>, shuffled: seq<seq<(K, C)>>, out: seq<seq<(K, C)>>,
      view: C -> D, unit: V -> D, op: (D, D) -> D)
    requires IsRun(parts, create, mergeValue, mergeCombiners, h, n, local, shuffled, out)
    requires AC(op) && Follows(view, unit, op, create, mergeValue)
    requires Follows(view, view, op, Identity, mergeCombiners)
    requires Total(k, Flatten(parts), unit, op).Some?
    ensures exists i :: 0 <= i < |Flatten(out)| && Flatten(out)[i].0 == k
  {
    assert n > 0;
    hide Total, Combine, Delivered, Associative, Commutative, Follows;
    var r := h(k) % n;
    ReducerTotals(k, r, parts, create, mergeValue, mergeCombiners, h, n, local, shuffled, out, view, unit, op);
    var m := Combine(shuffled[r], Identity, mergeCombiners);
    assert (k, m[k]) in out[r];
    InFlatten(out, (k, m[k]));
    var i :| 0 <= i < |Flatten(out)| && Flatten(out)[i] == (k, m[k]);
  }

  // ---------- Running it ----------

  /** Some reordering of s: the scheduler's choice. */
  method AnyOrder<T>(s: seq<T>) returns (t: seq<T>)
    ensures multiset(t) == multiset(s)
  {
    t := [];
    var rest := s;
    while rest != []
      invariant multiset(t) + multiset(rest) == multiset(s)
      decreases |rest|
    {
      var i :| 0 <= i < |rest|;
      assert rest == rest[..i] + [rest[i]] + rest[i + 1..];
      t, rest := t + [rest[i]], rest[..i] + rest[i + 1..];
    }
  }

  /** `partitionBy`: bucket every partition, ship the buckets, concatenate what each split receives. */
  method PartitionBy<K(==), V>(parts: seq<seq<(K, V)>>, h: K -> int, n: int) returns (out: seq<seq<(K, V)>>)
    requires n > 0
    ensures Delivered(parts, h, n, out)
  {
    hide Bucket, Flatten;
    var sent: seq<map<int, seq<(K, V)>>> := [];
    for i := 0 to |parts|
      invariant |sent| == i
      invariant forall j, r :: 0 <= j < i ==> (r in sent[j] <==> Bucket(parts[j], h, n, r) != [])
      invariant forall j, r :: 0 <= j < i && r in sent[j] ==> sent[j][r] == Bucket(parts[j], h, n, r)
    {
      var buckets := AddShuffleKey(parts[i], h, n);
      sent := sent + [buckets];
    }
    out := [];
    ghost var arrivals: seq<seq<seq<(K, V)>>> := [];
    for r := 0 to n
      invariant |out| == |arrivals| == r
      invariant forall q :: 0 <= q < r ==> multiset(arrivals[q]) == multiset(BucketsFor(parts, h, n, q))
      invariant forall q :: 0 <= q < r ==> out[q] == Flatten(arrivals[q])
    {
      var frames := seq(|sent|, j requires 0 <= j < |sent| => if r in sent[j] then sent[j][r] else []);
      assert frames == BucketsFor(parts, h, n, r);
      var arrived := AnyOrder(frames);
      out, arrivals := out + [Flatten(arrived)], arrivals + [arrived];
    }
    AnyArrivalOrderDelivers(parts, h, n, arrivals, out);
  }

  method CombineByKey<K(==), V, C>(parts: seq<seq<(K, V)>>, create: V -> C, mergeValue: (C, V) -> C,
                                   mergeCombiners: (C, C) -> C, h: K -> int, n: int)
    returns (out: seq<seq<(K, C)>>, ghost local: seq<seq<(K, C)>>, ghost shuffled: seq<seq<(K, C)>>)
    requires n > 0
    ensures IsRun(parts, create, mergeValue, mergeCombiners, h, n, local, shuffled, out)
  {
    var combined: seq<seq<(K, C)>> := [];
    for i := 0 to |parts|
      invariant |combined| == i
      invariant forall j :: 0 <= j < i ==> Enumerates(combined[j], Combine(parts[j], create, mergeValue))
    {
      var items := CombineLocally(parts[i], create, mergeValue);
      combined := combined + [items];
    }
    var received := PartitionBy(combined, h, n);
    out := [];
    for r := 0 to n
      invariant |out| == r
      invariant forall q :: 0 <= q < r ==> Enumerates(out[q], Combine(received[q], Identity, mergeCombiners))
    {
      var items := CombineLocally(received[r], Identity, mergeCombiners);
      out := out + [items];
    }
    local, shuffled := combined, received;
  }
}
