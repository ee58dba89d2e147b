/** The by-key operations that rdd.py builds from `combineByKey`. */
module Keyed {
  import opened Seqs
  import opened Shuffle

  // ---------- reduceByKey and foldByKey ----------

  ghost predicate Reduced<K(!new), V(!new)>(input: seq<(K, V)>, f: (V, V) -> V, out: seq<(K, V)>)
  {
    Combined(input, Identity, Identity, f, out)
  }

  method ReduceByKey<K(==, !new), V(!new)>(parts: seq<seq<(K, V)>>, f: (V, V) -> V, h: K -> int, n: int)
    returns (out: seq<seq<(K, V)>>)
    requires n > 0 && AC(f)
    ensures |out| == n
    ensures Reduced(Flatten(parts), f, Flatten(out))
  {
    ghost var local, shuffled;
    out, local, shuffled := CombineByKey(parts, Identity, f, f, h, n);
    CombineByKeyCorrect(parts, Identity, f, f, h, n, local, shuffled, out, Identity, Identity, f);
  }

  function At<T>(n: nat, r: nat, s: seq<T>): (rows: seq<seq<T>>)
    ensures |rows| == n
    ensures forall i :: 0 <= i < n ==> rows[i] == if i == r then s else []
  {
    seq(n, i => if i == r then s else [])
  }

  lemma CombineFew<K, V>(k: K, x: V, y: V, f: (V, V) -> V)
    ensures Combine([(k, x)], Identity, f) == map[k := x]
    ensures Combine([(k, y), (k, x)], Identity, f) == map[k := f(y, x)]
    ensures Total(k, [(k, x), (k, y)], Identity, f) == Some(f(x, y))
  {
    var one, two, both := [(k, x)], [(k, y)], [(k, x), (k, y)];
    assert one[..0] == [] && two[..0] == [] && both[..1] == one && [(k, y), (k, x)][..1] == two;
    assert Combine(two, Identity, f) == map[k := y];
    assert Total(k, one, Identity, f) == Some(x);
    TotalSnoc(k, one, (k, y), Identity, f);
    assert one + [(k, y)] == both;
  }

  lemma BucketFew<K, V>(p: (K, V), q: (K, V), h: K -> int, n: int, r: int)
    requires n > 0 && p.0 == q.0
    ensures Bucket([p, q], h, n, r) == if h(p.0) % n == r then [p, q] else []
  {
    var one, both := [p], [p, q];
    assert one[..0] == [] && both[..1] == one;
    assert Bucket(one, h, n, r) == if h(p.0) % n == r then [p] else [];
  }

  /** Two map tasks hold one value each of key k, and the second one's bucket arrives first. */
  lemma OvertakingRun<K(!new), V(!new)>(k: K, x: V, y: V, f: (V, V) -> V, h: K -> int, n: int)
    returns (parts: seq<seq<(K, V)>>, shuffled: seq<seq<(K, V)>>, out: seq<seq<(K, V)>>)
    requires n > 0
    ensures IsRun(parts, Identity, f, f, h, n, parts, shuffled, out)
    ensures Flatten(parts) == [(k, x), (k, y)] && Flatten(out) == [(k, f(y, x))]
  {
    assert n > 0;
    hide Bucket, Combine, Flatten, Enumerates, Delivered;
    var r := h(k) % n;
    parts := [[(k, x)], [(k, y)]];
    shuffled := At(n, r, [(k, y), (k, x)]);
    out := At(n, r, [(k, f(y, x))]);
    CombineFew(k, x, y, f);
    CombineFew(k, y, x, f);
    EnumeratesOne(k, x);
    EnumeratesOne(k, y);
    EnumeratesOne(k, f(y, x));
    CombineNone<K, V>(f);
    FlattenTwo([(k, x)], [(k, y)]);
    Overtaken((k, x), (k, y), h, n, parts);
    FlattenAt(n, r, [(k, f(y, x))]);
  }

  lemma Overtaken<K, V>(p: (K, V), q: (K, V), h: K -> int, n: int, parts: seq<seq<(K, V)>>)
    requires n > 0 && p.0 == q.0
    requires Flatten(parts) == [p, q]
    ensures Delivered(parts, h, n, At(n, h(p.0) % n, [q, p]))
  {
    var shuffled := At(n, h(p.0) % n, [q, p]);
    forall r | 0 <= r < n
      ensures multiset(shuffled[r]) == multiset(Bucket(Flatten(parts), h, n, r))
    {
      BucketFew(p, q, h, n, r);
    }
  }

  lemma EnumeratesOne<K, V>(k: K, v: V)
    ensures Enumerates([(k, v)], map[k := v])
    ensures Enumerates<K, V>([], map[])
  {
    assert [(k, v)][0] == (k, v);
  }

  lemma CombineNone<K, V>(f: (V, V) -> V)
    ensures Combine<K, V, V>([], Identity, f) == map[]
  {
  }

  lemma FlattenAt<T>(n: nat, r: nat, s: seq<T>)
    requires r < n
    ensures Flatten(At(n, r, s)) == s
  {
    var rows := At(n, r, s);
    assert rows == rows[..r] + [s] + rows[r + 1..];
    FlattenNone(rows[..r]);
    FlattenNone(rows[r + 1..]);
    FlattenOne(s);
    FlattenConcat(rows[..r], [s]);
    FlattenConcat(rows[..r] + [s], rows[r + 1..]);
  }

  /** reduceByKey asks for an associative function only, but over any number of splits it is right
      for every run exactly when the function is commutative too. */
  lemma ReduceByKeyExact<K(!new), V(!new)>(k: K, f: (V, V) -> V, h: K -> int, n: int)
    requires n > 0 && Associative(f)
    ensures Commutative(f) <==>
            forall parts: seq<seq<(K, V)>>, local, shuffled, out ::
              IsRun(parts, Identity, f, f, h, n, local, shuffled, out) ==> Reduced(Flatten(parts), f, Flatten(out))
  {
    if Commutative(f) {
      forall parts: seq<seq<(K, V)>>, local, shuffled, out | IsRun(parts, Identity, f, f, h, n, local, shuffled, out)
        ensures Reduced(Flatten(parts), f, Flatten(out))
      {
        CombineByKeyCorrect(parts, Identity, f, f, h, n, local, shuffled, out, Identity, Identity, f);
      }
    }
    if forall parts: seq<seq<(K, V)>>, local, shuffled, out ::
         IsRun(parts, Identity, f, f, h, n, local, shuffled, out) ==> Reduced(Flatten(parts), f, Flatten(out)) {
      forall x, y
        ensures f(x, y) == f(y, x)
      {
        var parts, shuffled, out := OvertakingRun(k, x, y, f, h, n);
        CombineFew(k, x, y, f);
        assert Flatten(out)[0] == (k, f(y, x));
      }
    }
  }

  /** foldByKey starts every local fold from zeroValue; a neutral zero leaves no trace of how many
      partitions a key was spread over. */
  lemma FoldByKeyCorrect<K(!new), V(!new)>(
      parts: seq<seq<(K, V)>>, zero: V, f: (V, V) -> V, create: V -> V, h: K -> int, n: int,
      local: seq<seq<(K, V)>>, shuffled: seq<seq<(K, V)>>, out: seq<seq<(K, V)>>)
    requires AC(f) && forall v :: f(zero, v) == v
    requires forall v :: create(v) == f(zero, v)
    requires IsRun(parts, create, f, f, h, n, local, shuffled, out)
    ensures Reduced(Flatten(parts), f, Flatten(out))
  {
    CombineByKeyCorrect(parts, create, f, f, h, n, local, shuffled, out, Identity, Identity, f);
  }

  function FromZero<V>(zero: V, f: (V, V) -> V): V -> V
  {
    v => f(zero, v)
  }

  /** With an f fit for reduceByKey, every run of foldByKey agrees with reduceByKey, over any number
      of splits, exactly when the zero is neutral. */
  lemma FoldByKeyExact<K(!new), V(!new)>(k: K, zero: V, f: (V, V) -> V, h: K -> int, n: int)
    requires n > 0 && AC(f)
    ensures (forall v :: f(zero, v) == v) <==>
            forall parts: seq<seq<(K, V)>>, local, shuffled, out ::
              IsRun(parts, FromZero(zero, f), f, f, h, n, local, shuffled, out) ==> Reduced(Flatten(parts), f, Flatten(out))
  {
    hide AC, IsRun, Reduced;
    if forall v :: f(zero, v) == v {
      forall parts: seq<seq<(K, V)>>, local, shuffled, out | IsRun(parts, FromZero(zero, f), f, f, h, n, local, shuffled, out)
        ensures Reduced(Flatten(parts), f, Flatten(out))
      {
        FoldByKeyCorrect(parts, zero, f, FromZero(zero, f), h, n, local, shuffled, out);
      }
    }
    if forall parts: seq<seq<(K, V)>>, local, shuffled, out ::
         IsRun(parts, FromZero(zero, f), f, f, h, n, local, shuffled, out) ==> Reduced(Flatten(parts), f, Flatten(out)) {
      forall v
        ensures f(zero, v) == v
      {
        var out := OnePairRun(k, v, FromZero(zero, f), f, h, n);
        ReducedOne(k, v, f(zero, v), f);
      }
    }
  }

  lemma ReducedOne<K(!new), V(!new)>(k: K, v: V, w: V, f: (V, V) -> V)
    ensures Reduced([(k, v)], f, [(k, w)]) ==> w == v
  {
    TotalSnoc(k, [], (k, v), Identity, f);
    assert [] + [(k, v)] == [(k, v)];
    assert [(k, w)][0] == (k, w);
  }

  /** A single pair, in one partition. */
  lemma OnePairRun<K(!new), V(!new)>(k: K, v: V, create: V -> V, f: (V, V) -> V, h: K -> int, n: int)
    returns (out: seq<seq<(K, V)>>)
    requires n > 0
    ensures IsRun([[(k, v)]], create, f, f, h, n, [[(k, create(v))]], out, out)
    ensures Flatten([[(k, v)]]) == [(k, v)] && Flatten(out) == [(k, create(v))]
  {
    assert n > 0;
    hide Bucket, Combine, Flatten, Enumerates, Delivered;
    var w := create(v);
    var r := h(k) % n;
    out := At(n, r, [(k, w)]);
    CombineOne(k, v, create, f);
    CombineOne(k, w, Identity, f);
    CombineNone<K, V>(f);
    EnumeratesOne(k, w);
    FlattenOne([(k, v)]);
    FlattenOne([(k, w)]);
    FlattenAt(n, r, [(k, w)]);
    DeliveredOne((k, w), h, n);
  }

  lemma CombineOne<K, V>(k: K, v: V, create: V -> V, f: (V, V) -> V)
    ensures Combine([(k, v)], create, f) == map[k := create(v)]
  {
    assert [(k, v)][..0] == [];
  }

  lemma DeliveredOne<K, V>(p: (K, V), h: K -> int, n: int)
    requires n > 0
    ensures Delivered([[p]], h, n, At(n, h(p.0) % n, [p]))
  {
    FlattenOne([p]);
    assert [p][..0] == [];
    forall r | 0 <= r < n
      ensures multiset(At(n, h(p.0) % n, [p])[r]) == multiset(Bucket([p], h, n, r))
    {
    }
  }

  // ---------- groupByKey ----------

  /** The values that s pairs with k, in order. */
  function ValuesOf<K(==), V>(k: K, s: seq<(K, V)>): seq<V>
  {
    if s == [] then []
    else
      var before := ValuesOf(k, s[..|s| - 1]);
      if s[|s| - 1].0 == k then before + [s[|s| - 1].1] else before
  }

  lemma {:induction false} ValuesCount<K, V>(k: K, s: seq<(K, V)>, v: V)
    ensures multiset(ValuesOf(k, s))[v] == multiset(s)[(k, v)]
  {
    if s != [] {
      ValuesCount(k, s[..|s| - 1], v);
      DropLast(s);
    }
  }

  function Append<V>(xs: seq<V>, x: V): seq<V> { xs + [x] }
  function Concat<V>(a: seq<V>, b: seq<V>): seq<V> { a + b }
  function Bag<V>(xs: seq<V>): multiset<V> { multiset(xs) }
  function OneBag<V>(v: V): multiset<V> { multiset{v} }
  function BagPlus<V>(a: multiset<V>, b: multiset<V>): multiset<V> { a + b }

  ghost predicate HasKey<K, V>(s: seq<(K, V)>, k: K)
  {
    exists i :: 0 <= i < |s| && s[i].0 == k
  }

  /** Each key of input once, with its values in some order. */
  ghost predicate Grouped<K(!new), V>(input: seq<(K, V)>, out: seq<(K, seq<V>)>)
  {
    && UniqueKeys(out)
    && (forall i :: 0 <= i < |out| ==> multiset(out[i].1) == multiset(ValuesOf(out[i].0, input)))
    && (forall k :: HasKey(input, k) <==> HasKey(out, k))
  }

  lemma {:induction false} BagTotal<K, V(!new)>(k: K, s: seq<(K, V)>)
    ensures Total(k, s, OneBag, BagPlus)
         == if HasKey(s, k) then Some(multiset(ValuesOf(k, s))) else None
  {
    TotalSome(k, s, OneBag, BagPlus);
    if s != [] {
      BagTotal(k, s[..|s| - 1]);
      if !HasKey(s[..|s| - 1], k) {
        NoValues(k, s[..|s| - 1]);
        assert [] + [s[|s| - 1].1] == [s[|s| - 1].1];
      }
    }
  }

  lemma BagPlusAC<V(!new)>()
    ensures AC<multiset<V>>(BagPlus)
  {
    forall a: multiset<V>, b, c
      ensures BagPlus(BagPlus(a, b), c) == BagPlus(a, BagPlus(b, c))
    {
      assert (a + b) + c == a + (b + c);
    }
    forall a: multiset<V>, b
      ensures BagPlus(a, b) == BagPlus(b, a)
    {
      assert a + b == b + a;
    }
  }

  lemma {:induction false} NoValues<K, V>(k: K, s: seq<(K, V)>)
    ensures HasKey(s, k) <==> ValuesOf(k, s) != []
  {
    if s != [] {
      NoValues(k, s[..|s| - 1]);
      if HasKey(s[..|s| - 1], k) {
        var i :| 0 <= i < |s[..|s| - 1]| && s[..|s| - 1][i].0 == k;
        assert s[i].0 == k;
      }
      if ValuesOf(k, s) == [] {
        forall i | 0 <= i < |s|
          ensures s[i].0 != k
        {
          if i < |s| - 1 {
            assert s[..|s| - 1][i].0 != k;
          }
        }
      }
    }
  }

  /** groupByKey's list concatenation is not commutative, but the groups are right as bags. */
  lemma GroupByKeyCorrect<K(!new), V(!new)>(
      parts: seq<seq<(K, V)>>, h: K -> int, n: int,
      local: seq<seq<(K, seq<V>)>>, shuffled: seq<seq<(K, seq<V>)>>, out: seq<seq<(K, seq<V>)>>)
    requires IsRun(parts, One, Append, Concat, h, n, local, shuffled, out)
    ensures Grouped(Flatten(parts), Flatten(out))
  {
    var input, flat := Flatten(parts), Flatten(out);
    BagPlusAC<V>();
    CombineByKeyCorrect(parts, One, Append, Concat, h, n, local, shuffled, out, Bag, OneBag, BagPlus);
    forall k
      ensures HasKey(input, k) <==> HasKey(flat, k)
    {
      BagTotal(k, input);
      if HasKey(flat, k) {
        var i :| 0 <= i < |flat| && flat[i].0 == k;
      }
    }
    forall i | 0 <= i < |flat|
      ensures multiset(flat[i].1) == multiset(ValuesOf(flat[i].0, input))
    {
      BagTotal(flat[i].0, input);
    }
  }

  method GroupByKey<K(==, !new), V(!new)>(parts: seq<seq<(K, V)>>, h: K -> int, n: int)
    returns (out: seq<seq<(K, seq<V>)>>)
    requires n > 0
    ensures |out| == n
    ensures Grouped(Flatten(parts), Flatten(out))
  {
    ghost var local, shuffled;
    out, local, shuffled := CombineByKey(parts, One, Append, Concat, h, n);
    GroupByKeyCorrect(parts, h, n, local, shuffled, out);
  }

  // ---------- distinct ----------

  ghost predicate Distinct<T(!new)>(input: seq<T>, out: seq<T>)
  {
    NoDup(out) && forall x :: x in out <==> x in input
  }

  function WithNone<T>(x: T): (T, ()) { (x, ()) }
  function KeepFirst<V>(a: V, b: V): V { a }

  /** map to (x, None), reduceByKey keeping either None, and drop it again: each value once. */
  method DistinctValues<T(==, !new)>(parts: seq<seq<T>>, h: T -> int, n: int) returns (out: seq<seq<T>>)
    requires n > 0
    ensures |out| == n
    ensures Distinct(Flatten(parts), Flatten(out))
  {
    assert AC<()>(KeepFirst) by {
      assert forall a: (), b: () :: KeepFirst(a, b) == KeepFirst(b, a);
    }
    var reduced := ReduceByKey(MapParts(WithNone, parts), KeepFirst, h, n);
    out := MapParts(KeyOf, reduced);
    FlattenMap(WithNone, parts);
    FlattenMap(KeyOf, reduced);
    ghost var input, flat := Flatten(MapParts(WithNone, parts)), Flatten(reduced);
    forall x
      ensures x in Flatten(out) <==> x in Flatten(parts)
    {
      TotalSome(x, input, Identity<()>, KeepFirst);
      assert x in Flatten(out) <==> exists i :: 0 <= i < |flat| && flat[i].0 == x;
      assert x in Flatten(parts) <==> exists i :: 0 <= i < |input| && input[i].0 == x;
    }
  }

  // ---------- flatMap ----------

  function FlatMap<A, B>(f: A -> seq<B>, s: seq<A>): seq<B>
  {
    Flatten(Map(f, s))
  }

  function FlatMapParts<A, B>(f: A -> seq<B>, parts: seq<seq<A>>): (r: seq<seq<B>>)
    ensures |r| == |parts|
    ensures forall i :: 0 <= i < |parts| ==> r[i] == FlatMap(f, parts[i])
  {
    seq(|parts|, i requires 0 <= i < |parts| => FlatMap(f, parts[i]))
  }

  lemma {:induction false} FlattenFlatMap<A, B>(f: A -> seq<B>, parts: seq<seq<A>>)
    ensures Flatten(FlatMapParts(f, parts)) == FlatMap(f, Flatten(parts))
  {
    if parts != [] {
      FlattenFlatMap(f, parts[1..]);
      assert FlatMapParts(f, parts)[1..] == FlatMapParts(f, parts[1..]);
      MapConcat(f, parts[0], Flatten(parts[1..]));
      FlattenConcat(Map(f, parts[0]), Map(f, Flatten(parts[1..])));
    }
  }
}
