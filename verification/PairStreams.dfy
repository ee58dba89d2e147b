/** CartesianDeserializer and PairDeserializer (serializers.py): two streams of frames, batched or
    not, interleaved key frame by value frame. */
module PairStreams {
  import opened Seqs
  import opened Bytes
  import opened Keyed
  import opened Joins
  import opened Serializers

  /** One side's serializer: a frame holds a batch, or a single object. */
  datatype SideSerializer<!T> = BatchedSide(lists: Codec<seq<T>>) | PlainSide(objects: Codec<T>)

  /** `keys if key_is_batched else [keys]` for the next frame. */
  function ReadSide<T>(s: SideSerializer<T>, data: seq<Byte>): (r: ReadResult<seq<T>>)
    ensures r.Item? ==> |r.rest| < |data|
  {
    match s
    case BatchedSide(c) => ReadFrame(c, data)
    case PlainSide(c) =>
      match ReadFrame(c, data)
      case Stop(end) => Stop(end)
      case Item(x, rest) => Item([x], rest)
  }

  /** `prepare_keys_values`: the batch pairs, until either stream stops. */
  function Prepare<K, V>(ks: SideSerializer<K>, vs: SideSerializer<V>, data: seq<Byte>): Loaded<(seq<K>, seq<V>)>
    decreases |data|
  {
    match ReadSide(ks, data)
    case Stop(end) => Loaded([], end)
    case Item(keys, rest) =>
      match ReadSide(vs, rest)
      case Stop(end) => Loaded([], end)
      case Item(vals, rest2) =>
        var more := Prepare(ks, vs, rest2);
        Loaded([(keys, vals)] + more.items, more.end)
  }

  function Zip<A, B>(a: seq<A>, b: seq<B>): (r: seq<(A, B)>)
    ensures |r| == if |a| < |b| then |a| else |b|
    ensures forall i :: 0 <= i < |r| ==> r[i] == (a[i], b[i])
  {
    seq(if |a| < |b| then |a| else |b|, i requires 0 <= i < |a| && i < |b| => (a[i], b[i]))
  }

  function ZipPair<K, V>(p: (seq<K>, seq<V>)): seq<(K, V)> { Zip(p.0, p.1) }
  function ProductPair<K, V>(p: (seq<K>, seq<V>)): seq<(K, V)> { Product(p.0, p.1) }

  /** `PairDeserializer.load_stream` and `CartesianDeserializer.load_stream`. */
  function LoadZip<K, V>(ks: SideSerializer<K>, vs: SideSerializer<V>, data: seq<Byte>): seq<(K, V)>
  {
    FlatMap(ZipPair, Prepare(ks, vs, data).items)
  }

  function LoadCartesian<K, V>(ks: SideSerializer<K>, vs: SideSerializer<V>, data: seq<Byte>): seq<(K, V)>
  {
    FlatMap(ProductPair, Prepare(ks, vs, data).items)
  }

  // ---------- What the JVM writes ----------

  /** A frame a side can hold: on an unbatched side one object, and never an empty payload. */
  ghost predicate Writable<T>(s: SideSerializer<T>, batch: seq<T>)
  {
    match s
    case BatchedSide(c) => 0 < |c.dumps(batch)| < INT_LIMIT
    case PlainSide(c) => |batch| == 1 && 0 < |c.dumps(batch[0])| < INT_LIMIT
  }

  ghost predicate FaithfulSide<T(!new)>(s: SideSerializer<T>)
  {
    match s
    case BatchedSide(c) => Faithful(c)
    case PlainSide(c) => Faithful(c)
  }

  ghost function WriteSide<T>(s: SideSerializer<T>, batch: seq<T>): seq<Byte>
    requires Writable(s, batch)
  {
    match s
    case BatchedSide(c) => Frame(c.dumps(batch))
    case PlainSide(c) => Frame(c.dumps(batch[0]))
  }

  ghost predicate AllWritable<K, V>(ks: SideSerializer<K>, vs: SideSerializer<V>, pairs: seq<(seq<K>, seq<V>)>)
  {
    forall i :: 0 <= i < |pairs| ==> Writable(ks, pairs[i].0) && Writable(vs, pairs[i].1)
  }

  ghost function Interleave<K, V>(ks: SideSerializer<K>, vs: SideSerializer<V>, pairs: seq<(seq<K>, seq<V>)>): seq<Byte>
    requires AllWritable(ks, vs, pairs)
  {
    if pairs == [] then []
    else WriteSide(ks, pairs[0].0) + (WriteSide(vs, pairs[0].1) + Interleave(ks, vs, pairs[1..]))
  }

  lemma ReadWritten<T(!new)>(s: SideSerializer<T>, batch: seq<T>, tail: seq<Byte>)
    requires FaithfulSide(s) && Writable(s, batch)
    ensures ReadSide(s, WriteSide(s, batch) + tail) == Item(batch, tail)
  {
    match s
    case BatchedSide(c) => ReadFrameOf(c, batch, tail);
    case PlainSide(c) =>
      ReadFrameOf(c, batch[0], tail);
      assert batch == [batch[0]];
  }

  /** The alternating reader recovers every batch pair, for any mix of batched and unbatched sides. */
  lemma {:induction false} PrepareRoundTrip<K(!new), V(!new)>(ks: SideSerializer<K>, vs: SideSerializer<V>, pairs: seq<(seq<K>, seq<V>)>)
    requires FaithfulSide(ks) && FaithfulSide(vs) && AllWritable(ks, vs, pairs)
    ensures Prepare(ks, vs, Interleave(ks, vs, pairs)) == Loaded(pairs, Eof)
  {
    hide ReadSide, WriteSide, FaithfulSide, Writable;
    if pairs != [] {
      var rest := Interleave(ks, vs, pairs[1..]);
      ReadWritten(ks, pairs[0].0, WriteSide(vs, pairs[0].1) + rest);
      ReadWritten(vs, pairs[0].1, rest);
      PrepareRoundTrip(ks, vs, pairs[1..]);
      assert pairs == [pairs[0]] + pairs[1..];
    } else {
      ReadNothing(ks);
    }
  }

  /** A key frame without its value frame is dropped. */
  lemma {:induction false} DanglingKey<K(!new), V(!new)>(ks: SideSerializer<K>, vs: SideSerializer<V>, pairs: seq<(seq<K>, seq<V>)>, keys: seq<K>)
    requires FaithfulSide(ks) && FaithfulSide(vs) && AllWritable(ks, vs, pairs) && Writable(ks, keys)
    ensures Prepare(ks, vs, Interleave(ks, vs, pairs) + WriteSide(ks, keys)) == Loaded(pairs, Eof)
  {
    hide ReadSide, WriteSide, FaithfulSide, Writable;
    if pairs != [] {
      var rest := Interleave(ks, vs, pairs[1..]) + WriteSide(ks, keys);
      assert Interleave(ks, vs, pairs) + WriteSide(ks, keys)
          == WriteSide(ks, pairs[0].0) + (WriteSide(vs, pairs[0].1) + rest);
      ReadWritten(ks, pairs[0].0, WriteSide(vs, pairs[0].1) + rest);
      ReadWritten(vs, pairs[0].1, rest);
      DanglingKey(ks, vs, pairs[1..], keys);
      assert pairs == [pairs[0]] + pairs[1..];
    } else {
      ReadWritten(ks, keys, []);
      assert WriteSide(ks, keys) + [] == WriteSide(ks, keys);
      assert Interleave(ks, vs, pairs) + WriteSide(ks, keys) == WriteSide(ks, keys);
      ReadNothing(vs);
    }
  }

  lemma ReadNothing<T>(s: SideSerializer<T>)
    ensures ReadSide(s, []) == Stop(Eof)
  {
  }

  // ---------- zip ----------

  function Keys<K, V>(p: (seq<K>, seq<V>)): seq<K> { p.0 }
  function Vals<K, V>(p: (seq<K>, seq<V>)): seq<V> { p.1 }

  ghost predicate Aligned<K, V>(pairs: seq<(seq<K>, seq<V>)>)
  {
    forall i :: 0 <= i < |pairs| ==> |pairs[i].0| == |pairs[i].1|
  }

  lemma {:induction false} ZipShape<K, V>(pairs: seq<(seq<K>, seq<V>)>)
    ensures |FlatMap(ZipPair, pairs)| <= |FlatMap(Keys, pairs)|
    ensures |FlatMap(ZipPair, pairs)| <= |FlatMap(Vals, pairs)|
    ensures Aligned(pairs) ==> FlatMap(ZipPair, pairs) == Zip(FlatMap(Keys, pairs), FlatMap(Vals, pairs))
    ensures Aligned(pairs) ==> |FlatMap(Keys, pairs)| == |FlatMap(Vals, pairs)|
    ensures |FlatMap(ZipPair, pairs)| == |FlatMap(Keys, pairs)| == |FlatMap(Vals, pairs)| ==> Aligned(pairs)
  {
    if pairs != [] {
      var rest := pairs[1..];
      ZipShape(rest);
      assert Map(ZipPair, pairs)[1..] == Map(ZipPair, rest);
      assert Map(Keys, pairs)[1..] == Map(Keys, rest);
      assert Map(Vals, pairs)[1..] == Map(Vals, rest);
      assert forall i :: 0 <= i < |rest| ==> rest[i] == pairs[i + 1];
      if Aligned(rest) && |pairs[0].0| == |pairs[0].1| {
        forall i | 0 <= i < |pairs|
          ensures |pairs[i].0| == |pairs[i].1|
        {
          assert i > 0 ==> pairs[i] == rest[i - 1];
        }
      }
    }
  }

  /** Main result for `zip`: two collections of equal length are zipped correctly exactly when the
      batches line up pair by pair. */
  lemma ZipExact<K(!new), V(!new)>(ks: SideSerializer<K>, vs: SideSerializer<V>, pairs: seq<(seq<K>, seq<V>)>)
    requires FaithfulSide(ks) && FaithfulSide(vs) && AllWritable(ks, vs, pairs)
    requires |FlatMap(Keys, pairs)| == |FlatMap(Vals, pairs)|
    ensures LoadZip(ks, vs, Interleave(ks, vs, pairs)) == Zip(FlatMap(Keys, pairs), FlatMap(Vals, pairs)) <==> Aligned(pairs)
  {
    PrepareRoundTrip(ks, vs, pairs);
    ZipShape(pairs);
  }

  /** Three keys in batches of two and one, three values in batches of one and two. */
  ghost function Crossed<K, V>(a: K, b: K, c: K, x: V, y: V, z: V): seq<(seq<K>, seq<V>)>
  {
    [([a, b], [x]), ([c], [y, z])]
  }

  /** Equally many keys and values, but the second value meets the third key and the third value is
      dropped. */
  lemma MisalignedZip<K(!new), V(!new)>(ks: SideSerializer<K>, vs: SideSerializer<V>, a: K, b: K, c: K, x: V, y: V, z: V)
    requires ks.BatchedSide? && vs.BatchedSide? && FaithfulSide(ks) && FaithfulSide(vs)
    requires AllWritable(ks, vs, Crossed(a, b, c, x, y, z))
    ensures FlatMap(Keys, Crossed(a, b, c, x, y, z)) == [a, b, c]
    ensures FlatMap(Vals, Crossed(a, b, c, x, y, z)) == [x, y, z]
    ensures LoadZip(ks, vs, Interleave(ks, vs, Crossed(a, b, c, x, y, z))) == [(a, x), (c, y)]
  {
    hide Prepare, Interleave, AllWritable, FaithfulSide, FlatMap, Crossed;
    PrepareRoundTrip(ks, vs, Crossed(a, b, c, x, y, z));
    CrossedBatches(a, b, c, x, y, z);
  }

  lemma CrossedBatches<K, V>(a: K, b: K, c: K, x: V, y: V, z: V)
    ensures FlatMap(Keys, Crossed(a, b, c, x, y, z)) == [a, b, c]
    ensures FlatMap(Vals, Crossed(a, b, c, x, y, z)) == [x, y, z]
    ensures FlatMap(ZipPair, Crossed(a, b, c, x, y, z)) == [(a, x), (c, y)]
  {
    hide FlatMap;
    var p, q := ([a, b], [x]), ([c], [y, z]);
    FlatMapTwo(ZipPair<K, V>, p, q);
    FlatMapTwo(Keys<K, V>, p, q);
    FlatMapTwo(Vals<K, V>, p, q);
    assert Zip([a, b], [x]) == [(a, x)] && Zip([c], [y, z]) == [(c, y)];
  }

  lemma FlatMapTwo<A, B>(f: A -> seq<B>, x: A, y: A)
    ensures FlatMap(f, [x, y]) == f(x) + f(y)
  {
    FlattenTwo(f(x), f(y));
    assert Map(f, [x, y]) == [f(x), f(y)];
  }

  // ---------- cartesian ----------

  /** Over any list of batch pairs, pairs of objects count by the batches that hold them. */
  function PairCount<K(==), V(==)>(pairs: seq<(seq<K>, seq<V>)>, k: K, v: V): nat
  {
    if pairs == [] then 0
    else multiset(Product(pairs[0].0, pairs[0].1))[(k, v)] + PairCount(pairs[1..], k, v)
  }

  lemma {:induction false} ProductPairsCount<K, V>(pairs: seq<(seq<K>, seq<V>)>, k: K, v: V)
    ensures multiset(FlatMap(ProductPair, pairs))[(k, v)] == PairCount(pairs, k, v)
  {
    if pairs != [] {
      ProductPairsCount(pairs[1..], k, v);
      assert Map(ProductPair, pairs)[1..] == Map(ProductPair, pairs[1..]);
    }
  }

  lemma {:induction false} PairCountConcat<K, V>(a: seq<(seq<K>, seq<V>)>, b: seq<(seq<K>, seq<V>)>, k: K, v: V)
    ensures PairCount(a + b, k, v) == PairCount(a, k, v) + PairCount(b, k, v)
  {
    if a == [] {
      assert a + b == b;
    } else {
      assert (a + b)[1..] == a[1..] + b;
      PairCountConcat(a[1..], b, k, v);
    }
  }

  lemma {:induction false} PairCountPerm<K, V>(a: seq<(seq<K>, seq<V>)>, b: seq<(seq<K>, seq<V>)>, k: K, v: V)
    requires multiset(a) == multiset(b)
    ensures PairCount(a, k, v) == PairCount(b, k, v)
  {
    if a == [] {
      assert |multiset(b)| == 0;
    } else {
      var n := |a| - 1;
      var pre, post := TakeOut(a, b);
      PairCountPerm(a[..n], pre + post, k, v);
      DropLast(a);
      PairCountConcat(a[..n], [a[n]], k, v);
      PairCountConcat(pre, post, k, v);
      PairCountConcat(pre + [a[n]], post, k, v);
      PairCountConcat(pre, [a[n]], k, v);
    }
  }

  /** Products distribute over concatenation on either side, as bags. */
  lemma ProductConcat<K, V>(a: seq<K>, b: seq<K>, c: seq<V>, d: seq<V>, k: K, v: V)
    ensures multiset(Product(a + b, c))[(k, v)] == multiset(Product(a, c))[(k, v)] + multiset(Product(b, c))[(k, v)]
    ensures multiset(Product(a, c + d))[(k, v)] == multiset(Product(a, c))[(k, v)] + multiset(Product(a, d))[(k, v)]
  {
    hide Times, Product;
    ProductCount(a + b, c, k, v);
    ProductCount(a, c, k, v);
    ProductCount(b, c, k, v);
    ProductCount(a, c + d, k, v);
    ProductCount(a, d, k, v);
    TimesFacts(multiset(a)[k], multiset(b)[k], multiset(c)[v]);
    TimesFacts(multiset(c)[v], multiset(d)[v], multiset(a)[k]);
  }

  lemma EmptyProduct<K, V>(a: seq<K>)
    ensures Product<K, V>(a, []) == []
  {
  }

  function RowOf<K, V>(keys: seq<K>, vbs: seq<seq<V>>): seq<(seq<K>, seq<V>)>
  {
    seq(|vbs|, i requires 0 <= i < |vbs| => (keys, vbs[i]))
  }

  lemma {:induction false} RowPairCount<K, V>(keys: seq<K>, vbs: seq<seq<V>>, k: K, v: V)
    ensures PairCount(RowOf(keys, vbs), k, v) == multiset(Product(keys, Flatten(vbs)))[(k, v)]
  {
    hide Product;
    if vbs == [] {
      EmptyProduct<K, V>(keys);
    } else {
      RowPairCount(keys, vbs[1..], k, v);
      assert RowOf(keys, vbs)[1..] == RowOf(keys, vbs[1..]);
      ProductConcat(keys, [], vbs[0], Flatten(vbs[1..]), k, v);
    }
  }

  lemma {:induction false} AllPairsCount<K, V>(kbs: seq<seq<K>>, vbs: seq<seq<V>>, k: K, v: V)
    ensures PairCount(Product(kbs, vbs), k, v) == multiset(Product(Flatten(kbs), Flatten(vbs)))[(k, v)]
  {
    if kbs != [] {
      var n := |kbs| - 1;
      AllPairsCount(kbs[..n], vbs, k, v);
      RowPairCount(kbs[n], vbs, k, v);
      assert Product(kbs, vbs) == Product(kbs[..n], vbs) + RowOf(kbs[n], vbs);
      PairCountConcat(Product(kbs[..n], vbs), RowOf(kbs[n], vbs), k, v);
      DropLast(kbs);
      FlattenConcat(kbs[..n], [kbs[n]]);
      FlattenOne(kbs[n]);
      ProductConcat(Flatten(kbs[..n]), kbs[n], Flatten(vbs), [], k, v);
    }
  }

  /** Main result for `cartesian`: fed every pair of batches once, in any order, the stream holds the
      full product of the two collections, multiplicities included. */
  lemma CartesianCorrect<K(!new), V(!new)>(ks: SideSerializer<K>, vs: SideSerializer<V>, kbs: seq<seq<K>>, vbs: seq<seq<V>>,
                                           pairs: seq<(seq<K>, seq<V>)>)
    requires FaithfulSide(ks) && FaithfulSide(vs) && AllWritable(ks, vs, pairs)
    requires multiset(pairs) == multiset(Product(kbs, vbs))
    ensures multiset(LoadCartesian(ks, vs, Interleave(ks, vs, pairs))) == multiset(Product(Flatten(kbs), Flatten(vbs)))
  {
    PrepareRoundTrip(ks, vs, pairs);
    forall p
      ensures multiset(FlatMap(ProductPair, pairs))[p] == multiset(Product(Flatten(kbs), Flatten(vbs)))[p]
    {
      var (k, v) := p;
      ProductPairsCount(pairs, k, v);
      PairCountPerm(pairs, Product(kbs, vbs), k, v);
      AllPairsCount(kbs, vbs, k, v);
    }
  }
}
