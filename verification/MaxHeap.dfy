/** The bounded max-heap of rdd.py and `takeOrdered`, which merges one heap per partition. */
module MaxHeap {
  import opened Seqs
  import opened Orders

  /** No entry of q[1..] above its parent. */
  ghost predicate Heap<T>(q: seq<T>, leq: (T, T) -> bool)
  {
    |q| >= 1 && forall i :: 2 <= i < |q| ==> leq(q[i], q[i / 2])
  }

  /** A heap but for entry k, which may be above its parent. */
  ghost predicate HeapButAbove<T>(q: seq<T>, k: int, leq: (T, T) -> bool)
  {
    && 1 <= k < |q|
    && (forall i :: 2 <= i < |q| && i != k ==> leq(q[i], q[i / 2]))
    && (forall i :: 2 <= i < |q| && i / 2 == k && k >= 2 ==> leq(q[i], q[k / 2]))
  }

  /** A heap but for entry k, which may be below its children. */
  ghost predicate HeapButBelow<T>(q: seq<T>, k: int, leq: (T, T) -> bool)
  {
    && 1 <= k < |q|
    && (forall i :: 2 <= i < |q| && i / 2 != k ==> leq(q[i], q[i / 2]))
    && (forall i :: 2 <= i < |q| && i / 2 == k && k >= 2 ==> leq(q[i], q[k / 2]))
  }

  lemma {:induction false} RootIsLargest<T(!new)>(q: seq<T>, i: int, leq: (T, T) -> bool)
    requires TotalPreorder(leq) && Heap(q, leq) && 1 <= i < |q|
    ensures leq(q[i], q[1])
  {
    if i > 1 {
      RootIsLargest(q, i / 2, leq);
    }
  }

  function Exchanged<T>(q: seq<T>, i: int, j: int): (r: seq<T>)
    requires 0 <= i < |q| && 0 <= j < |q|
    ensures |r| == |q| && r[i] == q[j] && r[j] == q[i]
    ensures forall k :: 0 <= k < |q| && k != i && k != j ==> r[k] == q[k]
    ensures multiset(r) == multiset(q)
  {
    q[i := q[j]][j := q[i]]
  }

  lemma SwimStep<T(!new)>(q: seq<T>, k: int, leq: (T, T) -> bool)
    requires TotalPreorder(leq) && HeapButAbove(q, k, leq) && k > 1 && !leq(q[k], q[k / 2])
    ensures HeapButAbove(Exchanged(q, k, k / 2), k / 2, leq)
  {
  }

  lemma HeapRange<T>(q: seq<T>, k: int, leq: (T, T) -> bool)
    requires HeapButBelow(q, k, leq)
    ensures 1 <= k < |q|
  {
  }

  /** No child of k is above x. */
  ghost predicate ChildrenBelow<T>(q: seq<T>, k: int, x: T, leq: (T, T) -> bool)
  {
    forall i :: 2 <= i < |q| && i / 2 == k ==> leq(q[i], x)
  }

  lemma LargerChild<T(!new)>(q: seq<T>, k: int, j: int, leq: (T, T) -> bool)
    requires TotalPreorder(leq) && 1 <= k && 2 * k < |q|
    requires j == if 2 * k + 1 < |q| && !leq(q[2 * k + 1], q[2 * k]) then 2 * k + 1 else 2 * k
    ensures ChildrenBelow(q, k, q[j], leq)
  {
    assert leq(q[2 * k], q[2 * k]);
    assert forall i :: 2 <= i < |q| && i / 2 == k ==> i == 2 * k || i == 2 * k + 1;
  }

  lemma SinkStep<T(!new)>(q: seq<T>, k: int, j: int, leq: (T, T) -> bool)
    requires TotalPreorder(leq) && HeapButBelow(q, k, leq)
    requires 2 * k <= j <= 2 * k + 1 && j < |q| && leq(q[k], q[j])
    requires ChildrenBelow(q, k, q[j], leq)
    ensures HeapButBelow(Exchanged(q, k, j), j, leq)
  {
  }

  lemma SinkStops<T(!new)>(q: seq<T>, k: int, j: int, leq: (T, T) -> bool)
    requires TotalPreorder(leq) && HeapButBelow(q, k, leq)
    requires 1 <= j < |q| && leq(q[j], q[k])
    requires ChildrenBelow(q, k, q[j], leq)
    ensures Heap(q, leq)
  {
  }

  lemma SinkAtLeaf<T(!new)>(q: seq<T>, k: int, leq: (T, T) -> bool)
    requires HeapButBelow(q, k, leq) && 2 * k >= |q|
    ensures Heap(q, leq)
  {
  }

  class MaxHeapQ<T(!new)> {
    var q: seq<T>
    const maxsize: int
    const leq: (T, T) -> bool

    ghost predicate Valid()
      reads this
    {
      && TotalPreorder(leq)
      && |q| >= 1
      && Heap(q, leq)
      && Size() <= (if maxsize < 0 then 0 else maxsize)
    }

    /** The values held. */
    ghost function Contents(): multiset<T>
      reads this
      requires |q| >= 1
    {
      multiset(q[1..])
    }

    /** q[0] is a placeholder, so that the children of k are 2k and 2k + 1. */
    constructor (maxsize: int, leq: (T, T) -> bool, placeholder: T)
      requires TotalPreorder(leq)
      ensures Valid() && q == [placeholder] && this.maxsize == maxsize && this.leq == leq
    {
      this.maxsize := maxsize;
      this.leq := leq;
      q := [placeholder];
    }

    function Size(): int
      reads this
    {
      |q| - 1
    }

    method Swap(i: int, j: int)
      requires 0 <= i < |q| && 0 <= j < |q|
      modifies this`q
      ensures q == Exchanged(old(q), i, j)
    {
      var t := q[i];
      q := q[i := q[j]];
      q := q[j := t];
    }

    method Swim(start: int)
      requires TotalPreorder(leq) && HeapButAbove(q, start, leq)
      modifies this`q
      ensures Heap(q, leq) && |q| == |old(q)| && q[0] == old(q)[0]
      ensures multiset(q) == multiset(old(q))
    {
      var k := start;
      while k > 1 && !leq(q[k], q[k / 2])
        invariant HeapButAbove(q, k, leq)
        invariant |q| == |old(q)| && q[0] == old(q)[0] && multiset(q) == multiset(old(q))
        decreases k
      {
        SwimStep(q, k, leq);
        Swap(k, k / 2);
        k := k / 2;
      }
    }

    method Sink(start: int)
      requires TotalPreorder(leq) && HeapButBelow(q, start, leq)
      modifies this`q
      ensures Heap(q, leq) && |q| == |old(q)| && q[0] == old(q)[0]
      ensures multiset(q) == multiset(old(q))
    {
      hide Heap, HeapButBelow, ChildrenBelow;
      assert 1 <= start < |q| by { HeapRange(q, start, leq); }
      var k := start;
      var N := Size();
      while 2 * k <= N
        invariant 1 <= k <= N && HeapButBelow(q, k, leq) && N == |q| - 1
        invariant |q| == |old(q)| && q[0] == old(q)[0] && multiset(q) == multiset(old(q))
        decreases N - k
      {
        var j := 2 * k;
        if j < N && !leq(q[j + 1], q[j]) {
          j := j + 1;
        }
        LargerChild(q, k, j, leq);
        if !leq(q[k], q[j]) {
          assert leq(q[j], q[k]);
          SinkStops(q, k, j, leq);
          break;
        }
        SinkStep(q, k, j, leq);
        Swap(k, j);
        k := j;
      }
      if 2 * k > N {
        SinkAtLeaf(q, k, leq);
      }
    }

    /** `q[1] > value` replaces the root; false stands for the IndexError of an empty heap. */
    method ReplaceRoot(value: T) returns (ok: bool)
      requires Valid()
      modifies this`q
      ensures Valid() && |q| == |old(q)|
      ensures ok <==> old(Size()) >= 1
      ensures !ok ==> q == old(q)
      ensures ok ==> old(q[1]) in old(Contents()) && forall x :: x in old(Contents()) ==> leq(x, old(q[1]))
      ensures ok ==> Contents() == if leq(old(q[1]), value) then old(Contents())
                                   else old(Contents()) - multiset{old(q[1])} + multiset{value}
    {
      if |q| < 2 {
        return false;
      }
      forall x | x in Contents()
        ensures leq(x, q[1])
      {
        assert x in q[1..];
        var i :| 0 <= i < |q[1..]| && q[1..][i] == x;
        RootIsLargest(q, i + 1, leq);
      }
      assert q[1..][0] == q[1];
      if !leq(q[1], value) {
        ghost var before := q;
        q := q[1 := value];
        assert q[1..] == before[1..][0 := value];
        ghost var sunk := q;
        Sink(1);
        SameTail(q, sunk);
      }
      ok := true;
    }

    method Insert(value: T) returns (ok: bool)
      requires Valid()
      modifies this`q
      ensures Valid()
      ensures ok <==> maxsize >= 1
      ensures !ok ==> q == old(q)
      ensures old(Size()) < maxsize ==> Contents() == old(Contents()) + multiset{value}
      ensures ok && old(Size()) >= maxsize ==>
        && old(q[1]) in old(Contents())
        && (forall x :: x in old(Contents()) ==> leq(x, old(q[1])))
        && Contents() == if leq(old(q[1]), value) then old(Contents())
                         else old(Contents()) - multiset{old(q[1])} + multiset{value}
    {
      if Size() < maxsize {
        ghost var before := q;
        q := q + [value];
        assert q[1..] == before[1..] + [value];
        ghost var grown := q;
        Swim(Size());
        SameTail(q, grown);
        ok := true;
      } else {
        ok := ReplaceRoot(value);
      }
    }

    function GetElements(): seq<T>
      reads this
      requires |q| >= 1
    {
      q[1..]
    }
  }

  lemma SameTail<T>(s: seq<T>, t: seq<T>)
    requires |s| == |t| >= 1 && s[0] == t[0] && multiset(s) == multiset(t)
    ensures multiset(s[1..]) == multiset(t[1..])
  {
    assert s == [s[0]] + s[1..] && t == [t[0]] + t[1..];
    assert multiset(s) == multiset(s[1..]) + multiset{s[0]};
    assert multiset(t) == multiset(t[1..]) + multiset{t[0]};
    Cancel(multiset(s[1..]), multiset(t[1..]), multiset{s[0]});
  }

  // ---------- takeOrdered ----------

  datatype Error = IndexError | EmptyReduce

  function Cap(num: int): nat { if num < 0 then 0 else num }

  /** What Insert does to the contents keeps the selection. */
  lemma InsertSelects<T(!new)>(before: multiset<T>, all: multiset<T>, k: nat, v: T, root: T, after: multiset<T>, leq: (T, T) -> bool)
    requires TotalPreorder(leq) && Bottom(before, all, k, leq)
    requires |before| < k ==> after == before + multiset{v}
    requires |before| >= k ==>
      && root in before && (forall x :: x in before ==> leq(x, root))
      && after == if leq(root, v) then before else before - multiset{root} + multiset{v}
    ensures Bottom(after, all + multiset{v}, k, leq)
  {
    if |before| < k {
      BottomGrow(before, all, k, v, leq);
    } else {
      assert |before| == k;
      BottomReplace(before, all, k, v, root, leq);
    }
  }

  /** `next(topNKeyedElems(...))` on elements already paired with their keys. */
  method TopN<T(!new)>(items: seq<T>, num: int, leq: (T, T) -> bool, placeholder: T) returns (r: Result<seq<T>, Error>)
    requires TotalPreorder(leq)
    ensures r.Err? <==> num <= 0 && items != []
    ensures r.Err? ==> r.error == IndexError
    ensures r.Ok? ==> Bottom(multiset(r.value), multiset(items), Cap(num), leq)
  {
    hide Bottom, TotalPreorder, Heap;
    var heap := new MaxHeapQ(num, leq, placeholder);
    BottomOfNothing(Cap(num), leq);
    assert heap.q[1..] == [] && items[..0] == [];
    for i := 0 to |items|
      invariant fresh(heap) && heap.Valid() && heap.maxsize == num && heap.leq == leq
      invariant i > 0 ==> num >= 1
      invariant Bottom(heap.Contents(), multiset(items[..i]), Cap(num), leq)
    {
      assert items[..i + 1] == items[..i] + [items[i]];
      ghost var before, root := heap.Contents(), if |heap.q| > 1 then heap.q[1] else placeholder;
      var ok := heap.Insert(items[i]);
      if !ok {
        return Err(IndexError);
      }
      InsertSelects(before, multiset(items[..i]), num, items[i], root, heap.Contents(), leq);
    }
    assert items[..|items|] == items;
    r := Ok(heap.GetElements());
  }

  /** mapPartitions(topNKeyedElems).reduce(merge): heaps of heaps still select from all the data. */
  method Select<T(!new)>(parts: seq<seq<T>>, num: int, leq: (T, T) -> bool, placeholder: T) returns (r: Result<seq<T>, Error>)
    requires TotalPreorder(leq)
    ensures r.Err? <==> parts == [] || (num <= 0 && Flatten(parts) != [])
    ensures r.Ok? ==> Bottom(multiset(r.value), multiset(Flatten(parts)), Cap(num), leq)
  {
    hide Bottom, TotalPreorder, Flatten;
    assert Flatten(parts[..0]) == [] by { FlattenNone(parts[..0]); }
    var tops: seq<seq<T>> := [];
    for i := 0 to |parts|
      invariant |tops| == i
      invariant num <= 0 ==> Flatten(parts[..i]) == []
      invariant forall j :: 0 <= j < i ==> Bottom(multiset(tops[j]), multiset(parts[j]), Cap(num), leq)
    {
      FlattenSnoc(parts, i);
      FlattenRest(parts, i + 1);
      var top := TopN(parts[i], num, leq, placeholder);
      if top.Err? {
        return Err(top.error);
      }
      tops := tops + [top.value];
    }
    assert parts[..|parts|] == parts;
    if tops == [] {
      return Err(EmptyReduce);
    }
    var merged := Merge(tops, parts, num, leq, placeholder);
    r := Ok(merged);
  }

  /** The driver's `reduce(merge)` over the partitions' selections. */
  method Merge<T(!new)>(tops: seq<seq<T>>, ghost parts: seq<seq<T>>, num: int, leq: (T, T) -> bool, placeholder: T)
    returns (acc: seq<T>)
    requires TotalPreorder(leq) && |tops| == |parts| > 0
    requires forall j :: 0 <= j < |parts| ==> Bottom(multiset(tops[j]), multiset(parts[j]), Cap(num), leq)
    ensures Bottom(multiset(acc), multiset(Flatten(parts)), Cap(num), leq)
  {
    acc := tops[0];
    assert parts[..1] == [parts[0]];
    FlattenOne(parts[0]);
    for i := 1 to |tops|
      invariant Bottom(multiset(acc), multiset(Flatten(parts[..i])), Cap(num), leq)
    {
      FlattenSnoc(parts, i);
      EmptyBelowOne(acc, multiset(Flatten(parts[..i])), num, leq);
      EmptyBelowOne(tops[i], multiset(parts[i]), num, leq);
      var merged := TopN(acc + tops[i], num, leq, placeholder);
      BottomMerge(multiset(acc), multiset(Flatten(parts[..i])), multiset(tops[i]), multiset(parts[i]),
                  multiset(merged.value), Cap(num), leq);
      acc := merged.value;
    }
    assert parts[..|parts|] == parts;
  }

  lemma EmptyBelowOne<T(!new)>(s: seq<T>, all: multiset<T>, num: int, leq: (T, T) -> bool)
    requires Bottom(multiset(s), all, Cap(num), leq)
    ensures num <= 0 ==> s == []
  {
    assert |multiset(s)| == |s|;
  }

  method TakeOrdered<T(!new)>(parts: seq<seq<T>>, num: int, leq: (T, T) -> bool, placeholder: T)
    returns (r: Result<seq<T>, Error>)
    requires TotalPreorder(leq)
    ensures r.Err? <==> parts == [] || (num <= 0 && Flatten(parts) != [])
    ensures r.Ok? ==> Sorted(r.value, leq) && Bottom(multiset(r.value), multiset(Flatten(parts)), Cap(num), leq)
  {
    var selected := Select(parts, num, leq, placeholder);
    if selected.Err? {
      return Err(selected.error);
    }
    SortCorrect(selected.value, leq);
    r := Ok(Sort(selected.value, leq));
  }

  /** `sorted(all)[:num]` */
  function FirstSorted<T>(all: seq<T>, num: int, leq: (T, T) -> bool): seq<T>
  {
    var s := Sort(all, leq);
    s[..Least(Cap(num), |s|)]
  }

  /** Where no two values rank equal the result is determined: the first num values of the sorted
      data set. */
  lemma TakeOrderedIsSortedPrefix<T(!new)>(all: seq<T>, num: int, leq: (T, T) -> bool, result: seq<T>)
    requires TotalPreorder(leq) && AntisymmetricOn(multiset(all), leq)
    requires Sorted(result, leq) && Bottom(multiset(result), multiset(all), Cap(num), leq)
    ensures result == FirstSorted(all, num, leq)
  {
    BottomIsSortedPrefix(multiset(result), all, Cap(num), leq);
    SortCorrect(all, leq);
    SortedUnique(result, FirstSorted(all, num, leq), leq);
  }

  // ---------- With a key ----------

  /** Python's order on (key, element) pairs. */
  function PairLeq<K(==), T>(kleq: (K, K) -> bool, leq: (T, T) -> bool): ((K, T), (K, T)) -> bool
  {
    (a: (K, T), b: (K, T)) => if a.0 == b.0 then leq(a.1, b.1) else kleq(a.0, b.0)
  }

  lemma PairLeqIsOrder<K(!new), T(!new)>(kleq: (K, K) -> bool, leq: (T, T) -> bool)
    requires TotalPreorder(kleq) && Antisymmetric(kleq) && TotalPreorder(leq)
    ensures TotalPreorder(PairLeq(kleq, leq))
    ensures Antisymmetric(leq) ==> Antisymmetric(PairLeq(kleq, leq))
  {
    var le := PairLeq(kleq, leq);
    forall a, b
      ensures le(a, b) || le(b, a)
      ensures Antisymmetric(leq) && le(a, b) && le(b, a) ==> a == b
    {
      assert leq(a.1, b.1) || leq(b.1, a.1);
      assert kleq(a.0, b.0) || kleq(b.0, a.0);
    }
    forall a, b, c | le(a, b) && le(b, c)
      ensures le(a, c)
    {
      assert leq(a.1, b.1) && leq(b.1, c.1) ==> leq(a.1, c.1);
      assert kleq(a.0, b.0) && kleq(b.0, c.0) ==> kleq(a.0, c.0);
    }
  }

  /** Pairs are ordered by key, and by element where the keys are equal. */
  lemma PairLeqIsLexicographic<K(!new), T(!new)>(kleq: (K, K) -> bool, leq: (T, T) -> bool, j: K, x: T, k: K, y: T)
    requires TotalPreorder(kleq) && Antisymmetric(kleq)
    ensures PairLeq(kleq, leq)((j, x), (k, y)) <==> !kleq(k, j) || (j == k && leq(x, y))
  {
    assert kleq(j, j);
    assert kleq(j, k) || kleq(k, j);
  }

  function WithKeyOf<K, T>(key: T -> K): T -> (K, T)
  {
    x => (key(x), x)
  }

  function ElementOf<K, T>(p: (K, T)): T { p.1 }

  /** Different values have different keys. */
  ghost predicate DistinctKeys<K, T(!new)>(key: T -> K, s: seq<T>)
  {
    forall x, y :: x in s && y in s && key(x) == key(y) ==> x == y
  }

  lemma DistinctKeysAntisymmetric<K(!new), T(!new)>(key: T -> K, kleq: (K, K) -> bool, s: seq<T>)
    requires DistinctKeys(key, s) && Antisymmetric(kleq)
    ensures AntisymmetricOn(multiset(s), ByKey(key, kleq, true))
  {
    forall a, b | a in multiset(s) && b in multiset(s) && kleq(key(a), key(b)) && kleq(key(b), key(a))
      ensures a == b
    {
      assert a in s && b in s;
    }
  }

  lemma {:induction false} ElementsCount<K, T>(pairs: seq<(K, T)>, key: T -> K, x: T)
    requires forall i :: 0 <= i < |pairs| ==> pairs[i].0 == key(pairs[i].1)
    ensures multiset(Map(ElementOf, pairs))[x] == multiset(pairs)[(key(x), x)]
  {
    if pairs != [] {
      var n := |pairs| - 1;
      ElementsCount(pairs[..n], key, x);
      DropLast(pairs);
      assert Map(ElementOf, pairs) == Map(ElementOf, pairs[..n]) + [pairs[n].1];
    }
  }

  /** Selecting by (key, element) selects by key. */
  lemma SelectedElements<K(!new), T(!new)>(pairs: seq<(K, T)>, all: seq<T>, k: nat, key: T -> K,
                                           kleq: (K, K) -> bool, leq: (T, T) -> bool)
    requires TotalPreorder(kleq)
    requires Bottom(multiset(pairs), multiset(Map(WithKeyOf(key), all)), k, PairLeq(kleq, leq))
    ensures Bottom(multiset(Map(ElementOf, pairs)), multiset(all), k, ByKey(key, kleq, true))
  {
    var keyed, elements := Map(WithKeyOf(key), all), Map(ElementOf, pairs);
    forall i | 0 <= i < |pairs|
      ensures pairs[i].0 == key(pairs[i].1)
    {
      assert pairs[i] in multiset(pairs);
      assert pairs[i] in multiset(keyed);
      assert pairs[i] in keyed;
    }
    forall x
      ensures multiset(elements)[x] == multiset(pairs)[(key(x), x)]
      ensures multiset(all)[x] == multiset(keyed)[(key(x), x)]
    {
      ElementsCount(pairs, key, x);
      MapCount(WithKeyOf(key), all, x);
    }
    assert |multiset(elements)| == |multiset(pairs)| && |multiset(all)| == |multiset(keyed)|;
    forall x, y | x in multiset(elements) && multiset(elements)[y] < multiset(all)[y]
      ensures kleq(key(x), key(y))
    {
      assert (key(x), x) in multiset(pairs) && multiset(pairs)[(key(y), y)] < multiset(keyed)[(key(y), y)];
      assert PairLeq(kleq, leq)((key(x), x), (key(y), y));
      assert kleq(key(x), key(x));
    }
  }

  /** takeOrdered with a key: the elements come from the num smallest (key, element) pairs and are
      returned in key order; so they have num smallest keys, and where different elements have
      different keys they are the first num elements of the data set sorted by key. */
  method TakeOrderedByKey<K(==, !new), T(!new)>(parts: seq<seq<T>>, num: int, key: T -> K, kleq: (K, K) -> bool,
                                                leq: (T, T) -> bool, placeholder: (K, T))
    returns (r: Result<seq<T>, Error>, ghost pairs: seq<(K, T)>)
    requires TotalPreorder(kleq) && Antisymmetric(kleq) && TotalPreorder(leq)
    ensures r.Err? <==> parts == [] || (num <= 0 && Flatten(parts) != [])
    ensures r.Ok? ==> Sorted(r.value, ByKey(key, kleq, true))
    ensures r.Ok? ==> multiset(r.value) == multiset(Map(ElementOf, pairs))
    ensures r.Ok? ==> Bottom(multiset(pairs), multiset(Map(WithKeyOf(key), Flatten(parts))), Cap(num), PairLeq(kleq, leq))
    ensures r.Ok? ==> Bottom(multiset(r.value), multiset(Flatten(parts)), Cap(num), ByKey(key, kleq, true))
    ensures r.Ok? && DistinctKeys(key, Flatten(parts)) ==> r.value == FirstSorted(Flatten(parts), num, ByKey(key, kleq, true))
  {
    hide Bottom, TotalPreorder, Sorted, Sort, AntisymmetricOn, DistinctKeys;
    PairLeqIsOrder(kleq, leq);
    var keyed := MapParts(WithKeyOf(key), parts);
    FlattenMap(WithKeyOf(key), parts);
    var selected := Select(keyed, num, PairLeq(kleq, leq), placeholder);
    pairs := [];
    if selected.Err? {
      return Err(selected.error), pairs;
    }
    pairs := selected.value;
    var elements := Map(ElementOf, selected.value);
    ByKeyIsPreorder(key, kleq, true);
    SortCorrect(elements, ByKey(key, kleq, true));
    SortCorrect(Flatten(parts), ByKey(key, kleq, true));
    SelectedElements(pairs, Flatten(parts), Cap(num), key, kleq, leq);
    var result := Sort(elements, ByKey(key, kleq, true));
    if DistinctKeys(key, Flatten(parts)) {
      DistinctKeysAntisymmetric(key, kleq, Flatten(parts));
      TakeOrderedIsSortedPrefix(Flatten(parts), num, ByKey(key, kleq, true), result);
    }
    r := Ok(result);
  }
}
