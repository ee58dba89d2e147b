/** Total preorders, stable sorting, and the k smallest values of a bag. */
module Orders {
  import opened Seqs

  ghost predicate TotalPreorder<T(!new)>(leq: (T, T) -> bool)
  {
    && (forall a, b :: leq(a, b) || leq(b, a))
    && (forall a, b, c :: leq(a, b) && leq(b, c) ==> leq(a, c))
  }

  ghost predicate Antisymmetric<T(!new)>(leq: (T, T) -> bool)
  {
    forall a, b :: leq(a, b) && leq(b, a) ==> a == b
  }

  /** No two different values of all rank equal. */
  ghost predicate AntisymmetricOn<T(!new)>(all: multiset<T>, leq: (T, T) -> bool)
  {
    forall a, b :: a in all && b in all && leq(a, b) && leq(b, a) ==> a == b
  }

  /** The order `sorted(..., key=key, reverse=not ascending)` sorts by. */
  function ByKey<K, T>(key: T -> K, leq: (K, K) -> bool, ascending: bool): (T, T) -> bool
  {
    (a, b) => if ascending then leq(key(a), key(b)) else leq(key(b), key(a))
  }

  lemma ByKeyIsPreorder<K(!new), T(!new)>(key: T -> K, leq: (K, K) -> bool, ascending: bool)
    requires TotalPreorder(leq)
    ensures TotalPreorder(ByKey(key, leq, ascending))
  {
    var le := ByKey(key, leq, ascending);
    forall a, b
      ensures le(a, b) || le(b, a)
    {
      assert leq(key(a), key(b)) || leq(key(b), key(a));
    }
    forall a, b, c | le(a, b) && le(b, c)
      ensures le(a, c)
    {
      var x, y, z := key(a), key(b), key(c);
      assert leq(x, y) && leq(y, z) ==> leq(x, z);
      assert leq(z, y) && leq(y, x) ==> leq(z, x);
    }
  }

  ghost predicate Sorted<T>(s: seq<T>, leq: (T, T) -> bool)
  {
    forall i, j :: 0 <= i < j < |s| ==> leq(s[i], s[j])
  }

  /** x placed behind every value not above it. */
  function Place<T>(s: seq<T>, x: T, leq: (T, T) -> bool): seq<T>
  {
    if s == [] || leq(s[|s| - 1], x) then s + [x]
    else Place(s[..|s| - 1], x, leq) + [s[|s| - 1]]
  }

  /** Python's `sorted`: stable. */
  function Sort<T>(s: seq<T>, leq: (T, T) -> bool): seq<T>
  {
    if s == [] then [] else Place(Sort(s[..|s| - 1], leq), s[|s| - 1], leq)
  }

  lemma {:induction false} PlaceCorrect<T(!new)>(s: seq<T>, x: T, leq: (T, T) -> bool)
    requires TotalPreorder(leq) && Sorted(s, leq)
    ensures Sorted(Place(s, x, leq), leq)
    ensures multiset(Place(s, x, leq)) == multiset(s) + multiset{x}
  {
    if s != [] && !leq(s[|s| - 1], x) {
      var n := |s| - 1;
      var r := Place(s[..n], x, leq);
      PlaceCorrect(s[..n], x, leq);
      DropLast(s);
      PlacedBelow(r, s[..n], x, s[n], leq);
    }
  }

  lemma PlacedBelow<T(!new)>(r: seq<T>, s: seq<T>, x: T, top: T, leq: (T, T) -> bool)
    requires multiset(r) == multiset(s) + multiset{x}
    requires leq(x, top) && forall i :: 0 <= i < |s| ==> leq(s[i], top)
    ensures forall i :: 0 <= i < |r| ==> leq(r[i], top)
  {
    forall i | 0 <= i < |r|
      ensures leq(r[i], top)
    {
      assert r[i] in multiset(r);
      assert r[i] == x || r[i] in multiset(s);
      if r[i] != x {
        assert r[i] in s;
      }
    }
  }

  lemma {:induction false} SortCorrect<T(!new)>(s: seq<T>, leq: (T, T) -> bool)
    requires TotalPreorder(leq)
    ensures Sorted(Sort(s, leq), leq)
    ensures multiset(Sort(s, leq)) == multiset(s)
    ensures |Sort(s, leq)| == |s|
  {
    if s != [] {
      SortCorrect(s[..|s| - 1], leq);
      PlaceCorrect(Sort(s[..|s| - 1], leq), s[|s| - 1], leq);
      DropLast(s);
    }
    assert |multiset(Sort(s, leq))| == |multiset(s)|;
  }

  /** y, if it ranks equal to x. */
  function IfSameRank<T>(x: T, y: T, leq: (T, T) -> bool): seq<T>
  {
    if leq(x, y) && leq(y, x) then [y] else []
  }

  /** The values of s that rank equal to x, in order. */
  function SameRank<T>(x: T, s: seq<T>, leq: (T, T) -> bool): seq<T>
  {
    if s == [] then [] else SameRank(x, s[..|s| - 1], leq) + IfSameRank(x, s[|s| - 1], leq)
  }

  lemma SameRankSnoc<T>(x: T, s: seq<T>, y: T, leq: (T, T) -> bool)
    ensures SameRank(x, s + [y], leq) == SameRank(x, s, leq) + IfSameRank(x, y, leq)
  {
    assert (s + [y])[..|s|] == s;
  }

  lemma NotBoth<T(!new)>(x: T, y: T, z: T, leq: (T, T) -> bool)
    requires TotalPreorder(leq) && !leq(z, y)
    ensures IfSameRank(x, y, leq) == [] || IfSameRank(x, z, leq) == []
  {
    assert leq(z, x) && leq(x, y) ==> leq(z, y);
  }

  lemma SwapEmpty<T>(s: seq<T>, a: seq<T>, b: seq<T>)
    requires a == [] || b == []
    ensures s + a + b == s + b + a
  {
  }

  lemma {:induction false} PlaceStable<T(!new)>(x: T, s: seq<T>, y: T, leq: (T, T) -> bool)
    requires TotalPreorder(leq)
    ensures SameRank(x, Place(s, y, leq), leq) == SameRank(x, s + [y], leq)
  {
    if s != [] && !leq(s[|s| - 1], y) {
      var init, last := s[..|s| - 1], s[|s| - 1];
      NotBoth(x, y, last, leq);
      hide TotalPreorder, SameRank, IfSameRank;
      PlaceStable(x, init, y, leq);
      assert s == init + [last] && Place(s, y, leq) == Place(init, y, leq) + [last];
      hide Place;
      SameRankSnoc(x, Place(init, y, leq), last, leq);
      SameRankSnoc(x, init, y, leq);
      SameRankSnoc(x, init, last, leq);
      SameRankSnoc(x, s, y, leq);
      SwapEmpty(SameRank(x, init, leq), IfSameRank(x, y, leq), IfSameRank(x, last, leq));
    }
  }

  /** Sorting is stable: values that rank equal keep their order. */
  lemma {:induction false} SortStable<T(!new)>(x: T, s: seq<T>, leq: (T, T) -> bool)
    requires TotalPreorder(leq)
    ensures SameRank(x, Sort(s, leq), leq) == SameRank(x, s, leq)
  {
    if s != [] {
      var init, last := s[..|s| - 1], s[|s| - 1];
      SortStable(x, init, leq);
      PlaceStable(x, Sort(init, leq), last, leq);
      SameRankSnoc(x, Sort(init, leq), last, leq);
    }
  }

  lemma LastsAgree<T(!new)>(s: seq<T>, t: seq<T>, leq: (T, T) -> bool)
    requires TotalPreorder(leq) && AntisymmetricOn(multiset(s), leq)
    requires Sorted(s, leq) && Sorted(t, leq) && multiset(s) == multiset(t) && s != []
    ensures |s| == |t| && s[|s| - 1] == t[|t| - 1]
  {
    assert |multiset(s)| == |s| && |multiset(t)| == |t|;
    var n := |s| - 1;
    InMultiset(s, t, s[n]);
    InMultiset(s, t, t[n]);
    var i :| 0 <= i < |t| && t[i] == s[n];
    var j :| 0 <= j < |s| && s[j] == t[n];
    assert leq(t[i], t[n]) && leq(s[j], s[n]);
  }

  lemma {:induction false} SortedUnique<T(!new)>(s: seq<T>, t: seq<T>, leq: (T, T) -> bool)
    requires TotalPreorder(leq) && AntisymmetricOn(multiset(s), leq)
    requires Sorted(s, leq) && Sorted(t, leq) && multiset(s) == multiset(t)
    ensures s == t
  {
    hide TotalPreorder;
    if s != [] {
      LastsAgree(s, t, leq);
      var n := |s| - 1;
      DropLast(s);
      DropLast(t);
      Cancel(multiset(s[..n]), multiset(t[..n]), multiset{s[n]});
      SortedUnique(s[..n], t[..n], leq);
    } else {
      assert |multiset(t)| == 0;
    }
  }

  // ---------- The k smallest ----------

  /** h holds k values of all (or all of them, when there are fewer), none above a value left out. */
  ghost predicate Bottom<T(!new)>(h: multiset<T>, all: multiset<T>, k: nat, leq: (T, T) -> bool)
  {
    && h <= all
    && |h| == Least(k, |all|)
    && forall x, y :: x in h && h[y] < all[y] ==> leq(x, y)
  }

  lemma SubbagSize<T>(h: multiset<T>, all: multiset<T>)
    requires h <= all
    ensures |h| <= |all|
    ensures |h| == |all| ==> h == all
  {
    var rest := all - h;
    assert all == h + rest;
    if |rest| == 0 {
      assert rest == multiset{};
    }
  }

  lemma BottomOfNothing<T(!new)>(k: nat, leq: (T, T) -> bool)
    ensures Bottom(multiset{}, multiset{}, k, leq)
  {
  }

  /** While there is room, everything is kept. */
  lemma BottomGrow<T(!new)>(h: multiset<T>, all: multiset<T>, k: nat, v: T, leq: (T, T) -> bool)
    requires Bottom(h, all, k, leq) && |h| < k
    ensures Bottom(h + multiset{v}, all + multiset{v}, k, leq)
  {
    SubbagSize(h, all);
  }

  /** When full, a new value either replaces a largest one or is itself left out. */
  lemma BottomReplace<T(!new)>(h: multiset<T>, all: multiset<T>, k: nat, v: T, m: T, leq: (T, T) -> bool)
    requires TotalPreorder(leq)
    requires Bottom(h, all, k, leq) && |h| == k
    requires m in h && forall x :: x in h ==> leq(x, m)
    ensures leq(m, v) ==> Bottom(h, all + multiset{v}, k, leq)
    ensures !leq(m, v) ==> Bottom(h - multiset{m} + multiset{v}, all + multiset{v}, k, leq)
  {
    if !leq(m, v) {
      var g := h - multiset{m} + multiset{v};
      assert h == h - multiset{m} + multiset{m};
      forall x, y | x in g && g[y] < (all + multiset{v})[y]
        ensures leq(x, y)
      {
        assert x in h || x == v;
        if h[y] < all[y] {
          assert leq(m, y);
        } else {
          assert y == m;
        }
      }
    }
  }

  /** The k smallest of two selections are the k smallest of both sources. */
  lemma BottomMerge<T(!new)>(ha: multiset<T>, a: multiset<T>, hb: multiset<T>, b: multiset<T>, h: multiset<T>, k: nat, leq: (T, T) -> bool)
    requires TotalPreorder(leq)
    requires Bottom(ha, a, k, leq) && Bottom(hb, b, k, leq) && Bottom(h, ha + hb, k, leq)
    ensures Bottom(h, a + b, k, leq)
  {
    SubbagSize(ha, a);
    SubbagSize(hb, b);
    forall x, y | x in h && h[y] < (a + b)[y]
      ensures leq(x, y)
    {
      if h[y] >= (ha + hb)[y] {
        if ha[y] < a[y] {
          LeftOut(ha, a, hb, h, x, y, k, leq);
        } else {
          LeftOut(hb, b, ha, h, x, y, k, leq);
        }
      }
    }
  }

  lemma LeftOut<T(!new)>(ha: multiset<T>, a: multiset<T>, hb: multiset<T>, h: multiset<T>, x: T, y: T, k: nat, leq: (T, T) -> bool)
    requires TotalPreorder(leq)
    requires Bottom(ha, a, k, leq) && ha[y] < a[y] && x in h
    requires h <= ha + hb && |h| <= k && forall x, z :: x in h && h[z] < (ha + hb)[z] ==> leq(x, z)
    ensures leq(x, y)
  {
    SubbagSize(ha, a);
    if x !in ha {
      if ha <= h {
        SubbagSize(ha, h);
        assert false;
      } else {
        var z :| h[z] < ha[z];
        assert leq(x, z) && leq(z, y);
      }
    }
  }

  /** Where no two values rank equal there is only one such selection. */
  lemma BottomUnique<T(!new)>(g: multiset<T>, h: multiset<T>, all: multiset<T>, k: nat, leq: (T, T) -> bool)
    requires AntisymmetricOn(all, leq)
    requires Bottom(g, all, k, leq) && Bottom(h, all, k, leq)
    ensures g == h
  {
    if g <= h {
      SubbagSize(g, h);
    } else if h <= g {
      SubbagSize(h, g);
    } else {
      var x :| g[x] > h[x];
      var y :| h[y] > g[y];
    }
  }

  lemma PrefixIsBottom<T(!new)>(s: seq<T>, k: nat, leq: (T, T) -> bool)
    requires Sorted(s, leq) && TotalPreorder(leq)
    ensures Bottom(multiset(s[..Least(k, |s|)]), multiset(s), k, leq)
  {
    var c := Least(k, |s|);
    assert s == s[..c] + s[c..];
    assert |multiset(s)| == |s|;
    forall x, y | x in multiset(s[..c]) && multiset(s[..c])[y] < multiset(s)[y]
      ensures leq(x, y)
    {
      assert x in s[..c];
      assert y in multiset(s[c..]);
      assert y in s[c..];
    }
  }

  /** The k smallest of all, as a bag, are the first k of the sorted data. */
  lemma BottomIsSortedPrefix<T(!new)>(h: multiset<T>, all: seq<T>, k: nat, leq: (T, T) -> bool)
    requires TotalPreorder(leq) && AntisymmetricOn(multiset(all), leq)
    requires Bottom(h, multiset(all), k, leq)
    ensures |Sort(all, leq)| == |all|
    ensures h == multiset(Sort(all, leq)[..Least(k, |all|)])
  {
    SortCorrect(all, leq);
    PrefixIsBottom(Sort(all, leq), k, leq);
    BottomUnique(h, multiset(Sort(all, leq)[..Least(k, |all|)]), multiset(all), k, leq);
  }
}
