/** Facts about finite sequences shared by the other modules: concatenated partitions,
    lists without duplicates, dictionaries listed as pairs, and sums of reals. */
module Seqs {

  datatype Option<+T> = None | Some(value: T)

  datatype Result<+T, +E> = Ok(value: T) | Err(error: E)

  /** The contents of a partitioned collection in partition order, as `collect()` lists them. */
  function Flatten<T>(xss: seq<seq<T>>): seq<T>
  {
    if xss == [] then [] else xss[0] + Flatten(xss[1..])
  }

  lemma {:induction false} FlattenConcat<T>(xss: seq<seq<T>>, yss: seq<seq<T>>)
    ensures Flatten(xss + yss) == Flatten(xss) + Flatten(yss)
  {
    if xss == [] {
      assert xss + yss == yss;
    } else {
      assert (xss + yss)[1..] == xss[1..] + yss;
      FlattenConcat(xss[1..], yss);
    }
  }

  lemma FlattenNone<T>(xss: seq<seq<T>>)
    requires forall i :: 0 <= i < |xss| ==> xss[i] == []
    ensures Flatten(xss) == []
  {
    if xss != [] {
      FlattenNone(xss[1..]);
    }
  }

  lemma FlattenOne<T>(xs: seq<T>)
    ensures Flatten([xs]) == xs
  {
    assert [xs][1..] == [];
  }

  lemma FlattenTwo<T>(s: seq<T>, t: seq<T>)
    ensures Flatten([s, t]) == s + t
  {
    assert [s, t][1..] == [t];
    FlattenOne(t);
  }

  lemma FlattenSnoc<T>(xss: seq<seq<T>>, i: nat)
    requires i < |xss|
    ensures Flatten(xss[..i + 1]) == Flatten(xss[..i]) + xss[i]
  {
    assert xss[..i + 1] == xss[..i] + [xss[i]];
    FlattenConcat(xss[..i], [xss[i]]);
    FlattenOne(xss[i]);
  }

  lemma FlattenRest<T>(parts: seq<seq<T>>, i: nat)
    requires i <= |parts|
    ensures Flatten(parts) == Flatten(parts[..i]) + Flatten(parts[i..])
  {
    assert parts == parts[..i] + parts[i..];
    FlattenConcat(parts[..i], parts[i..]);
  }

  lemma {:induction false} InFlatten<T>(xss: seq<seq<T>>, x: T)
    ensures x in Flatten(xss) <==> exists i :: 0 <= i < |xss| && x in xss[i]
  {
    if xss != [] {
      InFlatten(xss[1..], x);
      if x in Flatten(xss[1..]) {
        var i :| 0 <= i < |xss[1..]| && x in xss[1..][i];
        assert xss[i + 1] == xss[1..][i];
      }
      forall i | 0 <= i < |xss| && x in xss[i]
        ensures x in Flatten(xss)
      {
        if i > 0 {
          assert xss[1..][i - 1] == xss[i];
        }
      }
    }
  }

  function Map<A, B>(f: A -> B, s: seq<A>): (r: seq<B>)
    ensures |r| == |s|
    ensures forall i :: 0 <= i < |s| ==> r[i] == f(s[i])
  {
    seq(|s|, i requires 0 <= i < |s| => f(s[i]))
  }

  function One<T>(x: T): seq<T> { [x] }

  function KeyOf<K, V>(p: (K, V)): K { p.0 }

  lemma MapConcat<A, B>(f: A -> B, s: seq<A>, t: seq<A>)
    ensures Map(f, s + t) == Map(f, s) + Map(f, t)
  {
  }

  function MapParts<A, B>(f: A -> B, parts: seq<seq<A>>): (r: seq<seq<B>>)
    ensures |r| == |parts|
    ensures forall i :: 0 <= i < |parts| ==> r[i] == Map(f, parts[i])
  {
    seq(|parts|, i requires 0 <= i < |parts| => Map(f, parts[i]))
  }

  lemma {:induction false} FlattenMap<A, B>(f: A -> B, parts: seq<seq<A>>)
    ensures Flatten(MapParts(f, parts)) == Map(f, Flatten(parts))
  {
    if parts != [] {
      FlattenMap(f, parts[1..]);
      assert MapParts(f, parts)[1..] == MapParts(f, parts[1..]);
      MapConcat(f, parts[0], Flatten(parts[1..]));
    }
  }

  /** Where x sits in s, so that s splits around it. */
  lemma SplitAt<T>(s: seq<T>, x: T) returns (a: seq<T>, b: seq<T>)
    requires x in s
    ensures s == a + [x] + b
    ensures multiset(s) == multiset(a + b) + multiset{x}
  {
    var i :| 0 <= i < |s| && s[i] == x;
    a, b := s[..i], s[i + 1..];
    assert s == a + [x] + b;
  }

  lemma DropLast<T>(s: seq<T>)
    requires s != []
    ensures s == s[..|s| - 1] + [s[|s| - 1]]
    ensures multiset(s) == multiset(s[..|s| - 1]) + multiset{s[|s| - 1]}
  {
    assert s == s[..|s| - 1] + [s[|s| - 1]];
  }

  lemma InMultiset<T>(s: seq<T>, t: seq<T>, x: T)
    requires multiset(s) == multiset(t)
    ensures x in s <==> x in t
  {
    assert x in s <==> x in multiset(s);
    assert x in t <==> x in multiset(t);
  }

  lemma Cancel<T>(a: multiset<T>, b: multiset<T>, c: multiset<T>)
    requires a + c == b + c
    ensures a == b
  {
    forall x
      ensures a[x] == b[x]
    {
      assert (a + c)[x] == (b + c)[x];
    }
  }

  /** The last value of s taken out of a permutation t of s. */
  lemma TakeOut<T>(s: seq<T>, t: seq<T>) returns (a: seq<T>, b: seq<T>)
    requires s != [] && multiset(s) == multiset(t)
    ensures t == a + [s[|s| - 1]] + b
    ensures multiset(s[..|s| - 1]) == multiset(a + b)
  {
    var x := s[|s| - 1];
    DropLast(s);
    InMultiset(s, t, x);
    a, b := SplitAt(t, x);
    Cancel(multiset(s[..|s| - 1]), multiset(a + b), multiset{x});
  }

  lemma {:induction false} MapCount<A(!new), B>(f: A -> B, s: seq<A>, x: A)
    requires forall y :: f(y) == f(x) ==> y == x
    ensures multiset(Map(f, s))[f(x)] == multiset(s)[x]
  {
    if s != [] {
      var n := |s| - 1;
      MapCount(f, s[..n], x);
      DropLast(s);
      assert Map(f, s) == Map(f, s[..n]) + [f(s[n])];
    }
  }

  lemma {:induction false} MapPerm<A, B>(f: A -> B, s: seq<A>, t: seq<A>)
    requires multiset(s) == multiset(t)
    ensures multiset(Map(f, s)) == multiset(Map(f, t))
  {
    if s == [] {
      assert |multiset(t)| == 0;
    } else {
      var n := |s| - 1;
      var a, b := TakeOut(s, t);
      MapPerm(f, s[..n], a + b);
      assert Map(f, s) == Map(f, s[..n]) + [f(s[n])];
      assert Map(f, t) == Map(f, a) + [f(s[n])] + Map(f, b);
      assert Map(f, a + b) == Map(f, a) + Map(f, b);
    }
  }

  lemma MapMiss<A(!new), B>(f: A -> B, s: seq<A>, z: B)
    requires forall y :: f(y) != z
    ensures multiset(Map(f, s))[z] == 0
  {
    assert z !in Map(f, s);
  }

  ghost predicate NoDup<T>(s: seq<T>)
  {
    forall i, j :: 0 <= i < j < |s| ==> s[i] != s[j]
  }

  lemma {:induction false} NoDupSplit<T>(a: seq<T>, x: T, b: seq<T>)
    requires NoDup(a + [x] + b)
    ensures NoDup(a + b) && x !in a + b
  {
    var s := a + [x] + b;
    assert forall i :: 0 <= i < |a + b| ==> (a + b)[i] == s[if i < |a| then i else i + 1];
    assert s[|a|] == x;
  }

  /** A duplicate-free list inside another list of values is no longer than it, and
      equally long only when both hold the same values. */
  lemma {:induction false} NoDupSubset<T>(s: seq<T>, t: seq<T>)
    requires NoDup(s)
    requires forall x :: x in s ==> x in t
    ensures |s| <= |t|
    ensures |s| == |t| ==> forall x :: x in t ==> x in s
  {
    if s != [] {
      var x, rest := s[0], s[1..];
      var a, b := SplitAt(t, x);
      assert s == [] + [x] + rest;
      NoDupSplit([], x, rest);
      assert [] + rest == rest;
      forall y | y in rest
        ensures y in a + b
      {
        assert y in s && y != x;
      }
      NoDupSubset(rest, a + b);
    } else if t != [] {
      assert |t| > 0;
    }
  }

  ghost predicate UniqueKeys<K, V>(s: seq<(K, V)>)
  {
    forall i, j :: 0 <= i < j < |s| ==> s[i].0 != s[j].0
  }

  /** A listing of dictionary m in some iteration order. */
  ghost predicate Enumerates<K, V>(e: seq<(K, V)>, m: map<K, V>)
  {
    && UniqueKeys(e)
    && (forall i :: 0 <= i < |e| ==> e[i].0 in m && m[e[i].0] == e[i].1)
    && (forall k :: k in m ==> (k, m[k]) in e)
  }

  /** `combiners.iteritems()`: every entry once, in an order the caller cannot rely on. */
  method Items<K(==), V>(m: map<K, V>) returns (e: seq<(K, V)>)
    ensures Enumerates(e, m)
  {
    e := [];
    var rest := m.Keys;
    while rest != {}
      invariant rest <= m.Keys
      invariant UniqueKeys(e)
      invariant forall i :: 0 <= i < |e| ==> e[i].0 in m && e[i].0 !in rest && m[e[i].0] == e[i].1
      invariant forall k :: k in m && k !in rest ==> (k, m[k]) in e
      decreases rest
    {
      var k :| k in rest;
      e := e + [(k, m[k])];
      rest := rest - {k};
    }
  }

  function Least(a: int, b: int): int { if a < b then a else b }

  /** 0 to k - 1. */
  ghost function Below(k: nat): (r: set<int>)
    ensures forall x :: x in r <==> 0 <= x < k
  {
    if k == 0 then {} else Below(k - 1) + {k - 1}
  }

  function AddVectors(u: seq<real>, v: seq<real>): (r: seq<real>)
    ensures |r| == Least(|u|, |v|)
  {
    seq(Least(|u|, |v|), i requires 0 <= i < Least(|u|, |v|) => u[i] + v[i])
  }

  function Sum(s: seq<real>): real
  {
    if s == [] then 0.0 else Sum(s[..|s| - 1]) + s[|s| - 1]
  }

  lemma SumSnoc(s: seq<real>, x: real)
    ensures Sum(s + [x]) == Sum(s) + x
  {
    assert (s + [x])[..|s + [x]| - 1] == s;
  }

  lemma {:induction false} SumConcat(s: seq<real>, t: seq<real>)
    ensures Sum(s + t) == Sum(s) + Sum(t)
  {
    if t == [] {
      assert s + t == s;
    } else {
      assert (s + t)[..|s + t| - 1] == s + t[..|t| - 1];
      SumConcat(s, t[..|t| - 1]);
    }
  }

  lemma {:induction false} SumPerm(s: seq<real>, t: seq<real>)
    requires multiset(s) == multiset(t)
    ensures Sum(s) == Sum(t)
  {
    if s == [] {
      assert |multiset(t)| == 0;
    } else {
      var n := |s| - 1;
      var x := s[n];
      var a, b := TakeOut(s, t);
      SumPerm(s[..n], a + b);
      SumConcat(a, b);
      SumConcat(a + [x], b);
      SumSnoc(a, x);
    }
  }
}
