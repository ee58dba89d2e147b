/** The linear transitive closure example (transitive_closure.py). */
module TransitiveClosure {
  import opened Seqs
  import opened Keyed
  import opened Joins

  function Swap<V>(p: (V, V)): (V, V) { (p.1, p.0) }

  /** `lambda (_, (a, b)): (b, a)` */
  function NewEdge<V>(row: (V, (V, V))): (V, V) { (row.1.1, row.1.0) }

  /** A path of n >= 1 edges. */
  ghost predicate Path<V(!new)>(edges: seq<(V, V)>, n: nat, x: V, z: V)
  {
    if n == 0 then false
    else if n == 1 then (x, z) in edges
    else exists y :: (x, y) in edges && Path(edges, n - 1, y, z)
  }

  ghost predicate Connected<V(!new)>(edges: seq<(V, V)>, x: V, z: V)
  {
    exists n: nat :: Path(edges, n, x, z)
  }

  lemma Prepend<V(!new)>(edges: seq<(V, V)>, x: V, y: V, z: V)
    requires (x, y) in edges && Connected(edges, y, z)
    ensures Connected(edges, x, z)
  {
    var n: nat :| Path(edges, n, y, z);
    assert Path(edges, n + 1, x, z);
  }

  /** What one round leaves in tc: the old pairs and every pair one edge longer, each once. */
  ghost predicate IsRound<V(!new)>(edges: seq<(V, V)>, tc: seq<(V, V)>, out: seq<(V, V)>)
  {
    && NoDup(out)
    && forall x, z :: (x, z) in out <==> (x, z) in tc || exists y :: (x, y) in edges && (y, z) in tc
  }

  lemma JoinedRows<V(!new)>(tc: seq<(V, V)>, edges: seq<(V, V)>, none: V, rows: seq<(V, (V, V))>)
    requires IsJoin(Inner, tc, Map(Swap, edges), none, rows)
    ensures forall x, y, z :: (y, (z, x)) in rows <==> (y, z) in tc && (x, y) in edges
  {
    forall x, y, z
      ensures (y, (z, x)) in rows <==> (y, z) in tc && (x, y) in edges
    {
      MapCount(Swap<V>, edges, (x, y));
      TimesFacts(multiset(tc)[(y, z)], 0, multiset(Map(Swap, edges))[(y, x)]);
      assert (y, (z, x)) in rows <==> multiset(rows)[(y, (z, x))] > 0;
      assert (y, z) in tc <==> multiset(tc)[(y, z)] > 0;
      assert (x, y) in edges <==> multiset(edges)[(x, y)] > 0;
    }
  }

  lemma RoundFromJob<V(!new)>(edges: seq<(V, V)>, tc: seq<(V, V)>, none: V, rows: seq<(V, (V, V))>, out: seq<(V, V)>)
    requires IsJoin(Inner, tc, Map(Swap, edges), none, rows)
    requires Distinct(tc + Map(NewEdge, rows), out)
    ensures IsRound(edges, tc, out)
  {
    JoinedRows(tc, edges, none, rows);
    var grown := Map(NewEdge, rows);
    forall x, z
      ensures (x, z) in grown <==> exists y :: (x, y) in edges && (y, z) in tc
    {
      if (x, z) in grown {
        var i :| 0 <= i < |grown| && grown[i] == (x, z);
        var (y, (a, b)) := rows[i];
        assert (y, (z, x)) in rows;
      }
      if y :| (x, y) in edges && (y, z) in tc {
        var i :| 0 <= i < |rows| && rows[i] == (y, (z, x));
        assert grown[i] == (x, z);
      }
    }
  }

  // ---------- Bounds and exit ----------

  function Vertices<V>(edges: seq<(V, V)>): seq<V>
  {
    if edges == [] then [] else Vertices(edges[1..]) + [edges[0].0, edges[0].1]
  }

  lemma {:induction false} Endpoints<V>(edges: seq<(V, V)>, x: V, y: V)
    requires (x, y) in edges
    ensures x in Vertices(edges) && y in Vertices(edges)
  {
    if edges[0] != (x, y) {
      Endpoints(edges[1..], x, y);
    }
  }

  ghost predicate Within<V>(pairs: seq<(V, V)>, vs: seq<V>)
  {
    forall i :: 0 <= i < |pairs| ==> pairs[i].0 in vs && pairs[i].1 in vs
  }

  /** Pairwise distinct vertex pairs are at most quadratically many. */
  lemma CountBound<V(!new)>(pairs: seq<(V, V)>, vs: seq<V>)
    requires NoDup(pairs) && Within(pairs, vs)
    ensures |pairs| <= |Product(vs, vs)|
  {
    forall p | p in pairs
      ensures p in Product(vs, vs)
    {
      var i :| 0 <= i < |pairs| && pairs[i] == p;
      ProductCount(vs, vs, p.0, p.1);
      TimesFacts(multiset(vs)[p.0], 0, multiset(vs)[p.1]);
      assert p.0 in multiset(vs) && p.1 in multiset(vs);
      assert p in multiset(Product(vs, vs));
    }
    NoDupSubset(pairs, Product(vs, vs));
  }

  lemma RoundWithin<V(!new)>(edges: seq<(V, V)>, tc: seq<(V, V)>, out: seq<(V, V)>, vs: seq<V>)
    requires IsRound(edges, tc, out)
    requires Within(edges, vs) && Within(tc, vs)
    ensures Within(out, vs)
  {
    forall i | 0 <= i < |out|
      ensures out[i].0 in vs && out[i].1 in vs
    {
      assert (out[i].0, out[i].1) in out;
    }
  }

  /** A closed set of pairs holding every edge holds every path. */
  lemma {:induction false} ClosedHoldsPaths<V(!new)>(edges: seq<(V, V)>, tc: seq<(V, V)>, n: nat, x: V, z: V)
    requires forall p :: p in edges ==> p in tc
    requires Closed(edges, tc)
    requires Path(edges, n, x, z)
    ensures (x, z) in tc
  {
    if n > 1 {
      var y :| (x, y) in edges && Path(edges, n - 1, y, z);
      ClosedHoldsPaths(edges, tc, n - 1, y, z);
    }
  }

  /** Equal counts mean an unchanged set, because no round loses a pair or holds one twice. */
  lemma SameCountIsClosed<V(!new)>(edges: seq<(V, V)>, tc: seq<(V, V)>, out: seq<(V, V)>)
    requires NoDup(tc) && IsRound(edges, tc, out)
    ensures |tc| <= |out|
    ensures |tc| == |out| ==> forall x, z :: (x, z) in out ==> (x, z) in tc
  {
    RoundGrows(edges, tc, out);
    NoDupSubset(tc, out);
  }

  lemma RoundSound<V(!new)>(edges: seq<(V, V)>, tc: seq<(V, V)>, out: seq<(V, V)>)
    requires IsRound(edges, tc, out)
    requires forall x, z :: (x, z) in tc ==> Connected(edges, x, z)
    ensures forall x, z :: (x, z) in out ==> Connected(edges, x, z)
  {
    forall x, z | (x, z) in out
      ensures Connected(edges, x, z)
    {
      if (x, z) !in tc {
        var y :| (x, y) in edges && (y, z) in tc;
        Prepend(edges, x, y, z);
      }
    }
  }

  /** Extending any of pairs by an edge in front leads nowhere new. */
  ghost predicate Closed<V(!new)>(edges: seq<(V, V)>, pairs: seq<(V, V)>)
  {
    forall x, y, z :: (x, y) in edges && (y, z) in pairs ==> (x, z) in pairs
  }

  ghost predicate IsClosure<V(!new)>(edges: seq<(V, V)>, pairs: seq<(V, V)>)
  {
    forall x, z :: (x, z) in pairs <==> Connected(edges, x, z)
  }

  /** Pairs between the edges and their closure are the closure exactly when they are closed. */
  lemma ClosedIsClosure<V(!new)>(edges: seq<(V, V)>, pairs: seq<(V, V)>)
    requires forall p :: p in edges ==> p in pairs
    requires forall x, z :: (x, z) in pairs ==> Connected(edges, x, z)
    ensures Closed(edges, pairs) <==> IsClosure(edges, pairs)
  {
    if Closed(edges, pairs) {
      forall x, z | Connected(edges, x, z)
        ensures (x, z) in pairs
      {
        var n: nat :| Path(edges, n, x, z);
        ClosedHoldsPaths(edges, pairs, n, x, z);
      }
    }
    if IsClosure(edges, pairs) {
      forall x, y, z | (x, y) in edges && (y, z) in pairs
        ensures (x, z) in pairs
      {
        Prepend(edges, x, y, z);
      }
    }
  }

  lemma RoundGrows<V(!new)>(edges: seq<(V, V)>, tc: seq<(V, V)>, out: seq<(V, V)>)
    requires IsRound(edges, tc, out)
    ensures forall p :: p in tc ==> p in out
  {
    forall p | p in tc
      ensures p in out
    {
      assert (p.0, p.1) in out;
    }
  }

  lemma ExitIsClosure<V(!new)>(edges: seq<(V, V)>, tc: seq<(V, V)>, out: seq<(V, V)>)
    requires NoDup(tc) && IsRound(edges, tc, out) && |tc| == |out|
    requires forall p :: p in edges ==> p in tc
    requires forall x, z :: (x, z) in out ==> Connected(edges, x, z)
    ensures IsClosure(edges, out)
  {
    SameCountIsClosed(edges, tc, out);
    RoundGrows(edges, tc, out);
    ClosedIsClosure(edges, out);
  }

  // ---------- The loop ----------

  method Round<V(==, !new)>(tc: seq<seq<(V, V)>>, edges: seq<seq<(V, V)>>, ghost original: seq<(V, V)>, none: V,
                            h: V -> int, h2: ((V, V)) -> int, n: int)
    returns (out: seq<seq<(V, V)>>)
    requires n > 0 && Flatten(edges) == Map(Swap, original)
    ensures IsRound(original, Flatten(tc), Flatten(out))
  {
    var joined := Join(Inner, tc, edges, none, h, n);
    var newEdges := MapParts(NewEdge, joined);
    FlattenMap(NewEdge<V>, joined);
    FlattenConcat(tc, newEdges);
    out := DistinctValues(tc + newEdges, h2, n);
    RoundFromJob(original, Flatten(tc), none, Flatten(joined), Flatten(out));
  }

  /** Main result: for every edge list, in any partitions, the loop ends, and tc holds each pair
      once. Only the first count can mislead it: with first as the outcome of the first round, tc is
      exactly the transitive closure if and only if that count differs from the number of edges or
      first is closed already. A duplicate-free edge list is never misled. */
  method Run<V(==, !new)>(graph: seq<seq<(V, V)>>, none: V, h: V -> int, h2: ((V, V)) -> int, n: int)
    returns (tc: seq<seq<(V, V)>>, ghost first: seq<(V, V)>)
    requires n > 0
    ensures NoDup(Flatten(tc))
    ensures IsRound(Flatten(graph), Flatten(graph), first)
    ensures IsClosure(Flatten(graph), Flatten(tc)) <==> |first| != |Flatten(graph)| || Closed(Flatten(graph), first)
    ensures NoDup(Flatten(graph)) ==> IsClosure(Flatten(graph), Flatten(tc))
  {
    ghost var original := Flatten(graph);
    ghost var vs := Vertices(original);
    var edges := MapParts(Swap, graph);
    FlattenMap(Swap<V>, graph);
    forall i | 0 <= i < |original|
      ensures original[i].0 in vs && original[i].1 in vs
    {
      Endpoints(original, original[i].0, original[i].1);
    }
    forall x, z | (x, z) in original
      ensures Connected(original, x, z)
    {
      assert Path(original, 1, x, z);
    }
    tc := graph;
    var nextCount := |Flatten(tc)|;
    ghost var rounds := 0;
    first := [];
    while true
      invariant rounds >= 0 && nextCount == |Flatten(tc)|
      invariant Within(Flatten(tc), vs)
      invariant forall p :: p in original ==> p in Flatten(tc)
      invariant forall x, z :: (x, z) in Flatten(tc) ==> Connected(original, x, z)
      invariant rounds == 0 ==> Flatten(tc) == original
      invariant rounds > 0 ==> NoDup(Flatten(tc)) && nextCount <= |Product(vs, vs)|
      invariant rounds > 0 ==> IsRound(original, original, first) && |first| != |original|
      decreases if rounds == 0 then 1 else 0, if rounds == 0 then 0 else |Product(vs, vs)| - nextCount
    {
      var oldCount := nextCount;
      ghost var before := Flatten(tc);
      tc := Round(tc, edges, original, none, h, h2, n);
      nextCount := |Flatten(tc)|;
      RoundSound(original, before, Flatten(tc));
      RoundWithin(original, before, Flatten(tc), vs);
      RoundGrows(original, before, Flatten(tc));
      CountBound(Flatten(tc), vs);
      if rounds == 0 {
        first := Flatten(tc);
      }
      if NoDup(before) {
        SameCountIsClosed(original, before, Flatten(tc));
      }
      if nextCount == oldCount {
        ClosedIsClosure(original, Flatten(tc));
        if NoDup(before) {
          ExitIsClosure(original, before, Flatten(tc));
        }
        break;
      }
      rounds := rounds + 1;
    }
  }

  const REPEATED: seq<(int, int)> := [(1, 2), (2, 3), (3, 4), (1, 2), (1, 2)]

  const AFTER_ONE_ROUND: seq<(int, int)> := [(1, 2), (2, 3), (3, 4), (1, 3), (2, 4)]

  lemma RepeatedEdges(x: int, z: int)
    ensures (x, z) in REPEATED <==> (x == 1 && z == 2) || (x == 2 && z == 3) || (x == 3 && z == 4)
  {
    assert REPEATED[0] == (1, 2) && REPEATED[1] == (2, 3) && REPEATED[2] == (3, 4);
  }

  lemma RepeatedRound(x: int, z: int)
    ensures (x, z) in AFTER_ONE_ROUND <==>
            (x, z) in REPEATED || exists y :: (x, y) in REPEATED && (y, z) in REPEATED
  {
    RepeatedEdges(x, z);
    forall y
      ensures (x, y) in REPEATED <==> (x == 1 && y == 2) || (x == 2 && y == 3) || (x == 3 && y == 4)
      ensures (y, z) in REPEATED <==> (y == 1 && z == 2) || (y == 2 && z == 3) || (y == 3 && z == 4)
    {
      RepeatedEdges(x, y);
      RepeatedEdges(y, z);
    }
    var r := AFTER_ONE_ROUND;
    assert r[0] == (1, 2) && r[1] == (2, 3) && r[2] == (3, 4) && r[3] == (1, 3) && r[4] == (2, 4);
    assert (1, 2) in REPEATED && (2, 3) in REPEATED && (3, 4) in REPEATED;
  }

  lemma SamePairs<V(!new)>(s: seq<(V, V)>, t: seq<(V, V)>)
    requires NoDup(s) && NoDup(t)
    requires forall x, z :: (x, z) in s <==> (x, z) in t
    ensures |s| == |t|
  {
    hide NoDup;
    assert forall p :: p in s ==> (p.0, p.1) in t;
    assert forall p :: p in t ==> (p.0, p.1) in s;
    NoDupSubset(s, t);
    NoDupSubset(t, s);
  }

  /** The condition is not idle: with a repeated edge, the count test can hold by coincidence after
      one round, before the closure is reached. */
  lemma DuplicatesStopEarly(out: seq<(int, int)>)
    requires IsRound(REPEATED, REPEATED, out)
    ensures |out| == |REPEATED|
    ensures (1, 4) !in out && Connected(REPEATED, 1, 4)
  {
    hide Connected, Path;
    forall x, z
      ensures (x, z) in AFTER_ONE_ROUND <==> (x, z) in out
    {
      RepeatedRound(x, z);
    }
    SamePairs(AFTER_ONE_ROUND, out);
    OneReachesFour();
  }

  lemma OneReachesFour()
    ensures Connected(REPEATED, 1, 4)
  {
    RepeatedEdges(1, 2);
    RepeatedEdges(2, 3);
    RepeatedEdges(3, 4);
    assert Path(REPEATED, 1, 3, 4);
    Prepend(REPEATED, 2, 3, 4);
    Prepend(REPEATED, 1, 2, 4);
  }
}
