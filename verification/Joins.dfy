/** join.py: joins by tagging, union, grouping and dispatch, and the set operations of rdd.py
    that rest on `cogroup`. Values are one type X, as in the dynamically typed original, and
    `none` is the value Python writes into a missing side. */
module Joins {
  import opened Seqs
  import opened Shuffle
  import opened Keyed

  datatype Kind = Inner | LeftOuter | RightOuter

  function TagOne<K, X>(p: (K, X)): (K, (int, X)) { (p.0, (1, p.1)) }
  function TagTwo<K, X>(p: (K, X)): (K, (int, X)) { (p.0, (2, p.1)) }

  /** The values of s under one tag, in order. */
  function Side<X>(tag: int, s: seq<(int, X)>): seq<X>
  {
    if s == [] then []
    else
      var before := Side(tag, s[..|s| - 1]);
      if s[|s| - 1].0 == tag then before + [s[|s| - 1].1] else before
  }

  /** `[(v, w) for v in vs for w in ws]` */
  function Product<A, B>(vs: seq<A>, ws: seq<B>): seq<(A, B)>
  {
    if vs == [] then []
    else Product(vs[..|vs| - 1], ws) + seq(|ws|, i requires 0 <= i < |ws| => (vs[|vs| - 1], ws[i]))
  }

  function OrNone<X>(fill: bool, xs: seq<X>, none: X): seq<X>
  {
    if fill && xs == [] then [none] else xs
  }

  function DispatchOf<X>(kind: Kind, s: seq<(int, X)>, none: X): seq<(X, X)>
  {
    Product(OrNone(kind.RightOuter?, Side(1, s), none), OrNone(kind.LeftOuter?, Side(2, s), none))
  }

  /** The buffering loop that the four dispatch functions share. */
  method Buffer<X>(s: seq<(int, X)>) returns (vbuf: seq<X>, wbuf: seq<X>)
    ensures vbuf == Side(1, s) && wbuf == Side(2, s)
  {
    vbuf, wbuf := [], [];
    for i := 0 to |s|
      invariant vbuf == Side(1, s[..i]) && wbuf == Side(2, s[..i])
    {
      var (n, v) := s[i];
      assert s[..i + 1][..i] == s[..i];
      if n == 1 {
        vbuf := vbuf + [v];
      } else if n == 2 {
        wbuf := wbuf + [v];
      }
    }
    assert s[..|s|] == s;
  }

  method Dispatch<X>(kind: Kind, s: seq<(int, X)>, none: X) returns (pairs: seq<(X, X)>)
    ensures pairs == DispatchOf(kind, s, none)
  {
    var vbuf, wbuf := Buffer(s);
    if kind.RightOuter? && vbuf == [] {
      vbuf := vbuf + [none];
      assert vbuf == [none];
    }
    if kind.LeftOuter? && wbuf == [] {
      wbuf := wbuf + [none];
      assert wbuf == [none];
    }
    pairs := Product(vbuf, wbuf);
  }

  // ---------- Counting ----------

  /** Multiplication of multiplicities by name, so that proofs can hide it. */
  function Times(a: int, b: int): int { a * b }

  lemma TimesFacts(a: nat, b: nat, c: nat)
    ensures Times(a + b, c) == Times(a, c) + Times(b, c)
    ensures Times(c, a + b) == Times(c, a) + Times(c, b)
    ensures Times(0, c) == Times(c, 0) == 0 && Times(1, c) == Times(c, 1) == c
    ensures Times(a, c) >= 0
    ensures Times(a, c) > 0 <==> a > 0 && c > 0
  {
    if a > 0 && c > 0 {
      assert a * c >= 1 * c;
    }
  }

  lemma {:induction false} SideCount<X>(tag: int, s: seq<(int, X)>, x: X)
    ensures multiset(Side(tag, s))[x] == multiset(s)[(tag, x)]
  {
    if s != [] {
      SideCount(tag, s[..|s| - 1], x);
      DropLast(s);
    }
  }

  lemma {:induction false} RowCount<A, B>(a: A, ws: seq<B>, v: A, w: B)
    ensures multiset(seq(|ws|, i requires 0 <= i < |ws| => (a, ws[i])))[(v, w)]
         == if a == v then multiset(ws)[w] else 0
  {
    var row := seq(|ws|, i requires 0 <= i < |ws| => (a, ws[i]));
    if ws != [] {
      var n := |ws| - 1;
      RowCount(a, ws[..n], v, w);
      assert row[..n] == seq(|ws[..n]|, i requires 0 <= i < |ws[..n]| => (a, ws[..n][i]));
      DropLast(row);
      DropLast(ws);
    }
  }

  lemma {:induction false} ProductCount<A, B>(vs: seq<A>, ws: seq<B>, v: A, w: B)
    ensures multiset(Product(vs, ws))[(v, w)] == Times(multiset(vs)[v], multiset(ws)[w])
  {
    hide Times;
    if vs != [] {
      var n := |vs| - 1;
      ProductCount(vs[..n], ws, v, w);
      RowCount(vs[n], ws, v, w);
      DropLast(vs);
      TimesFacts(multiset(vs[..n])[v], if vs[n] == v then 1 else 0, multiset(ws)[w]);
    } else {
      TimesFacts(0, 0, multiset(ws)[w]);
    }
  }

  lemma ProductOfOne<A, B>(v: A, ws: seq<B>)
    ensures |Product([v], ws)| == |ws| && forall j :: 0 <= j < |ws| ==> Product([v], ws)[j] == (v, ws[j])
  {
    assert [v][..0] == [];
  }

  lemma ProductSnoc<A, B>(vs: seq<A>, v: A, ws: seq<B>)
    ensures Product(vs + [v], ws) == Product(vs, ws) + Product([v], ws)
  {
    ProductOfOne(v, ws);
    assert (vs + [v])[..|vs|] == vs;
    assert Product([v], ws) == seq(|ws|, i requires 0 <= i < |ws| => (v, ws[i]));
  }

  lemma ProductOfNone<A, B>(ws: seq<B>)
    ensures Product<A, B>([], ws) == []
  {
  }

  lemma Reassociate<T>(a: seq<T>, b: seq<T>, c: seq<T>)
    ensures (a + b) + c == a + (b + c)
  {
  }

  /** The product runs through ws for each value on the left in turn. */
  lemma {:induction false} ProductOrder<A, B>(us: seq<A>, vs: seq<A>, ws: seq<B>)
    ensures Product(us + vs, ws) == Product(us, ws) + Product(vs, ws)
  {
    hide Product;
    if vs == [] {
      ProductOfNone<A, B>(ws);
      assert us + vs == us;
      assert Product(us, ws) + [] == Product(us, ws);
    } else {
      var init, v := vs[..|vs| - 1], vs[|vs| - 1];
      assert init + [v] == vs;
      ProductOrder(us, init, ws);
      ProductSnoc(us + init, v, ws);
      ProductSnoc(init, v, ws);
      Reassociate(us, init, [v]);
      Reassociate(Product(us, ws), Product(init, ws), Product([v], ws));
    }
  }

  /** How often a join must produce (k, (v, w)): multiplicities multiply, and a missing side is
      replaced by one `none` where the kind of join keeps the other side. */
  ghost function JoinCount<K, X>(kind: Kind, left: seq<(K, X)>, right: seq<(K, X)>, none: X, k: K, v: X, w: X): int
  {
    var l, r := multiset(left)[(k, v)], multiset(right)[(k, w)];
    match kind
    case Inner => Times(l, r)
    case LeftOuter => Times(l, r + if w == none && !HasKey(right, k) then 1 else 0)
    case RightOuter => Times(l + if v == none && !HasKey(left, k) then 1 else 0, r)
  }

  ghost predicate IsJoin<K(!new), X(!new)>(kind: Kind, left: seq<(K, X)>, right: seq<(K, X)>, none: X, out: seq<(K, (X, X))>)
  {
    forall k, v, w :: multiset(out)[(k, (v, w))] == JoinCount(kind, left, right, none, k, v, w)
  }

  lemma TagCount<K(!new), X(!new)>(s: seq<(K, X)>, k: K, x: X)
    ensures multiset(Map(TagOne, s))[(k, (1, x))] == multiset(s)[(k, x)]
    ensures multiset(Map(TagTwo, s))[(k, (2, x))] == multiset(s)[(k, x)]
    ensures multiset(Map(TagOne, s))[(k, (2, x))] == multiset(Map(TagTwo, s))[(k, (1, x))] == 0
  {
    MapCount(TagOne, s, (k, x));
    MapCount(TagTwo, s, (k, x));
    MapMiss(TagOne, s, (k, (2, x)));
    MapMiss(TagTwo, s, (k, (1, x)));
  }

  function Tagged<K, X>(left: seq<(K, X)>, right: seq<(K, X)>): seq<(K, (int, X))>
  {
    Map(TagOne, left) + Map(TagTwo, right)
  }

  /** The two sides of key k's group are the values that each input pairs with k. */
  lemma GroupSides<K(!new), X(!new)>(left: seq<(K, X)>, right: seq<(K, X)>, k: K, vals: seq<(int, X)>, x: X)
    requires multiset(vals) == multiset(ValuesOf(k, Tagged(left, right)))
    ensures multiset(Side(1, vals))[x] == multiset(left)[(k, x)]
    ensures multiset(Side(2, vals))[x] == multiset(right)[(k, x)]
  {
    SideCount(1, vals, x);
    SideCount(2, vals, x);
    ValuesCount(k, Tagged(left, right), (1, x));
    ValuesCount(k, Tagged(left, right), (2, x));
    TagCount(left, k, x);
    TagCount(right, k, x);
  }

  /** A side is empty exactly when that input lacks the key. */
  lemma EmptySide<K(!new), X(!new)>(left: seq<(K, X)>, right: seq<(K, X)>, k: K, vals: seq<(int, X)>)
    requires multiset(vals) == multiset(ValuesOf(k, Tagged(left, right)))
    ensures Side(1, vals) == [] <==> !HasKey(left, k)
    ensures Side(2, vals) == [] <==> !HasKey(right, k)
  {
    forall x
      ensures x in Side(1, vals) <==> (k, x) in left
      ensures x in Side(2, vals) <==> (k, x) in right
    {
      GroupSides(left, right, k, vals, x);
      assert x in Side(1, vals) <==> x in multiset(Side(1, vals));
      assert (k, x) in left <==> (k, x) in multiset(left);
      assert x in Side(2, vals) <==> x in multiset(Side(2, vals));
      assert (k, x) in right <==> (k, x) in multiset(right);
    }
    KeyWitness(left, k, Side(1, vals));
    KeyWitness(right, k, Side(2, vals));
  }

  lemma KeyWitness<K, X(!new)>(s: seq<(K, X)>, k: K, side: seq<X>)
    requires forall x :: x in side <==> (k, x) in s
    ensures side == [] <==> !HasKey(s, k)
  {
    if HasKey(s, k) {
      var i :| 0 <= i < |s| && s[i].0 == k;
      assert (k, s[i].1) in s;
    }
    if side != [] {
      assert side[0] in side;
      var i :| 0 <= i < |s| && s[i] == (k, side[0]);
    }
  }

  lemma GroupJoinCount<K(!new), X(!new)>(kind: Kind, left: seq<(K, X)>, right: seq<(K, X)>, none: X, k: K, vals: seq<(int, X)>, v: X, w: X)
    requires multiset(vals) == multiset(ValuesOf(k, Tagged(left, right)))
    ensures multiset(DispatchOf(kind, vals, none))[(v, w)] == JoinCount(kind, left, right, none, k, v, w)
  {
    hide Times, Product, Side, ValuesOf;
    var vs := OrNone(kind.RightOuter?, Side(1, vals), none);
    var ws := OrNone(kind.LeftOuter?, Side(2, vals), none);
    ProductCount(vs, ws, v, w);
    GroupSides(left, right, k, vals, v);
    GroupSides(left, right, k, vals, w);
    EmptySide(left, right, k, vals);
    assert multiset([none])[v] == if v == none then 1 else 0;
    assert multiset([none])[w] == if w == none then 1 else 0;
  }

  // ---------- flatMapValues(dispatch) ----------

  function WithKey<K, V>(k: K, vs: seq<V>): seq<(K, V)>
  {
    seq(|vs|, i requires 0 <= i < |vs| => (k, vs[i]))
  }

  function JoinRows<K, X>(kind: Kind, groups: seq<(K, seq<(int, X)>)>, none: X): seq<(K, (X, X))>
  {
    if groups == [] then []
    else
      var (k, vals) := groups[|groups| - 1];
      JoinRows(kind, groups[..|groups| - 1], none) + WithKey(k, DispatchOf(kind, vals, none))
  }

  lemma {:induction false} JoinRowsConcat<K, X>(kind: Kind, a: seq<(K, seq<(int, X)>)>, b: seq<(K, seq<(int, X)>)>, none: X)
    ensures JoinRows(kind, a + b, none) == JoinRows(kind, a, none) + JoinRows(kind, b, none)
  {
    if b == [] {
      assert a + b == a;
    } else {
      var init, last := b[..|b| - 1], b[|b| - 1];
      var rows := WithKey(last.0, DispatchOf(kind, last.1, none));
      assert (a + b)[..|a + b| - 1] == a + init && (a + b)[|a + b| - 1] == last;
      JoinRowsConcat(kind, a, init, none);
      assert (JoinRows(kind, a, none) + JoinRows(kind, init, none)) + rows
          == JoinRows(kind, a, none) + (JoinRows(kind, init, none) + rows);
    }
  }

  lemma {:induction false} RowsOfOtherKeys<K, X>(kind: Kind, groups: seq<(K, seq<(int, X)>)>, none: X, k: K, p: (X, X))
    requires forall i :: 0 <= i < |groups| ==> groups[i].0 != k
    ensures multiset(JoinRows(kind, groups, none))[(k, p)] == 0
  {
    if groups != [] {
      var (j, vals) := groups[|groups| - 1];
      RowsOfOtherKeys(kind, groups[..|groups| - 1], none, k, p);
      RowCount(j, DispatchOf(kind, vals, none), k, p);
    }
  }

  lemma {:induction false} RowsOfKey<K, X>(kind: Kind, groups: seq<(K, seq<(int, X)>)>, none: X, g: nat, p: (X, X))
    requires UniqueKeys(groups) && g < |groups|
    ensures multiset(JoinRows(kind, groups, none))[(groups[g].0, p)]
         == multiset(DispatchOf(kind, groups[g].1, none))[p]
  {
    hide DispatchOf;
    var n := |groups| - 1;
    var k := groups[g].0;
    RowCount(groups[n].0, DispatchOf(kind, groups[n].1, none), k, p);
    if g == n {
      RowsOfOtherKeys(kind, groups[..n], none, k, p);
    } else {
      RowsOfKey(kind, groups[..n], none, g, p);
    }
  }

  /** Main result: whatever order the groups and their values arrive in, the rows are the
      relational join, with its multiplicities. */
  lemma JoinCorrect<K(!new), X(!new)>(kind: Kind, left: seq<(K, X)>, right: seq<(K, X)>, none: X, groups: seq<(K, seq<(int, X)>)>)
    requires Grouped(Tagged(left, right), groups)
    ensures IsJoin(kind, left, right, none, JoinRows(kind, groups, none))
  {
    forall k, v, w
      ensures multiset(JoinRows(kind, groups, none))[(k, (v, w))] == JoinCount(kind, left, right, none, k, v, w)
    {
      if HasKey(groups, k) {
        var g :| 0 <= g < |groups| && groups[g].0 == k;
        RowsOfKey(kind, groups, none, g, (v, w));
        GroupJoinCount(kind, left, right, none, k, groups[g].1, v, w);
      } else {
        RowsOfOtherKeys(kind, groups, none, k, (v, w));
        assert !HasKey(Tagged(left, right), k);
        NoValues(k, Tagged(left, right));
        GroupJoinCount(kind, left, right, none, k, [], v, w);
        assert DispatchOf(kind, [], none) == [] || kind != Inner;
        AbsentKey(left, right, k);
      }
    }
  }

  /** A key of neither input has no rows. */
  lemma AbsentKey<K, X>(left: seq<(K, X)>, right: seq<(K, X)>, k: K)
    requires !HasKey(Tagged(left, right), k)
    ensures forall x :: multiset(left)[(k, x)] == 0 && multiset(right)[(k, x)] == 0
    ensures !HasKey(left, k) && !HasKey(right, k)
  {
    var t := Tagged(left, right);
    assert forall i :: 0 <= i < |left| ==> t[i].0 == left[i].0;
    assert forall i :: 0 <= i < |right| ==> t[|left| + i].0 == right[i].0;
    forall x
      ensures (k, x) !in multiset(left) && (k, x) !in multiset(right)
    {
      assert (k, x) !in left && (k, x) !in right;
    }
  }

  /** The map-side half of every join: tag both inputs and take the union of their partitions. */
  function TaggedUnion<K, X>(rdd: seq<seq<(K, X)>>, other: seq<seq<(K, X)>>): (r: seq<seq<(K, (int, X))>>)
    ensures Flatten(r) == Tagged(Flatten(rdd), Flatten(other))
  {
    FlattenMap(TagOne<K, X>, rdd);
    FlattenMap(TagTwo<K, X>, other);
    FlattenConcat(MapParts(TagOne, rdd), MapParts(TagTwo, other));
    MapParts(TagOne, rdd) + MapParts(TagTwo, other)
  }

  method Join<K(==, !new), X(==, !new)>(kind: Kind, rdd: seq<seq<(K, X)>>, other: seq<seq<(K, X)>>, none: X, h: K -> int, n: int)
    returns (out: seq<seq<(K, (X, X))>>)
    requires n > 0
    ensures |out| == n
    ensures IsJoin(kind, Flatten(rdd), Flatten(other), none, Flatten(out))
  {
    var groups := GroupByKey(TaggedUnion(rdd, other), h, n);
    out := [];
    for r := 0 to n
      invariant |out| == r
      invariant Flatten(out) == JoinRows(kind, Flatten(groups[..r]), none)
    {
      var rows: seq<(K, (X, X))> := [];
      for i := 0 to |groups[r]|
        invariant rows == JoinRows(kind, groups[r][..i], none)
      {
        var (k, vals) := groups[r][i];
        assert groups[r][..i + 1][..i] == groups[r][..i];
        var pairs := Dispatch(kind, vals, none);
        rows := rows + WithKey(k, pairs);
      }
      assert groups[r][..|groups[r]|] == groups[r];
      FlattenConcat(out, [rows]);
      FlattenOne(rows);
      FlattenSnoc(groups, r);
      JoinRowsConcat(kind, Flatten(groups[..r]), groups[r], none);
      out := out + [rows];
    }
    assert groups[..n] == groups;
    JoinCorrect(kind, Flatten(rdd), Flatten(other), none, Flatten(groups));
  }

  // ---------- cogroup and what rests on it ----------

  /** Each key of either input once, with its values on both sides. */
  ghost predicate IsCogroup<K(!new), X>(left: seq<(K, X)>, right: seq<(K, X)>, out: seq<(K, (seq<X>, seq<X>))>)
  {
    && UniqueKeys(out)
    && (forall k :: HasKey(out, k) <==> HasKey(left, k) || HasKey(right, k))
    && (forall i :: 0 <= i < |out| ==>
          && multiset(out[i].1.0) == multiset(ValuesOf(out[i].0, left))
          && multiset(out[i].1.1) == multiset(ValuesOf(out[i].0, right)))
  }

  function Sides<K, X>(g: (K, seq<(int, X)>)): (K, (seq<X>, seq<X>))
  {
    (g.0, (Side(1, g.1), Side(2, g.1)))
  }

  lemma CogroupCorrect<K(!new), X(!new)>(left: seq<(K, X)>, right: seq<(K, X)>, groups: seq<(K, seq<(int, X)>)>)
    requires Grouped(Tagged(left, right), groups)
    ensures IsCogroup(left, right, Map(Sides, groups))
  {
    var out := Map(Sides, groups);
    forall k
      ensures HasKey(out, k) <==> HasKey(left, k) || HasKey(right, k)
    {
      TaggedKeys(left, right, k);
      if HasKey(groups, k) {
        var g :| 0 <= g < |groups| && groups[g].0 == k;
        assert out[g].0 == k;
      }
      if HasKey(out, k) {
        var g :| 0 <= g < |out| && out[g].0 == k;
        assert groups[g].0 == k;
      }
    }
    forall i | 0 <= i < |out|
      ensures multiset(out[i].1.0) == multiset(ValuesOf(out[i].0, left))
      ensures multiset(out[i].1.1) == multiset(ValuesOf(out[i].0, right))
    {
      forall x
        ensures multiset(out[i].1.0)[x] == multiset(ValuesOf(out[i].0, left))[x]
        ensures multiset(out[i].1.1)[x] == multiset(ValuesOf(out[i].0, right))[x]
      {
        GroupSides(left, right, groups[i].0, groups[i].1, x);
        ValuesCount(groups[i].0, left, x);
        ValuesCount(groups[i].0, right, x);
      }
    }
  }

  lemma TaggedKeys<K, X>(left: seq<(K, X)>, right: seq<(K, X)>, k: K)
    ensures HasKey(Tagged(left, right), k) <==> HasKey(left, k) || HasKey(right, k)
  {
    var t := Tagged(left, right);
    if HasKey(left, k) {
      var i :| 0 <= i < |left| && left[i].0 == k;
      assert t[i].0 == k;
    }
    if HasKey(right, k) {
      var i :| 0 <= i < |right| && right[i].0 == k;
      assert t[|left| + i].0 == k;
    }
    if HasKey(t, k) {
      var i :| 0 <= i < |t| && t[i].0 == k;
      assert if i < |left| then left[i].0 == k else right[i - |left|].0 == k;
    }
  }

  method Cogroup<K(==, !new), X(==, !new)>(rdd: seq<seq<(K, X)>>, other: seq<seq<(K, X)>>, h: K -> int, n: int)
    returns (out: seq<seq<(K, (seq<X>, seq<X>))>>)
    requires n > 0
    ensures |out| == n
    ensures IsCogroup(Flatten(rdd), Flatten(other), Flatten(out))
  {
    var groups := GroupByKey(TaggedUnion(rdd, other), h, n);
    out := MapParts(Sides, groups);
    FlattenMap(Sides<K, X>, groups);
    CogroupCorrect(Flatten(rdd), Flatten(other), Flatten(groups));
  }

  /** What one cogrouped row leaves after the filter and the flatMap. */
  function Kept<K, X>(row: (K, (seq<X>, seq<X>))): seq<(K, X)>
  {
    if |row.1.0| > 0 && |row.1.1| == 0 then WithKey(row.0, row.1.0) else []
  }

  /** `.filter(vals[0] and not vals[1]).flatMap((key, val) for val in vals[0])` */
  function OnlyLeft<K, X>(cogrouped: seq<(K, (seq<X>, seq<X>))>): seq<(K, X)>
  {
    if cogrouped == [] then []
    else
      OnlyLeft(cogrouped[..|cogrouped| - 1]) + Kept(cogrouped[|cogrouped| - 1])
  }

  lemma KeptCount<K, X>(row: (K, (seq<X>, seq<X>)), k: K, x: X)
    ensures multiset(Kept(row))[(k, x)] == if row.0 == k && row.1.1 == [] then multiset(row.1.0)[x] else 0
  {
    RowCount(row.0, row.1.0, k, x);
  }

  lemma OnlyLeftSnoc<K, X>(cg: seq<(K, (seq<X>, seq<X>))>, k: K, x: X)
    requires cg != []
    ensures var last := cg[|cg| - 1];
      multiset(OnlyLeft(cg))[(k, x)] == multiset(OnlyLeft(cg[..|cg| - 1]))[(k, x)]
                                      + if last.0 == k && last.1.1 == [] then multiset(last.1.0)[x] else 0
  {
    KeptCount(cg[|cg| - 1], k, x);
    hide Kept;
  }

  lemma {:induction false} OnlyLeftOfOtherKeys<K, X>(cg: seq<(K, (seq<X>, seq<X>))>, k: K, x: X)
    requires forall i :: 0 <= i < |cg| ==> cg[i].0 != k
    ensures multiset(OnlyLeft(cg))[(k, x)] == 0
  {
    if cg != [] {
      OnlyLeftSnoc(cg, k, x);
      OnlyLeftOfOtherKeys(cg[..|cg| - 1], k, x);
    }
  }

  lemma {:induction false} OnlyLeftOfKey<K, X>(cg: seq<(K, (seq<X>, seq<X>))>, g: nat, x: X)
    requires UniqueKeys(cg) && g < |cg|
    ensures multiset(OnlyLeft(cg))[(cg[g].0, x)] == if cg[g].1.1 == [] then multiset(cg[g].1.0)[x] else 0
  {
    hide OnlyLeft;
    var n := |cg| - 1;
    OnlyLeftSnoc(cg, cg[g].0, x);
    if g == n {
      OnlyLeftOfOtherKeys(cg[..n], cg[g].0, x);
    } else {
      OnlyLeftOfKey(cg[..n], g, x);
    }
  }

  /** subtractByKey keeps every pair, with its multiplicity, whose key the other side lacks. */
  lemma SubtractByKeyCorrect<K(!new), X(!new)>(left: seq<(K, X)>, right: seq<(K, X)>, cg: seq<(K, (seq<X>, seq<X>))>, k: K, x: X)
    requires IsCogroup(left, right, cg)
    ensures multiset(OnlyLeft(cg))[(k, x)] == if HasKey(right, k) then 0 else multiset(left)[(k, x)]
  {
    ValuesCount(k, left, x);
    NoValues(k, right);
    NoValues(k, left);
    if HasKey(cg, k) {
      var i :| 0 <= i < |cg| && cg[i].0 == k;
      OnlyLeftOfKey(cg, i, x);
      assert cg[i].1.1 == [] <==> |multiset(cg[i].1.1)| == 0;
      assert ValuesOf(k, right) == [] <==> |multiset(ValuesOf(k, right))| == 0;
    } else {
      OnlyLeftOfOtherKeys(cg, k, x);
    }
  }

  /** `.filter(both sides non-empty).keys()` */
  function BothKeys<K, X>(cogrouped: seq<(K, (seq<X>, seq<X>))>): seq<K>
  {
    if cogrouped == [] then []
    else
      var (k, (vs, ws)) := cogrouped[|cogrouped| - 1];
      BothKeys(cogrouped[..|cogrouped| - 1]) + if |vs| != 0 && |ws| != 0 then [k] else []
  }

  ghost predicate OnBothSides<K, X>(cg: seq<(K, (seq<X>, seq<X>))>, k: K)
  {
    exists i :: 0 <= i < |cg| && cg[i].0 == k && cg[i].1.0 != [] && cg[i].1.1 != []
  }

  lemma {:induction false} BothKeysMembers<K(!new), X>(cg: seq<(K, (seq<X>, seq<X>))>)
    requires UniqueKeys(cg)
    ensures NoDup(BothKeys(cg))
    ensures forall k :: k in BothKeys(cg) <==> OnBothSides(cg, k)
  {
    if cg != [] {
      var n := |cg| - 1;
      var init := cg[..n];
      BothKeysMembers(init);
      forall k | OnBothSides(init, k)
        ensures k != cg[n].0 && OnBothSides(cg, k)
      {
        var i :| 0 <= i < |init| && init[i].0 == k && init[i].1.0 != [] && init[i].1.1 != [];
        assert cg[i] == init[i];
      }
      forall k | OnBothSides(cg, k) && k != cg[n].0
        ensures OnBothSides(init, k)
      {
        var i :| 0 <= i < |cg| && cg[i].0 == k && cg[i].1.0 != [] && cg[i].1.1 != [];
        assert init[i] == cg[i];
      }
      assert forall i :: 0 <= i < |BothKeys(init)| ==> BothKeys(init)[i] in BothKeys(init);
    }
  }

  /** intersection holds each common value exactly once, whatever duplicates the inputs had. */
  lemma IntersectionCorrect<T(!new)>(a: seq<T>, b: seq<T>, cg: seq<(T, (seq<()>, seq<()>))>)
    requires IsCogroup(Map(WithNone, a), Map(WithNone, b), cg)
    ensures NoDup(BothKeys(cg))
    ensures forall x :: x in BothKeys(cg) <==> x in a && x in b
  {
    BothKeysMembers(cg);
    forall x
      ensures x in BothKeys(cg) <==> x in a && x in b
    {
      WithNoneMember(a, x);
      WithNoneMember(b, x);
      NoValues(x, Map(WithNone, a));
      NoValues(x, Map(WithNone, b));
      forall i | 0 <= i < |cg| && cg[i].0 == x
        ensures cg[i].1.0 != [] <==> x in a
        ensures cg[i].1.1 != [] <==> x in b
      {
        assert cg[i].1.0 == [] <==> |multiset(cg[i].1.0)| == 0;
        assert cg[i].1.1 == [] <==> |multiset(cg[i].1.1)| == 0;
        assert ValuesOf(x, Map(WithNone, a)) == [] <==> |multiset(ValuesOf(x, Map(WithNone, a)))| == 0;
        assert ValuesOf(x, Map(WithNone, b)) == [] <==> |multiset(ValuesOf(x, Map(WithNone, b)))| == 0;
      }
      if x in a && x in b {
        assert HasKey(cg, x);
        var i :| 0 <= i < |cg| && cg[i].0 == x;
      }
    }
  }

  lemma WithNoneMember<T>(a: seq<T>, x: T)
    ensures HasKey(Map(WithNone, a), x) <==> x in a
  {
    if x in a {
      var i :| 0 <= i < |a| && a[i] == x;
      assert Map(WithNone, a)[i].0 == x;
    }
  }

  method SubtractByKey<K(==, !new), X(==, !new)>(rdd: seq<seq<(K, X)>>, other: seq<seq<(K, X)>>, h: K -> int, n: int)
    returns (out: seq<seq<(K, X)>>)
    requires n > 0
    ensures forall k, x :: multiset(Flatten(out))[(k, x)]
                        == if HasKey(Flatten(other), k) then 0 else multiset(Flatten(rdd))[(k, x)]
  {
    var cogrouped := Cogroup(rdd, other, h, n);
    out := [];
    for r := 0 to n
      invariant |out| == r
      invariant forall k, x :: multiset(Flatten(out))[(k, x)] == multiset(OnlyLeft(Flatten(cogrouped[..r])))[(k, x)]
    {
      var kept := OnlyLeft(cogrouped[r]);
      FlattenConcat(out, [kept]);
      FlattenOne(kept);
      FlattenSnoc(cogrouped, r);
      OnlyLeftConcat(Flatten(cogrouped[..r]), cogrouped[r]);
      out := out + [kept];
    }
    assert cogrouped[..n] == cogrouped;
    forall k, x
      ensures multiset(Flatten(out))[(k, x)] == if HasKey(Flatten(other), k) then 0 else multiset(Flatten(rdd))[(k, x)]
    {
      SubtractByKeyCorrect(Flatten(rdd), Flatten(other), Flatten(cogrouped), k, x);
    }
  }

  lemma {:induction false} OnlyLeftConcat<K, X>(a: seq<(K, (seq<X>, seq<X>))>, b: seq<(K, (seq<X>, seq<X>))>)
    ensures OnlyLeft(a + b) == OnlyLeft(a) + OnlyLeft(b)
  {
    if b == [] {
      assert a + b == a;
    } else {
      var n := |b| - 1;
      assert (a + b)[..|a + b| - 1] == a + b[..n] && (a + b)[|a + b| - 1] == b[n];
      OnlyLeftConcat(a, b[..n]);
      Regroup(OnlyLeft(a), OnlyLeft(b[..n]), Kept(b[n]));
    }
  }

  lemma Regroup<T>(a: seq<T>, b: seq<T>, c: seq<T>)
    ensures (a + b) + c == a + (b + c)
  {
  }

  method Intersection<T(==, !new)>(rdd: seq<seq<T>>, other: seq<seq<T>>, h: T -> int, n: int) returns (out: seq<seq<T>>)
    requires n > 0
    ensures NoDup(Flatten(out))
    ensures forall x :: x in Flatten(out) <==> x in Flatten(rdd) && x in Flatten(other)
  {
    var cogrouped := Cogroup(MapParts(WithNone, rdd), MapParts(WithNone, other), h, n);
    FlattenMap(WithNone<T>, rdd);
    FlattenMap(WithNone<T>, other);
    out := [];
    for r := 0 to n
      invariant |out| == r
      invariant Flatten(out) == BothKeys(Flatten(cogrouped[..r]))
    {
      var common := BothKeys(cogrouped[r]);
      FlattenConcat(out, [common]);
      FlattenOne(common);
      FlattenSnoc(cogrouped, r);
      BothKeysConcat(Flatten(cogrouped[..r]), cogrouped[r]);
      out := out + [common];
    }
    assert cogrouped[..n] == cogrouped;
    IntersectionCorrect(Flatten(rdd), Flatten(other), Flatten(cogrouped));
  }

  lemma {:induction false} BothKeysConcat<K, X>(a: seq<(K, (seq<X>, seq<X>))>, b: seq<(K, (seq<X>, seq<X>))>)
    ensures BothKeys(a + b) == BothKeys(a) + BothKeys(b)
  {
    if b == [] {
      assert a + b == a;
    } else {
      var n := |b| - 1;
      assert (a + b)[..|a + b| - 1] == a + b[..n] && (a + b)[|a + b| - 1] == b[n];
      BothKeysConcat(a, b[..n]);
    }
  }
}
