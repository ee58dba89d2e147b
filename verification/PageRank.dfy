/** The PageRank example (pagerank.py) over exact reals: where the rank mass goes. */
module PageRank {
  import opened Reals
  import opened Seqs
  import opened Shuffle
  import opened Keyed
  import opened Joins

  /** Join values: the neighbours of a URL, a rank, or Python's None. */
  datatype Value<U> = Urls(urls: seq<U>) | Rank(rank: real) | Nothing

  type Link<U> = (U, seq<U>)

  function AsUrls<U>(link: Link<U>): (U, Value<U>) { (link.0, Urls(link.1)) }
  function AsRank<U>(r: (U, real)): (U, Value<U>) { (r.0, Rank(r.1)) }

  type Row<U> = (U, (Value<U>, Value<U>))

  /** `computeContribs` on one joined row. */
  function Contribs<U>(row: Row<U>): seq<(U, real)>
  {
    match row.1
    case (Urls(us), Rank(r)) => seq(|us|, i requires 0 <= i < |us| => (us[i], r / |us| as real))
    case _ => []
  }

  function RowRank<U>(row: Row<U>): real
  {
    match row.1
    case (Urls(_), Rank(r)) => r
    case _ => 0.0
  }

  /** `lambda rank: rank * 0.85 + 0.15` */
  function Damp<U>(r: (U, real)): (U, real) { (r.0, r.1 * 0.85 + 0.15) }

  // ---------- A row hands out its whole rank ----------

  function Spread<U>(us: seq<U>, share: real): seq<(U, real)>
  {
    seq(|us|, i requires 0 <= i < |us| => (us[i], share))
  }

  lemma {:induction false} SpreadSum<U>(us: seq<U>, share: real)
    ensures Sum(Map(Second, Spread(us, share))) == Mul(|us| as real, share)
  {
    hide Mul;
    if us == [] {
      MulOne(share);
    } else {
      var n := |us| - 1;
      SpreadSum(us[..n], share);
      assert Map(Second, Spread(us, share)) == Map(Second, Spread(us[..n], share)) + [share];
      SumSnoc(Map(Second, Spread(us[..n], share)), share);
      MulAdd(share, n as real, 1.0);
      MulOne(share);
    }
  }

  lemma Share(r: real, n: real)
    requires n > 0.0
    ensures Mul(n, r / n) == r
    ensures r >= 0.0 ==> r / n >= 0.0
  {
  }

  lemma ContribsSum<U>(row: Row<U>)
    requires row.1.0.Urls? && row.1.1.Rank? && row.1.0.urls != []
    ensures Sum(Map(Second, Contribs(row))) == RowRank(row)
  {
    var us, r := row.1.0.urls, row.1.1.rank;
    assert Contribs(row) == Spread(us, r / |us| as real);
    SpreadSum(us, r / |us| as real);
    Share(r, |us| as real);
  }

  lemma NoSum()
    ensures Sum([]) == 0.0
  {
  }

  lemma {:induction false} AllContribsSum<U>(rows: seq<Row<U>>)
    requires forall i :: 0 <= i < |rows| ==> rows[i].1.0.Urls? && rows[i].1.1.Rank? && rows[i].1.0.urls != []
    ensures Sum(Map(Second, FlatMap(Contribs, rows))) == Sum(Map(RowRank, rows))
  {
    hide Contribs, Sum;
    if rows == [] {
      assert FlatMap(Contribs, rows) == [];
      NoSum();
    } else {
      var n := |rows| - 1;
      var init, last := rows[..n], rows[n];
      AllContribsSum(init);
      ContribsSum(last);
      assert Map(Contribs, rows) == Map(Contribs, init) + [Contribs(last)];
      FlattenConcat(Map(Contribs, init), [Contribs(last)]);
      FlattenOne(Contribs(last));
      MapConcat(Second, FlatMap(Contribs, init), Contribs(last));
      SumConcat(Map(Second, FlatMap(Contribs, init)), Map(Second, Contribs(last)));
      assert Map(RowRank, rows) == Map(RowRank, init) + [RowRank(last)];
      SumSnoc(Map(RowRank, init), RowRank(last));
    }
  }

  // ---------- Which ranks are handed out ----------

  function LinkOf<U(==)>(links: seq<Link<U>>, u: U): Option<seq<U>>
  {
    if links == [] then None
    else if links[0].0 == u then Some(links[0].1)
    else LinkOf(links[1..], u)
  }

  /** The joined rows in the order of ranks. */
  function Linked<U(==)>(ranks: seq<(U, real)>, links: seq<Link<U>>): seq<Row<U>>
  {
    if ranks == [] then []
    else
      var (u, r) := ranks[|ranks| - 1];
      Linked(ranks[..|ranks| - 1], links) +
        match LinkOf(links, u) case None => [] case Some(us) => [(u, (Urls(us), Rank(r)))]
  }

  /** Total rank of the URLs that have out-links. */
  function LinkedMass<U(==)>(ranks: seq<(U, real)>, links: seq<Link<U>>): real
  {
    if ranks == [] then 0.0
    else
      var (u, r) := ranks[|ranks| - 1];
      LinkedMass(ranks[..|ranks| - 1], links) + if LinkOf(links, u).Some? then r else 0.0
  }

  lemma {:induction false} LinkedSum<U>(ranks: seq<(U, real)>, links: seq<Link<U>>)
    ensures Sum(Map(RowRank, Linked(ranks, links))) == LinkedMass(ranks, links)
  {
    if ranks != [] {
      var n := |ranks| - 1;
      var (u, r) := ranks[n];
      var init := Linked(ranks[..n], links);
      LinkedSum(ranks[..n], links);
      match LinkOf(links, u) {
        case None =>
          assert Linked(ranks, links) == init;
        case Some(us) =>
          var row: Row<U> := (u, (Urls(us), Rank(r)));
          assert Linked(ranks, links) == init + [row];
          assert Map(RowRank, init + [row]) == Map(RowRank, init) + [r];
          SumSnoc(Map(RowRank, init), r);
      }
    }
  }

  lemma {:induction false} NoLink<U>(links: seq<Link<U>>, u: U)
    ensures LinkOf(links, u).None? <==> forall i :: 0 <= i < |links| ==> links[i].0 != u
  {
    if links != [] {
      var rest := links[1..];
      NoLink(rest, u);
      assert forall i :: 0 <= i < |rest| ==> rest[i] == links[i + 1];
      if links[0].0 != u && LinkOf(rest, u).Some? {
        var i :| 0 <= i < |rest| && rest[i].0 == u;
        assert links[i + 1].0 == u;
      }
    }
  }

  lemma {:induction false} LinkCount<U(!new)>(links: seq<Link<U>>, u: U, v: Value<U>)
    requires UniqueKeys(links)
    ensures multiset(Map(AsUrls, links))[(u, v)] == if v.Urls? && LinkOf(links, u) == Some(v.urls) then 1 else 0
  {
    if links != [] {
      var rest := links[1..];
      LinkCount(rest, u, v);
      AddFront(AsUrls(links[0]), Map(AsUrls, rest), (u, v));
      assert Map(AsUrls, links) == [AsUrls(links[0])] + Map(AsUrls, rest);
      if links[0].0 == u {
        assert forall i :: 0 <= i < |rest| ==> rest[i].0 != u;
        NoLink(rest, u);
      }
    }
  }

  lemma AddFront<T>(x: T, s: seq<T>, y: T)
    ensures multiset([x] + s)[y] == multiset(s)[y] + if x == y then 1 else 0
  {
  }

  lemma AddBack<T>(s: seq<T>, x: T, y: T)
    ensures multiset(s + [x])[y] == multiset(s)[y] + if x == y then 1 else 0
  {
  }

  lemma {:induction false} LinkedCount<U(!new)>(ranks: seq<(U, real)>, links: seq<Link<U>>, u: U, v: Value<U>, w: Value<U>)
    ensures multiset(Linked(ranks, links))[(u, (v, w))]
         == if v.Urls? && LinkOf(links, u) == Some(v.urls) then multiset(Map(AsRank, ranks))[(u, w)] else 0
  {
    if ranks != [] {
      var n := |ranks| - 1;
      LinkedCount(ranks[..n], links, u, v, w);
      assert Map(AsRank, ranks) == Map(AsRank, ranks[..n]) + [AsRank(ranks[n])];
      AddBack(Map(AsRank, ranks[..n]), AsRank(ranks[n]), (u, w));
    }
  }

  /** Every joined row is one ranked URL with its neighbours, once. */
  lemma JoinedRows<U(!new)>(links: seq<Link<U>>, ranks: seq<(U, real)>, rows: seq<Row<U>>)
    requires UniqueKeys(links)
    requires IsJoin(Inner, Map(AsUrls, links), Map(AsRank, ranks), Nothing, rows)
    ensures multiset(rows) == multiset(Linked(ranks, links))
  {
    forall row
      ensures multiset(rows)[row] == multiset(Linked(ranks, links))[row]
    {
      var (u, (v, w)) := row;
      LinkCount(links, u, v);
      LinkedCount(ranks, links, u, v, w);
      TimesFacts(0, 0, multiset(Map(AsRank, ranks))[(u, w)]);
    }
  }

  // ---------- One iteration ----------

  function Ranks<U>(ranks: seq<(U, real)>): seq<real> { Map(Second, ranks) }

  lemma {:induction false} DampSum<U>(ranks: seq<(U, real)>)
    ensures Sum(Ranks(Map(Damp, ranks))) == 0.85 * Sum(Ranks(ranks)) + 0.15 * |ranks| as real
  {
    if ranks != [] {
      var n := |ranks| - 1;
      DampSum(ranks[..n]);
      assert Ranks(Map(Damp, ranks)) == Ranks(Map(Damp, ranks[..n])) + [ranks[n].1 * 0.85 + 0.15];
      SumSnoc(Ranks(Map(Damp, ranks[..n])), ranks[n].1 * 0.85 + 0.15);
      assert Ranks(ranks) == Ranks(ranks[..n]) + [ranks[n].1];
      SumSnoc(Ranks(ranks[..n]), ranks[n].1);
    }
  }

  lemma {:induction false} EntriesSum<U(!new)>(contribs: seq<(U, real)>, reduced: seq<(U, real)>)
    requires forall i :: 0 <= i < |reduced| ==> reduced[i].1 == SumAt(reduced[i].0, contribs)
    ensures SumAtAll(Map(KeyOf, reduced), contribs) == Sum(Ranks(reduced))
  {
    if reduced != [] {
      var n := |reduced| - 1;
      assert forall i :: 0 <= i < n ==> reduced[..n][i] == reduced[i];
      EntriesSum(contribs, reduced[..n]);
      assert Map(KeyOf, reduced)[..n] == Map(KeyOf, reduced[..n]);
      assert Ranks(reduced) == Ranks(reduced[..n]) + [reduced[n].1];
      SumSnoc(Ranks(reduced[..n]), reduced[n].1);
    }
  }

  /** reduceByKey(add) redistributes the contributions without creating or losing any. */
  lemma ReducedSum<U(!new)>(contribs: seq<(U, real)>, reduced: seq<(U, real)>)
    requires Reduced(contribs, AddReal, reduced)
    ensures Sum(Ranks(reduced)) == Sum(Map(Second, contribs))
  {
    EntriesSum(contribs, reduced);
    forall i | 0 <= i < |contribs|
      ensures contribs[i].0 in Map(KeyOf, reduced)
    {
      TotalSome(contribs[i].0, contribs, Identity, AddReal);
      var j :| 0 <= j < |reduced| && reduced[j].0 == contribs[i].0;
      assert Map(KeyOf, reduced)[j] == contribs[i].0;
    }
    SumByKey(Map(KeyOf, reduced), contribs);
  }

  ghost predicate IsIteration<U(!new)>(links: seq<Link<U>>, ranks: seq<(U, real)>, rows: seq<Row<U>>,
                                       reduced: seq<(U, real)>, next: seq<(U, real)>)
  {
    && IsJoin(Inner, Map(AsUrls, links), Map(AsRank, ranks), Nothing, rows)
    && Reduced(FlatMap(Contribs, rows), AddReal, reduced)
    && next == Map(Damp, reduced)
  }

  /** What `distinct().groupByKey()` makes of the input. */
  ghost predicate IsLinks<U>(links: seq<Link<U>>)
  {
    UniqueKeys(links) && forall i :: 0 <= i < |links| ==> links[i].1 != []
  }

  lemma RowsAreLinked<U(!new)>(links: seq<Link<U>>, ranks: seq<(U, real)>, rows: seq<Row<U>>)
    requires IsLinks(links) && multiset(rows) == multiset(Linked(ranks, links))
    ensures forall i :: 0 <= i < |rows| ==>
              && rows[i].1.0.Urls? && rows[i].1.1.Rank? && rows[i].1.0.urls != []
              && LinkOf(links, rows[i].0) == Some(rows[i].1.0.urls)
              && (rows[i].0, rows[i].1.1.rank) in ranks
  {
    forall i | 0 <= i < |rows|
      ensures && rows[i].1.0.Urls? && rows[i].1.1.Rank? && rows[i].1.0.urls != []
              && LinkOf(links, rows[i].0) == Some(rows[i].1.0.urls)
              && (rows[i].0, rows[i].1.1.rank) in ranks
    {
      InMultiset(rows, Linked(ranks, links), rows[i]);
      LinkedMember(ranks, links, rows[i]);
      LinkMember(links, rows[i].0);
    }
  }

  lemma {:induction false} LinkedMember<U>(ranks: seq<(U, real)>, links: seq<Link<U>>, row: Row<U>)
    requires row in Linked(ranks, links)
    ensures row.1.0.Urls? && row.1.1.Rank? && LinkOf(links, row.0) == Some(row.1.0.urls)
    ensures (row.0, row.1.1.rank) in ranks
  {
    var n := |ranks| - 1;
    if row in Linked(ranks[..n], links) {
      LinkedMember(ranks[..n], links, row);
    } else {
      assert ranks[n] == (row.0, row.1.1.rank);
    }
  }

  lemma {:induction false} LinkMember<U>(links: seq<Link<U>>, u: U)
    ensures LinkOf(links, u).Some? ==> (u, LinkOf(links, u).value) in links
  {
    if links != [] && links[0].0 != u {
      LinkMember(links[1..], u);
    }
  }

  /** Main result of an iteration: the new total is 0.85 of the rank held by URLs with out-links
      plus 0.15 for every URL that received a contribution. */
  lemma MassFlow<U(!new)>(links: seq<Link<U>>, ranks: seq<(U, real)>, rows: seq<Row<U>>,
                          reduced: seq<(U, real)>, next: seq<(U, real)>)
    requires IsLinks(links) && IsIteration(links, ranks, rows, reduced, next)
    ensures Sum(Ranks(next)) == 0.85 * LinkedMass(ranks, links) + 0.15 * |next| as real
  {
    JoinedRows(links, ranks, rows);
    RowsAreLinked(links, ranks, rows);
    AllContribsSum(rows);
    MapPerm(RowRank, rows, Linked(ranks, links));
    SumPerm(Map(RowRank, rows), Map(RowRank, Linked(ranks, links)));
    LinkedSum(ranks, links);
    ReducedSum(FlatMap(Contribs, rows), reduced);
    DampSum(reduced);
  }

  // ---------- The rank of each URL ----------

  /** What a URL of rank r with links us gives u: r times the share of its links that name u. */
  function Given<U(==)>(us: seq<U>, r: real, u: U): real
  {
    if us == [] then 0.0 else r * multiset(us)[u] as real / |us| as real
  }

  /** What u receives from all ranked URLs with out-links. */
  function Inflow<U(==)>(links: seq<Link<U>>, ranks: seq<(U, real)>, u: U): real
  {
    if ranks == [] then 0.0
    else
      var (v, r) := ranks[|ranks| - 1];
      Inflow(links, ranks[..|ranks| - 1], u) +
        match LinkOf(links, v)
        case None => 0.0
        case Some(us) => Given(us, r, u)
  }

  /** Some ranked URL links to u. */
  ghost predicate IsLinkedTo<U>(links: seq<Link<U>>, ranks: seq<(U, real)>, u: U)
  {
    exists i :: 0 <= i < |ranks| && LinkOf(links, ranks[i].0).Some? && u in LinkOf(links, ranks[i].0).value
  }

  /** One round of the algorithm: exactly the URLs that a ranked URL links to are ranked, once each,
      by 0.15 and 0.85 of what they receive. */
  ghost predicate IsRankRound<U(!new)>(links: seq<Link<U>>, ranks: seq<(U, real)>, next: seq<(U, real)>)
  {
    && UniqueKeys(next)
    && (forall u :: HasKey(next, u) <==> IsLinkedTo(links, ranks, u))
    && (forall i :: 0 <= i < |next| ==> next[i].1 == 0.15 + 0.85 * Inflow(links, ranks, next[i].0))
  }

  lemma {:induction false} SumAtConcat<K>(k: K, s: seq<(K, real)>, t: seq<(K, real)>)
    ensures SumAt(k, s + t) == SumAt(k, s) + SumAt(k, t)
  {
    if t == [] {
      assert s + t == s;
    } else {
      var n := |t| - 1;
      SumAtConcat(k, s, t[..n]);
      assert s + t == (s + t[..n]) + [t[n]] && t == t[..n] + [t[n]];
      SumAtSnoc(k, s + t[..n], t[n]);
      SumAtSnoc(k, t[..n], t[n]);
    }
  }

  lemma {:induction false} SpreadSumAt<U>(us: seq<U>, share: real, u: U)
    ensures SumAt(u, Spread(us, share)) == Mul(multiset(us)[u] as real, share)
  {
    hide Mul;
    if us == [] {
      MulOne(share);
    } else {
      var n := |us| - 1;
      SpreadSumAt(us[..n], share, u);
      DropLast(us);
      assert Spread(us, share) == Spread(us[..n], share) + [(us[n], share)];
      SumAtSnoc(u, Spread(us[..n], share), (us[n], share));
      MulAdd(share, multiset(us[..n])[u] as real, 1.0);
      MulOne(share);
    }
  }

  lemma ShareTimes(c: real, r: real, n: real)
    requires n > 0.0
    ensures Mul(c, r / n) == r * c / n
  {
    var q := r / n;
    assert q * n == r;
    assert r * c == (c * q) * n;
  }

  lemma RowInflow<U>(row: Row<U>, u: U)
    requires row.1.0.Urls? && row.1.1.Rank? && row.1.0.urls != []
    ensures SumAt(u, Contribs(row)) == Given(row.1.0.urls, row.1.1.rank, u)
    ensures HasKey(Contribs(row), u) <==> u in row.1.0.urls
  {
    var us, r := row.1.0.urls, row.1.1.rank;
    assert Contribs(row) == Spread(us, r / |us| as real);
    SpreadSumAt(us, r / |us| as real, u);
    ShareTimes(multiset(us)[u] as real, r, |us| as real);
    if u in us {
      var i :| 0 <= i < |us| && us[i] == u;
      assert Contribs(row)[i].0 == u;
    }
  }

  lemma NothingReceived<U(!new)>(links: seq<Link<U>>, u: U)
    ensures SumAt(u, FlatMap(Contribs, Linked([], links))) == 0.0
    ensures !HasKey(FlatMap(Contribs, Linked([], links)), u) && !IsLinkedTo(links, [], u)
  {
    assert FlatMap(Contribs, Linked([], links)) == [];
  }

  /** Key by key, the contributions of the joined rows are the inflow. */
  lemma {:induction false} LinkedInflow<U(!new)>(links: seq<Link<U>>, ranks: seq<(U, real)>, u: U)
    requires IsLinks(links)
    ensures SumAt(u, FlatMap(Contribs, Linked(ranks, links))) == Inflow(links, ranks, u)
    ensures HasKey(FlatMap(Contribs, Linked(ranks, links)), u) <==> IsLinkedTo(links, ranks, u)
  {
    hide Given, Contribs, SumAt, HasKey;
    if ranks == [] {
      NothingReceived<U>(links, u);
    } else {
      var n := |ranks| - 1;
      var (v, r) := ranks[n];
      var init := Linked(ranks[..n], links);
      LinkedInflow(links, ranks[..n], u);
      LinkMember(links, v);
      LinkedToSnoc(links, ranks, u);
      hide IsLinkedTo, FlatMap;
      match LinkOf(links, v) {
        case None =>
          assert Linked(ranks, links) == init;
        case Some(us) =>
          var row: Row<U> := (v, (Urls(us), Rank(r)));
          FlatMapSnoc(Contribs<U>, init, row);
          RowInflow(row, u);
          SumAtConcat(u, FlatMap(Contribs, init), Contribs(row));
          HasKeyConcat(FlatMap(Contribs, init), Contribs(row), u);
      }
    }
  }

  lemma FlatMapSnoc<A, B>(f: A -> seq<B>, s: seq<A>, x: A)
    ensures FlatMap(f, s + [x]) == FlatMap(f, s) + f(x)
  {
    assert Map(f, s + [x]) == Map(f, s) + [f(x)];
    FlattenConcat(Map(f, s), [f(x)]);
    FlattenOne(f(x));
  }

  lemma HasKeyConcat<K, V>(s: seq<(K, V)>, t: seq<(K, V)>, k: K)
    ensures HasKey(s + t, k) <==> HasKey(s, k) || HasKey(t, k)
  {
    if HasKey(s, k) {
      var i :| 0 <= i < |s| && s[i].0 == k;
      assert (s + t)[i].0 == k;
    }
    if HasKey(t, k) {
      var i :| 0 <= i < |t| && t[i].0 == k;
      assert (s + t)[|s| + i].0 == k;
    }
  }

  lemma LinkedToSnoc<U>(links: seq<Link<U>>, ranks: seq<(U, real)>, u: U)
    requires ranks != []
    ensures var n := |ranks| - 1;
      IsLinkedTo(links, ranks, u) <==>
      IsLinkedTo(links, ranks[..n], u) || (LinkOf(links, ranks[n].0).Some? && u in LinkOf(links, ranks[n].0).value)
  {
    var n := |ranks| - 1;
    if IsLinkedTo(links, ranks[..n], u) {
      var i :| 0 <= i < n && LinkOf(links, ranks[..n][i].0).Some? && u in LinkOf(links, ranks[..n][i].0).value;
      assert ranks[i] == ranks[..n][i];
    }
    if IsLinkedTo(links, ranks, u) {
      var i :| 0 <= i < |ranks| && LinkOf(links, ranks[i].0).Some? && u in LinkOf(links, ranks[i].0).value;
      assert i < n ==> ranks[..n][i] == ranks[i];
    }
  }

  /** The order of the joined rows does not matter. */
  lemma RowsInflow<U(!new)>(links: seq<Link<U>>, ranks: seq<(U, real)>, rows: seq<Row<U>>, u: U)
    requires IsLinks(links) && multiset(rows) == multiset(Linked(ranks, links))
    ensures SumAt(u, FlatMap(Contribs, rows)) == Inflow(links, ranks, u)
    ensures HasKey(FlatMap(Contribs, rows), u) <==> IsLinkedTo(links, ranks, u)
  {
    var linked := Linked(ranks, links);
    MapPerm(Contribs, rows, linked);
    FlattenPerm(Map(Contribs, rows), Map(Contribs, linked));
    AddRealAC();
    TotalPerm(u, FlatMap(Contribs, rows), FlatMap(Contribs, linked), Identity, AddReal);
    TotalSome(u, FlatMap(Contribs, rows), Identity, AddReal);
    TotalSome(u, FlatMap(Contribs, linked), Identity, AddReal);
    LinkedInflow(links, ranks, u);
  }

  /** Main result of an iteration: it is a round of the algorithm. */
  lemma IterationIsRankRound<U(!new)>(links: seq<Link<U>>, ranks: seq<(U, real)>, rows: seq<Row<U>>,
                                      reduced: seq<(U, real)>, next: seq<(U, real)>)
    requires IsLinks(links) && IsIteration(links, ranks, rows, reduced, next)
    ensures IsRankRound(links, ranks, next)
  {
    JoinedRows(links, ranks, rows);
    hide Inflow, IsLinkedTo, IsLinks, Contribs, IsJoin, FlatMap;
    var contribs := FlatMap(Contribs, rows);
    forall u
      ensures HasKey(next, u) <==> IsLinkedTo(links, ranks, u)
    {
      RowsInflow(links, ranks, rows, u);
      TotalSome(u, contribs, Identity, AddReal);
      DampKeys(reduced, u);
    }
    forall i | 0 <= i < |next|
      ensures next[i].1 == 0.15 + 0.85 * Inflow(links, ranks, next[i].0)
    {
      RowsInflow(links, ranks, rows, next[i].0);
    }
  }

  lemma DampKeys<U>(reduced: seq<(U, real)>, u: U)
    ensures HasKey(Map(Damp, reduced), u) <==> HasKey(reduced, u)
  {
    if HasKey(reduced, u) {
      var i :| 0 <= i < |reduced| && reduced[i].0 == u;
      assert Map(Damp, reduced)[i].0 == u;
    }
    if HasKey(Map(Damp, reduced), u) {
      var i :| 0 <= i < |reduced| && Map(Damp, reduced)[i].0 == u;
      assert reduced[i].0 == u;
    }
  }

  // ---------- The run ----------

  ghost predicate AtLeast<U>(ranks: seq<(U, real)>, low: real)
  {
    forall i :: 0 <= i < |ranks| ==> ranks[i].1 >= low
  }

  lemma {:induction false} LinkedMassBound<U>(ranks: seq<(U, real)>, links: seq<Link<U>>)
    requires AtLeast(ranks, 0.0)
    ensures 0.0 <= LinkedMass(ranks, links) <= Sum(Ranks(ranks))
  {
    if ranks != [] {
      var n := |ranks| - 1;
      assert forall i :: 0 <= i < n ==> ranks[..n][i] == ranks[i];
      LinkedMassBound(ranks[..n], links);
      assert Ranks(ranks) == Ranks(ranks[..n]) + [ranks[n].1];
      SumSnoc(Ranks(ranks[..n]), ranks[n].1);
    }
  }

  lemma ContribsAreShares<U>(rows: seq<Row<U>>, i: nat)
    requires forall j :: 0 <= j < |rows| ==> rows[j].1.0.Urls? && rows[j].1.1.Rank? && rows[j].1.1.rank >= 0.0
    requires i < |FlatMap(Contribs, rows)|
    ensures FlatMap(Contribs, rows)[i].1 >= 0.0
    ensures exists j :: 0 <= j < |rows| && FlatMap(Contribs, rows)[i].0 in rows[j].1.0.urls
  {
    var c := FlatMap(Contribs, rows)[i];
    InFlatten(Map(Contribs, rows), c);
    var j :| 0 <= j < |rows| && c in Map(Contribs, rows)[j];
    var us := rows[j].1.0.urls;
    assert Map(Contribs, rows)[j] == Contribs(rows[j]);
    var m :| 0 <= m < |us| && Contribs(rows[j])[m] == c;
    Share(rows[j].1.1.rank, |us| as real);
    assert c.0 in us;
  }

  lemma {:induction false} TotalAtLeastZero<U>(k: U, s: seq<(U, real)>)
    requires AtLeast(s, 0.0)
    ensures var t := Total(k, s, Identity, AddReal); t.Some? ==> t.value >= 0.0
  {
    if s != [] {
      assert forall i :: 0 <= i < |s| - 1 ==> s[..|s| - 1][i] == s[i];
      TotalAtLeastZero(k, s[..|s| - 1]);
    }
  }

  /** Both ends of every link. */
  ghost predicate LinksWithin<U>(links: seq<Link<U>>, all: seq<U>)
  {
    forall i :: 0 <= i < |links| ==> links[i].0 in all && forall j :: 0 <= j < |links[i].1| ==> links[i].1[j] in all
  }

  ghost predicate RanksWithin<U>(ranks: seq<(U, real)>, all: seq<U>)
  {
    UniqueKeys(ranks) && forall i :: 0 <= i < |ranks| ==> ranks[i].0 in all
  }

  lemma CountWithin<U(!new)>(ranks: seq<(U, real)>, all: seq<U>)
    requires RanksWithin(ranks, all)
    ensures |ranks| <= |all|
  {
    NoDupSubset(Map(KeyOf, ranks), all);
  }

  /** What every iteration keeps. */
  ghost predicate Invariant<U>(ranks: seq<(U, real)>, all: seq<U>)
  {
    RanksWithin(ranks, all) && AtLeast(ranks, 0.15) && Sum(Ranks(ranks)) <= |all| as real
  }

  lemma IterationKeepsInvariant<U(!new)>(links: seq<Link<U>>, ranks: seq<(U, real)>, rows: seq<Row<U>>,
                                         reduced: seq<(U, real)>, next: seq<(U, real)>, all: seq<U>)
    requires IsLinks(links) && LinksWithin(links, all) && Invariant(ranks, all)
    requires IsIteration(links, ranks, rows, reduced, next)
    ensures Invariant(next, all)
  {
    JoinedRows(links, ranks, rows);
    RowsAreLinked(links, ranks, rows);
    var contribs := FlatMap(Contribs, rows);
    forall j | 0 <= j < |rows|
      ensures rows[j].1.1.rank >= 0.0
    {
      var i :| 0 <= i < |ranks| && ranks[i] == (rows[j].0, rows[j].1.1.rank);
    }
    forall i | 0 <= i < |contribs|
      ensures contribs[i].1 >= 0.0 && contribs[i].0 in all
    {
      ContribsAreShares(rows, i);
      var j :| 0 <= j < |rows| && contribs[i].0 in rows[j].1.0.urls;
      LinkMember(links, rows[j].0);
      var l :| 0 <= l < |links| && links[l] == (rows[j].0, rows[j].1.0.urls);
      var m :| 0 <= m < |links[l].1| && links[l].1[m] == contribs[i].0;
    }
    forall i | 0 <= i < |next|
      ensures next[i].1 >= 0.15 && next[i].0 in all
    {
      TotalAtLeastZero(reduced[i].0, contribs);
      TotalSome(reduced[i].0, contribs, Identity, AddReal);
      var c :| 0 <= c < |contribs| && contribs[c].0 == reduced[i].0;
    }
    MassFlow(links, ranks, rows, reduced, next);
    LinkedMassBound(ranks, links);
    CountWithin(next, all);
  }

  /** Every URL of the input is in all. */
  ghost predicate Mentioned<U>(lines: seq<(U, U)>, all: seq<U>)
  {
    forall i :: 0 <= i < |lines| ==> lines[i].0 in all && lines[i].1 in all
  }

  lemma LinksFromLines<U(!new)>(lines: seq<(U, U)>, pairs: seq<(U, U)>, links: seq<Link<U>>, all: seq<U>)
    requires Distinct(lines, pairs) && Grouped(pairs, links) && Mentioned(lines, all)
    ensures IsLinks(links) && LinksWithin(links, all)
  {
    forall i | 0 <= i < |links|
      ensures links[i].1 != [] && links[i].0 in all
      ensures forall j :: 0 <= j < |links[i].1| ==> links[i].1[j] in all
    {
      var u := links[i].0;
      assert HasKey(links, u);
      NoValues(u, pairs);
      assert |multiset(ValuesOf(u, pairs))| == |ValuesOf(u, pairs)| && |multiset(links[i].1)| == |links[i].1|;
      var p :| 0 <= p < |pairs| && pairs[p].0 == u;
      assert pairs[p] in lines;
      forall j | 0 <= j < |links[i].1|
        ensures links[i].1[j] in all
      {
        ValuesCount(u, pairs, links[i].1[j]);
        assert links[i].1[j] in multiset(links[i].1);
        assert (u, links[i].1[j]) in multiset(pairs);
        assert (u, links[i].1[j]) in pairs;
        assert (u, links[i].1[j]) in lines;
      }
    }
  }

  /** `lambda (url, neighbors): (url, 1.0)` */
  function StartRank<U>(link: Link<U>): (U, real) { (link.0, 1.0) }

  lemma {:induction false} StartSum<U>(links: seq<Link<U>>)
    ensures Sum(Ranks(Map(StartRank, links))) == |links| as real
  {
    if links != [] {
      var n := |links| - 1;
      StartSum(links[..n]);
      assert Ranks(Map(StartRank, links)) == Ranks(Map(StartRank, links[..n])) + [1.0];
      SumSnoc(Ranks(Map(StartRank, links[..n])), 1.0);
    }
  }

  lemma AddRealAC()
    ensures AC(AddReal)
  {
  }

  /** The loop body. */
  method Iterate<U(==, !new)>(links: seq<seq<Link<U>>>, ranks: seq<seq<(U, real)>>, h: U -> int, n: int, ghost all: seq<U>)
    returns (next: seq<seq<(U, real)>>)
    requires n > 0
    requires IsLinks(Flatten(links)) && LinksWithin(Flatten(links), all) && Invariant(Flatten(ranks), all)
    ensures IsRankRound(Flatten(links), Flatten(ranks), Flatten(next))
    ensures Invariant(Flatten(next), all)
    ensures Sum(Ranks(Flatten(next))) == 0.85 * LinkedMass(Flatten(ranks), Flatten(links)) + 0.15 * |Flatten(next)| as real
  {
    hide IsLinks, LinksWithin, Invariant, LinkedMass, IsJoin, Combined, AC, Sum, IsRankRound;
    AddRealAC();
    var urls := MapParts(AsUrls, links);
    var weights := MapParts(AsRank, ranks);
    FlattenMap(AsUrls<U>, links);
    FlattenMap(AsRank<U>, ranks);
    var joined := Join(Inner, urls, weights, Nothing, h, n);
    var contribs := FlatMapParts(Contribs, joined);
    FlattenFlatMap(Contribs<U>, joined);
    var reduced := ReduceByKey(contribs, AddReal, h, n);
    next := MapParts(Damp, reduced);
    FlattenMap(Damp<U>, reduced);
    IterationKeepsInvariant(Flatten(links), Flatten(ranks), Flatten(joined), Flatten(reduced), Flatten(next), all);
    MassFlow(Flatten(links), Flatten(ranks), Flatten(joined), Flatten(reduced), Flatten(next));
    IterationIsRankRound(Flatten(links), Flatten(ranks), Flatten(joined), Flatten(reduced), Flatten(next));
  }

  /** The links of the input: for each URL with a line of its own, its neighbours, once each. */
  ghost predicate AreLinksOf<U(!new)>(lines: seq<(U, U)>, links: seq<Link<U>>)
  {
    && IsLinks(links)
    && (forall u :: LinkOf(links, u).Some? <==> HasKey(lines, u))
    && (forall u, v :: LinkOf(links, u).Some? ==> multiset(LinkOf(links, u).value)[v] == if (u, v) in lines then 1 else 0)
  }

  /** The ranks before, between and after the iterations: 1.0 on every URL with out-links, and then
      one round after the other. */
  ghost predicate AreRounds<U(!new)>(links: seq<Link<U>>, rounds: seq<seq<(U, real)>>)
  {
    && rounds != []
    && UniqueKeys(rounds[0])
    && (forall u :: HasKey(rounds[0], u) <==> LinkOf(links, u).Some?)
    && (forall i :: 0 <= i < |rounds[0]| ==> rounds[0][i].1 == 1.0)
    && (forall i :: 0 <= i < |rounds| - 1 ==> IsRankRound(links, rounds[i], rounds[i + 1]))
  }

  lemma StartRanks<U(!new)>(links: seq<Link<U>>)
    requires IsLinks(links)
    ensures AreRounds(links, [Map(StartRank, links)])
  {
    var start := Map(StartRank, links);
    forall u
      ensures HasKey(start, u) <==> LinkOf(links, u).Some?
    {
      NoLink(links, u);
      if LinkOf(links, u).Some? {
        var i :| 0 <= i < |links| && links[i].0 == u;
        assert start[i].0 == u;
      }
      if HasKey(start, u) {
        var i :| 0 <= i < |start| && start[i].0 == u;
        assert links[i].0 == u;
      }
    }
  }

  lemma NextRound<U(!new)>(links: seq<Link<U>>, rounds: seq<seq<(U, real)>>, next: seq<(U, real)>)
    requires AreRounds(links, rounds) && IsRankRound(links, rounds[|rounds| - 1], next)
    ensures AreRounds(links, rounds + [next])
  {
    hide IsRankRound;
  }

  lemma LinksOfLines<U(!new)>(lines: seq<(U, U)>, pairs: seq<(U, U)>, links: seq<Link<U>>)
    requires Distinct(lines, pairs) && Grouped(pairs, links) && IsLinks(links)
    ensures AreLinksOf(lines, links)
  {
    forall u
      ensures LinkOf(links, u).Some? <==> HasKey(lines, u)
    {
      NoLink(links, u);
      SameKeys(lines, pairs, u);
    }
    forall u, v | LinkOf(links, u).Some?
      ensures multiset(LinkOf(links, u).value)[v] == if (u, v) in lines then 1 else 0
    {
      LinkMember(links, u);
      var i :| 0 <= i < |links| && links[i] == (u, LinkOf(links, u).value);
      ValuesCount(u, pairs, v);
      NoDupCount(pairs, (u, v));
    }
  }

  lemma SameKeys<U>(lines: seq<(U, U)>, pairs: seq<(U, U)>, u: U)
    requires forall x :: x in pairs <==> x in lines
    ensures HasKey(lines, u) <==> HasKey(pairs, u)
  {
    if HasKey(lines, u) {
      var i :| 0 <= i < |lines| && lines[i].0 == u;
      assert lines[i] in pairs;
      var j :| 0 <= j < |pairs| && pairs[j] == lines[i];
    }
    if HasKey(pairs, u) {
      var i :| 0 <= i < |pairs| && pairs[i].0 == u;
      assert pairs[i] in lines;
      var j :| 0 <= j < |lines| && lines[j] == pairs[i];
    }
  }

  lemma {:induction false} NoDupCount<T>(s: seq<T>, x: T)
    requires NoDup(s)
    ensures multiset(s)[x] == if x in s then 1 else 0
  {
    if s != [] {
      var n := |s| - 1;
      NoDupCount(s[..n], x);
      DropLast(s);
      assert s[n] !in s[..n];
      assert x in s <==> x in s[..n] || x == s[n];
    }
  }

  /** For every input, number of iterations, partitioning and shuffle order: the ranks are the
      outcome of that many rounds; each URL is ranked at most once, no rank is below 0.15, and the
      total never exceeds the number of distinct URLs. */
  method Run<U(==, !new)>(lines: seq<seq<(U, U)>>, iterations: int, h: U -> int, h2: ((U, U)) -> int, n: int, ghost all: seq<U>)
    returns (ranks: seq<seq<(U, real)>>, ghost links: seq<Link<U>>, ghost rounds: seq<seq<(U, real)>>)
    requires n > 0
    requires NoDup(all) && Mentioned(Flatten(lines), all)
    ensures AreLinksOf(Flatten(lines), links) && AreRounds(links, rounds)
    ensures |rounds| == (if iterations < 0 then 0 else iterations) + 1 && rounds[|rounds| - 1] == Flatten(ranks)
    ensures Invariant(Flatten(ranks), all)
  {
    hide Invariant, AreLinksOf, AreRounds, IsRankRound, LinksWithin, IsLinks, Distinct, Grouped, Mentioned;
    var pairs := DistinctValues(lines, h2, n);
    var linkParts := GroupByKey(pairs, h, n);
    links := Flatten(linkParts);
    LinksFromLines(Flatten(lines), Flatten(pairs), links, all);
    LinksOfLines(Flatten(lines), Flatten(pairs), links);
    ranks := MapParts(StartRank, linkParts);
    FlattenMap(StartRank<U>, linkParts);
    StartRanks(links);
    StartInvariant(links, all);
    rounds := [Flatten(ranks)];
    var i := 0;
    while i < iterations
      invariant Invariant(Flatten(ranks), all) && AreRounds(links, rounds)
      invariant 0 <= i && (i <= iterations || i == 0) && |rounds| == i + 1 && rounds[i] == Flatten(ranks)
      decreases iterations - i
    {
      var next := Iterate(linkParts, ranks, h, n, all);
      NextRound(links, rounds, Flatten(next));
      ranks, rounds := next, rounds + [Flatten(next)];
      i := i + 1;
    }
  }

  lemma StartInvariant<U(!new)>(links: seq<Link<U>>, all: seq<U>)
    requires IsLinks(links) && LinksWithin(links, all)
    ensures Invariant(Map(StartRank, links), all)
  {
    StartSum(links);
    CountWithin(Map(StartRank, links), all);
  }
}
