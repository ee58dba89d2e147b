/** The K-means example (kmeans.py) over exact reals: nearest-centre search, one Lloyd iteration,
    its potential function and the termination of the loop. */
module KMeans {
  import opened Reals
  import opened Seqs
  import opened Shuffle
  import opened Keyed

  type Vec = seq<real>

  function Sub(u: Vec, v: Vec): (r: Vec)
    ensures |r| == Least(|u|, |v|)
  {
    seq(Least(|u|, |v|), i requires 0 <= i < Least(|u|, |v|) => u[i] - v[i])
  }

  function Scale(c: real, v: Vec): (r: Vec)
    ensures |r| == |v|
  {
    seq(|v|, i requires 0 <= i < |v| => Mul(c, v[i]))
  }

  function Dot(u: Vec, v: Vec): real
  {
    if u == [] || v == [] then 0.0 else Mul(u[0], v[0]) + Dot(u[1..], v[1..])
  }

  /** `np.sum((p - c) ** 2)` */
  function Dist2(p: Vec, c: Vec): real
  {
    if p == [] || c == [] then 0.0 else Sq(p[0] - c[0]) + Dist2(p[1..], c[1..])
  }

  lemma {:induction false} Dist2NonNegative(p: Vec, c: Vec)
    ensures Dist2(p, c) >= 0.0
    ensures |p| == |c| && Dist2(p, c) == 0.0 ==> p == c
  {
    hide Mul;
    if p != [] && c != [] {
      Dist2NonNegative(p[1..], c[1..]);
      Square(p[0] - c[0]);
      if |p| == |c| && Dist2(p, c) == 0.0 {
        assert p == [p[0]] + p[1..] && c == [c[0]] + c[1..];
      }
    }
  }

  lemma Tails(c: Vec, m: Vec)
    requires |c| == |m| && c != []
    ensures Sub(m, c)[1..] == Sub(m[1..], c[1..])
    ensures AddVectors(c, m)[1..] == AddVectors(c[1..], m[1..])
  {
  }

  lemma ScaleTail(c: real, v: Vec)
    requires v != []
    ensures Scale(c, v)[1..] == Scale(c, v[1..])
  {
    hide Mul;
    forall i | 0 <= i < |v| - 1
      ensures Scale(c, v)[1..][i] == Scale(c, v[1..])[i]
    {
      assert v[1..][i] == v[i + 1];
    }
  }

  lemma {:induction false} DotAdd(w: Vec, u: Vec, v: Vec)
    requires |w| == |u| == |v|
    ensures Dot(w, AddVectors(u, v)) == Dot(w, u) + Dot(w, v)
  {
    hide Mul;
    if w != [] {
      DotAdd(w[1..], u[1..], v[1..]);
      Tails(u, v);
      MulAdd(w[0], u[0], v[0]);
    }
  }

  lemma {:induction false} DotScale(w: Vec, c: real, v: Vec)
    requires |w| == |v|
    ensures Dot(w, Scale(c, v)) == Mul(c, Dot(w, v))
  {
    hide Mul;
    if w == [] {
      MulOne(c);
    } else {
      DotScale(w[1..], c, v[1..]);
      ScaleTail(c, v);
      MulAssoc(w[0], c, v[0]);
      MulComm(w[0], c);
      MulAssoc(c, w[0], v[0]);
      MulAdd(c, Mul(w[0], v[0]), Dot(w[1..], v[1..]));
    }
  }

  /** Moving the centre from c to m changes the distance of p by a function linear in p. */
  lemma {:induction false} DistShift(p: Vec, c: Vec, m: Vec)
    requires |p| == |c| == |m|
    ensures Dist2(p, c) - Dist2(p, m) == 2.0 * Dot(Sub(m, c), p) - Dot(Sub(m, c), AddVectors(c, m))
  {
    hide Mul;
    if p != [] {
      DistShift(p[1..], c[1..], m[1..]);
      Tails(c, m);
      ShiftOne(p[0], c[0], m[0]);
    }
  }

  lemma ShiftOne(p: real, c: real, m: real)
    ensures Sq(p - c) - Sq(p - m) == 2.0 * Mul(m - c, p) - Mul(m - c, c + m)
  {
  }

  lemma {:induction false} DistDot(c: Vec, m: Vec)
    requires |c| == |m|
    ensures Dot(Sub(m, c), m) - Dot(Sub(m, c), c) == Dist2(c, m)
  {
    hide Mul;
    if c != [] {
      DistDot(c[1..], m[1..]);
      Tails(c, m);
      DotOne(c[0], m[0]);
    }
  }

  lemma DotOne(c: real, m: real)
    ensures Mul(m - c, m) - Mul(m - c, c) == Sq(c - m)
  {
  }

  // ---------- closestPoint ----------

  /** The first nearest of the centres before i; 0 when there is none. */
  function ClosestBefore(p: Vec, centers: seq<Vec>, i: nat): (best: nat)
    requires i <= |centers|
    ensures i > 0 ==> best < i
    ensures i == 0 ==> best == 0
  {
    if i == 0 then 0
    else
      var best := ClosestBefore(p, centers, i - 1);
      if i == 1 || Dist2(p, centers[i - 1]) < Dist2(p, centers[best]) then i - 1 else best
  }

  function Closest(p: Vec, centers: seq<Vec>): (best: nat)
    ensures centers != [] ==> best < |centers|
    ensures centers == [] ==> best == 0
  {
    ClosestBefore(p, centers, |centers|)
  }

  method ClosestPoint(p: Vec, centers: seq<Vec>) returns (bestIndex: nat)
    ensures bestIndex == Closest(p, centers)
  {
    bestIndex := 0;
    var closest: Option<real> := None;  // None stands for +inf
    for i := 0 to |centers|
      invariant bestIndex == ClosestBefore(p, centers, i)
      invariant closest == if i == 0 then None else Some(Dist2(p, centers[bestIndex]))
    {
      var tempDist := Dist2(p, centers[i]);
      if closest.None? || tempDist < closest.value {
        closest := Some(tempDist);
        bestIndex := i;
      }
    }
  }

  lemma {:induction false} ClosestIsNearest(p: Vec, centers: seq<Vec>, i: nat)
    requires 0 < i <= |centers|
    ensures forall j :: 0 <= j < i ==> Dist2(p, centers[ClosestBefore(p, centers, i)]) <= Dist2(p, centers[j])
    ensures forall j :: 0 <= j < ClosestBefore(p, centers, i) ==>
              Dist2(p, centers[ClosestBefore(p, centers, i)]) < Dist2(p, centers[j])
  {
    if i > 1 {
      ClosestIsNearest(p, centers, i - 1);
    }
  }

  // ---------- Costs ----------

  function Labels(points: seq<Vec>, centers: seq<Vec>): (labels: seq<int>)
    ensures |labels| == |points|
    ensures forall i :: 0 <= i < |points| ==> labels[i] == Closest(points[i], centers)
  {
    seq(|points|, i requires 0 <= i < |points| => Closest(points[i], centers))
  }

  ghost predicate Labelling(labels: seq<int>, n: nat, k: nat)
  {
    |labels| == n && forall i :: 0 <= i < n ==> 0 <= labels[i] < k
  }

  /** Sum of squared distances when point i is served by centre labels[i]. */
  function ServedCost(points: seq<Vec>, labels: seq<int>, centers: seq<Vec>): real
    requires Labelling(labels, |points|, |centers|)
  {
    if points == [] then 0.0
    else
      var n := |points| - 1;
      ServedCost(points[..n], labels[..n], centers) + Dist2(points[n], centers[labels[n]])
  }

  /** The potential: every point served by its nearest centre. */
  function Cost(points: seq<Vec>, centers: seq<Vec>): real
    requires centers != [] || points == []
  {
    ServedCost(points, Labels(points, centers), centers)
  }

  lemma {:induction false} NearestIsCheapest(points: seq<Vec>, labels: seq<int>, centers: seq<Vec>)
    requires centers != [] || points == []
    requires Labelling(labels, |points|, |centers|)
    ensures 0.0 <= Cost(points, centers) <= ServedCost(points, labels, centers)
  {
    if points != [] {
      var n := |points| - 1;
      NearestIsCheapest(points[..n], labels[..n], centers);
      assert Labels(points, centers)[..n] == Labels(points[..n], centers);
      ClosestIsNearest(points[n], centers, |centers|);
      Dist2NonNegative(points[n], centers[Closest(points[n], centers)]);
    }
  }

  // ---------- One iteration ----------

  type Stat = (Vec, int)

  /** `(x1 + x2, y1 + y2)` */
  function PlusStat(a: Stat, b: Stat): Stat { (AddVectors(a.0, b.0), a.1 + b.1) }

  lemma PlusStatAC()
    ensures AC(PlusStat)
  {
    forall a: Stat, b, c
      ensures PlusStat(PlusStat(a, b), c) == PlusStat(a, PlusStat(b, c))
    {
      assert AddVectors(AddVectors(a.0, b.0), c.0) == AddVectors(a.0, AddVectors(b.0, c.0));
    }
    forall a: Stat, b
      ensures PlusStat(a, b) == PlusStat(b, a)
    {
      assert AddVectors(a.0, b.0) == AddVectors(b.0, a.0);
    }
  }

  function Labelled(centers: seq<Vec>): Vec -> (int, Stat)
  {
    p => (Closest(p, centers), (p, 1))
  }

  function Rows(points: seq<Vec>, labels: seq<int>): (rows: seq<(int, Stat)>)
    requires |labels| == |points|
    ensures |rows| == |points|
  {
    seq(|points|, i requires 0 <= i < |points| => (labels[i], (points[i], 1)))
  }

  /** Vector sum and count of the points labelled x. */
  function ClusterStat(points: seq<Vec>, labels: seq<int>, x: int): Option<Stat>
    requires |labels| == |points|
  {
    Total(x, Rows(points, labels), Identity, PlusStat)
  }

  /** `y / z` */
  function Mean(s: Stat): Vec
  {
    if s.1 == 0 then s.0 else Scale(1.0 / s.1 as real, s.0)
  }

  function MeanRow(row: (int, Stat)): (int, Vec) { (row.0, Mean(row.1)) }

  ghost predicate Dims(vs: seq<Vec>, d: nat)
  {
    forall i :: 0 <= i < |vs| ==> |vs[i]| == d
  }

  /** newPoints: the mean of every non-empty cluster, each cluster once. */
  ghost predicate IsNewPoints(points: seq<Vec>, labels: seq<int>, newPoints: seq<(int, Vec)>)
    requires |labels| == |points|
  {
    && UniqueKeys(newPoints)
    && (forall i :: 0 <= i < |newPoints| ==>
          var s := ClusterStat(points, labels, newPoints[i].0);
          s.Some? && newPoints[i].1 == Mean(s.value))
    && (forall j :: 0 <= j < |labels| ==> HasKey(newPoints, labels[j]))
  }

  lemma {:induction false} ClusterStatShape(points: seq<Vec>, labels: seq<int>, x: int, d: nat)
    requires |labels| == |points| && Dims(points, d)
    ensures var s := ClusterStat(points, labels, x);
      && (s.Some? ==> |s.value.0| == d && s.value.1 >= 1)
      && (s.Some? <==> x in labels)
  {
    if points != [] {
      var n := |points| - 1;
      ClusterStatShape(points[..n], labels[..n], x, d);
      assert Rows(points, labels)[..n] == Rows(points[..n], labels[..n]);
      assert labels == labels[..n] + [labels[n]];
    }
  }

  /** kPoints after `for (x, y) in newPoints: kPoints[x] = y`. */
  function Updated(centers: seq<Vec>, newPoints: seq<(int, Vec)>): (r: seq<Vec>)
    requires forall i :: 0 <= i < |newPoints| ==> 0 <= newPoints[i].0 < |centers|
    ensures |r| == |centers|
  {
    if newPoints == [] then centers
    else
      var (x, y) := newPoints[|newPoints| - 1];
      Updated(centers, newPoints[..|newPoints| - 1])[x := y]
  }

  lemma {:induction false} UpdatedAt(centers: seq<Vec>, newPoints: seq<(int, Vec)>, d: nat)
    requires forall i :: 0 <= i < |newPoints| ==> 0 <= newPoints[i].0 < |centers|
    requires UniqueKeys(newPoints) && Dims(centers, d)
    requires forall i :: 0 <= i < |newPoints| ==> |newPoints[i].1| == d
    ensures Dims(Updated(centers, newPoints), d)
    ensures forall i :: 0 <= i < |newPoints| ==> Updated(centers, newPoints)[newPoints[i].0] == newPoints[i].1
    ensures forall x :: 0 <= x < |centers| && !HasKey(newPoints, x) ==> Updated(centers, newPoints)[x] == centers[x]
  {
    if newPoints != [] {
      var n := |newPoints| - 1;
      var init := newPoints[..n];
      UpdatedAt(centers, init, d);
      assert forall i :: 0 <= i < n ==> init[i] == newPoints[i];
      forall x | 0 <= x < |centers| && !HasKey(newPoints, x)
        ensures Updated(centers, newPoints)[x] == centers[x]
      {
        assert newPoints[n].0 != x;
        assert !HasKey(init, x);
      }
    }
  }

  /** `sum(np.sum((kPoints[x] - y) ** 2) for (x, y) in newPoints)` */
  function TempDist(centers: seq<Vec>, newPoints: seq<(int, Vec)>): real
    requires forall i :: 0 <= i < |newPoints| ==> 0 <= newPoints[i].0 < |centers|
  {
    if newPoints == [] then 0.0
    else
      var (x, y) := newPoints[|newPoints| - 1];
      TempDist(centers, newPoints[..|newPoints| - 1]) + Dist2(centers[x], y)
  }

  lemma {:induction false} TempDistNonNegative(centers: seq<Vec>, newPoints: seq<(int, Vec)>)
    requires forall i :: 0 <= i < |newPoints| ==> 0 <= newPoints[i].0 < |centers|
    ensures TempDist(centers, newPoints) >= 0.0
    ensures TempDist(centers, newPoints) == 0.0 ==>
              forall i :: 0 <= i < |newPoints| ==> Dist2(centers[newPoints[i].0], newPoints[i].1) == 0.0
  {
    if newPoints != [] {
      var n := |newPoints| - 1;
      TempDistNonNegative(centers, newPoints[..n]);
      Dist2NonNegative(centers[newPoints[n].0], newPoints[n].1);
      assert forall i :: 0 <= i < n ==> newPoints[..n][i] == newPoints[i];
    }
  }

  // ---------- What one iteration must do ----------

  /** How many points carry label x. */
  function ClusterSize(labels: seq<int>, x: int): nat
  {
    if labels == [] then 0 else ClusterSize(labels[..|labels| - 1], x) + if labels[|labels| - 1] == x then 1 else 0
  }

  /** The sum of coordinate j over the points labelled x. */
  function ClusterSum(points: seq<Vec>, labels: seq<int>, x: int, j: nat): real
    requires |labels| == |points| && forall i :: 0 <= i < |points| ==> j < |points[i]|
  {
    if points == [] then 0.0
    else
      var n := |points| - 1;
      ClusterSum(points[..n], labels[..n], x, j) + if labels[n] == x then points[n][j] else 0.0
  }

  /** Each centre of a non-empty cluster moves to the mean of its points, coordinate by coordinate;
      the others stay. */
  ghost predicate IsLloydStep(points: seq<Vec>, c: seq<Vec>, m: seq<Vec>, d: nat)
  {
    && Dims(points, d) && Dims(c, d) && Dims(m, d) && |m| == |c|
    && var labels := Labels(points, c);
       forall x :: 0 <= x < |c| ==>
         if ClusterSize(labels, x) == 0 then m[x] == c[x]
         else forall j :: 0 <= j < d ==> Mul(ClusterSize(labels, x) as real, m[x][j]) == ClusterSum(points, labels, x, j)
  }

  /** The squared distances that the centres move, summed over all of them. */
  function MoveSum(c: seq<Vec>, m: seq<Vec>): real
    requires |c| == |m|
  {
    if c == [] then 0.0
    else MoveSum(c[..|c| - 1], m[..|c| - 1]) + Dist2(c[|c| - 1], m[|c| - 1])
  }

  lemma {:induction false} ClusterStatMeans(points: seq<Vec>, labels: seq<int>, x: int, d: nat)
    requires |labels| == |points| && Dims(points, d)
    ensures var s := ClusterStat(points, labels, x);
      && (s.None? <==> ClusterSize(labels, x) == 0)
      && (s.Some? ==>
            && s.value.1 == ClusterSize(labels, x) && |s.value.0| == d
            && forall j :: 0 <= j < d ==> s.value.0[j] == ClusterSum(points, labels, x, j))
      && (s.None? ==> forall j :: 0 <= j < d ==> ClusterSum(points, labels, x, j) == 0.0)
  {
    if points != [] {
      var n := |points| - 1;
      ClusterStatMeans(points[..n], labels[..n], x, d);
      assert Rows(points, labels) == Rows(points[..n], labels[..n]) + [(labels[n], (points[n], 1))];
      TotalSnoc(x, Rows(points[..n], labels[..n]), (labels[n], (points[n], 1)), Identity, PlusStat);
    }
  }

  lemma MeanTimesCount(s: Vec, z: int, j: nat)
    requires z >= 1 && j < |s|
    ensures |Mean((s, z))| == |s| && Mul(z as real, Mean((s, z))[j]) == s[j]
  {
    hide Mul;
    Reciprocal(z as real);
    MulAssoc(z as real, 1.0 / z as real, s[j]);
    MulOne(s[j]);
  }

  lemma UpdatedIsLloydStep(points: seq<Vec>, c: seq<Vec>, newPoints: seq<(int, Vec)>, d: nat)
    requires Dims(points, d) && Dims(c, d)
    requires IsNewPoints(points, Labels(points, c), newPoints)
    requires forall i :: 0 <= i < |newPoints| ==> 0 <= newPoints[i].0 < |c| && |newPoints[i].1| == d
    ensures IsLloydStep(points, c, Updated(c, newPoints), d)
  {
    hide Mul, ClusterStat, Mean;
    var labels, m := Labels(points, c), Updated(c, newPoints);
    UpdatedAt(c, newPoints, d);
    forall x | 0 <= x < |c|
      ensures if ClusterSize(labels, x) == 0 then m[x] == c[x]
              else forall j :: 0 <= j < d ==> Mul(ClusterSize(labels, x) as real, m[x][j]) == ClusterSum(points, labels, x, j)
    {
      ClusterStatMeans(points, labels, x, d);
      ClusterStatShape(points, labels, x, d);
      if HasKey(newPoints, x) {
        var i :| 0 <= i < |newPoints| && newPoints[i].0 == x;
        var s := ClusterStat(points, labels, x).value;
        forall j | 0 <= j < d
          ensures Mul(ClusterSize(labels, x) as real, m[x][j]) == ClusterSum(points, labels, x, j)
        {
          MeanTimesCount(s.0, s.1, j);
        }
      } else {
        assert x !in labels;
      }
    }
  }

  lemma {:induction false} NoMove(c: seq<Vec>)
    ensures MoveSum(c, c) == 0.0
  {
    if c != [] {
      NoMove(c[..|c| - 1]);
      SamePlace(c[|c| - 1]);
    }
  }

  lemma {:induction false} SamePlace(p: Vec)
    ensures Dist2(p, p) == 0.0
  {
    if p != [] {
      SamePlace(p[1..]);
      MulOne(0.0);
    }
  }

  /** Moving one more centre adds its squared distance. */
  lemma {:induction false} MoveOne(c: seq<Vec>, m: seq<Vec>, x: nat, y: Vec)
    requires |c| == |m| && x < |c| && m[x] == c[x]
    ensures MoveSum(c, m[x := y]) == MoveSum(c, m) + Dist2(c[x], y)
  {
    hide Dist2;
    var n := |c| - 1;
    if x < n {
      MoveOne(c[..n], m[..n], x, y);
      assert m[x := y][..n] == m[..n][x := y];
    } else {
      assert m[x := y][..n] == m[..n];
      SamePlace(c[x]);
    }
  }

  /** `sum(...)` over newPoints counts the move of every centre once. */
  lemma {:induction false} TempDistIsMoveSum(c: seq<Vec>, newPoints: seq<(int, Vec)>, d: nat)
    requires forall i :: 0 <= i < |newPoints| ==> 0 <= newPoints[i].0 < |c|
    requires UniqueKeys(newPoints) && Dims(c, d)
    requires forall i :: 0 <= i < |newPoints| ==> |newPoints[i].1| == d
    ensures TempDist(c, newPoints) == MoveSum(c, Updated(c, newPoints))
  {
    hide Dist2;
    if newPoints == [] {
      NoMove(c);
    } else {
      var n := |newPoints| - 1;
      var init := newPoints[..n];
      var (x, y) := newPoints[n];
      TempDistIsMoveSum(c, init, d);
      UpdatedAt(c, init, d);
      assert !HasKey(init, x);
      MoveOne(c, Updated(c, init), x, y);
    }
  }

  // ---------- The potential drops by tempDist ----------

  /** How much point i gains when its centre moves from c to m, listed under its label. */
  function Gains(points: seq<Vec>, labels: seq<int>, c: seq<Vec>, m: seq<Vec>): (r: seq<(int, real)>)
    requires |c| == |m| && Labelling(labels, |points|, |c|)
    ensures |r| == |points|
  {
    seq(|points|, i requires 0 <= i < |points| =>
      (labels[i], Dist2(points[i], c[labels[i]]) - Dist2(points[i], m[labels[i]])))
  }

  lemma {:induction false} ServedGain(points: seq<Vec>, labels: seq<int>, c: seq<Vec>, m: seq<Vec>)
    requires |c| == |m| && Labelling(labels, |points|, |c|)
    ensures Sum(Map(Second, Gains(points, labels, c, m))) == ServedCost(points, labels, c) - ServedCost(points, labels, m)
  {
    if points != [] {
      var n := |points| - 1;
      ServedGain(points[..n], labels[..n], c, m);
      assert Gains(points, labels, c, m)[..n] == Gains(points[..n], labels[..n], c, m);
      assert Map(Second, Gains(points, labels, c, m))[..n] == Map(Second, Gains(points[..n], labels[..n], c, m));
    }
  }

  /** What z points with vector sum s gain when their centre moves from c to m. */
  function GainOf(stat: Option<Stat>, c: Vec, m: Vec): real
  {
    match stat
    case None => 0.0
    case Some((s, z)) => 2.0 * Dot(Sub(m, c), s) - Mul(z as real, Dot(Sub(m, c), AddVectors(c, m)))
  }

  lemma GainStep(stat: Option<Stat>, p: Vec, c: Vec, m: Vec)
    requires |c| == |m| == |p|
    requires stat.Some? ==> |stat.value.0| == |p|
    ensures GainOf(Plus(PlusStat, stat, Some((p, 1))), c, m) == GainOf(stat, c, m) + (Dist2(p, c) - Dist2(p, m))
  {
    hide Mul, Dot, Dist2;
    var a := Dot(Sub(m, c), AddVectors(c, m));
    DistShift(p, c, m);
    MulOne(a);
    if stat.Some? {
      DotAdd(Sub(m, c), stat.value.0, p);
      MulAdd(a, stat.value.1 as real, 1.0);
    }
  }

  /** The gain of one cluster depends only on its sum and count. */
  lemma {:induction false} ClusterGain(points: seq<Vec>, labels: seq<int>, c: seq<Vec>, m: seq<Vec>, x: int, d: nat)
    requires |c| == |m| && Labelling(labels, |points|, |c|) && 0 <= x < |c|
    requires Dims(points, d) && Dims(c, d) && Dims(m, d)
    ensures SumAt(x, Gains(points, labels, c, m)) == GainOf(ClusterStat(points, labels, x), c[x], m[x])
  {
    var gains := Gains(points, labels, c, m);
    if points != [] {
      var n := |points| - 1;
      ClusterGain(points[..n], labels[..n], c, m, x, d);
      ClusterStatShape(points[..n], labels[..n], x, d);
      assert gains == Gains(points[..n], labels[..n], c, m) + [gains[n]];
      assert Rows(points, labels) == Rows(points[..n], labels[..n]) + [(labels[n], (points[n], 1))];
      SumAtSnoc(x, Gains(points[..n], labels[..n], c, m), gains[n]);
      TotalSnoc(x, Rows(points[..n], labels[..n]), (labels[n], (points[n], 1)), Identity, PlusStat);
      if labels[n] == x {
        GainStep(ClusterStat(points[..n], labels[..n], x), points[n], c[x], m[x]);
      }
    }
  }

  lemma MeanDot(w: Vec, s: Vec, z: int)
    requires z >= 1 && |w| == |s|
    ensures Mul(z as real, Dot(w, Mean((s, z)))) == Dot(w, s)
  {
    hide Mul, Dot;
    var zr := z as real;
    DotScale(w, 1.0 / zr, s);
    Reciprocal(zr);
    MulAssoc(zr, 1.0 / zr, Dot(w, s));
    MulOne(Dot(w, s));
  }

  /** Moving a cluster's centre to its mean gains at least the squared distance moved. */
  lemma MeanGain(s: Vec, z: int, c: Vec, m: Vec)
    requires z >= 1 && |s| == |c| && m == Mean((s, z))
    ensures GainOf(Some((s, z)), c, m) >= Dist2(c, m)
  {
    hide Mul, Dot, Dist2;
    var w, zr := Sub(m, c), z as real;
    MeanDot(w, s, z);
    DotAdd(w, c, m);
    DistDot(c, m);
    Dist2NonNegative(c, m);
    MulAdd(zr, Dot(w, c), Dot(w, m));
    MulAdd(zr, Dot(w, m), Dot(w, c));
    MulGrow(zr, Dist2(c, m));
  }

  lemma {:induction false} GainsCoverTempDist(newPoints: seq<(int, Vec)>, gains: seq<(int, real)>, c: seq<Vec>)
    requires forall i :: 0 <= i < |newPoints| ==> 0 <= newPoints[i].0 < |c|
    requires forall i :: 0 <= i < |newPoints| ==> SumAt(newPoints[i].0, gains) >= Dist2(c[newPoints[i].0], newPoints[i].1)
    ensures SumAtAll(Map(KeyOf, newPoints), gains) >= TempDist(c, newPoints)
  {
    if newPoints != [] {
      var n := |newPoints| - 1;
      assert forall i :: 0 <= i < n ==> newPoints[..n][i] == newPoints[i];
      GainsCoverTempDist(newPoints[..n], gains, c);
      assert Map(KeyOf, newPoints)[..n] == Map(KeyOf, newPoints[..n]);
    }
  }

  lemma NewPointKeys(points: seq<Vec>, labels: seq<int>, k: nat, newPoints: seq<(int, Vec)>, d: nat)
    requires Labelling(labels, |points|, k) && Dims(points, d)
    requires IsNewPoints(points, labels, newPoints)
    ensures forall i :: 0 <= i < |newPoints| ==> 0 <= newPoints[i].0 < k && |newPoints[i].1| == d
  {
    forall i | 0 <= i < |newPoints|
      ensures 0 <= newPoints[i].0 < k && |newPoints[i].1| == d
    {
      ClusterStatShape(points, labels, newPoints[i].0, d);
    }
  }

  lemma NewPointsGain(points: seq<Vec>, labels: seq<int>, c: seq<Vec>, m: seq<Vec>, newPoints: seq<(int, Vec)>, i: nat, d: nat)
    requires |c| == |m| && Labelling(labels, |points|, |c|)
    requires Dims(points, d) && Dims(c, d) && Dims(m, d)
    requires IsNewPoints(points, labels, newPoints)
    requires i < |newPoints| && 0 <= newPoints[i].0 < |c| && m[newPoints[i].0] == newPoints[i].1
    ensures SumAt(newPoints[i].0, Gains(points, labels, c, m)) >= Dist2(c[newPoints[i].0], newPoints[i].1)
  {
    var x := newPoints[i].0;
    ClusterStatShape(points, labels, x, d);
    ClusterGain(points, labels, c, m, x, d);
    var s := ClusterStat(points, labels, x).value;
    MeanGain(s.0, s.1, c[x], m[x]);
  }

  lemma TotalGain(points: seq<Vec>, labels: seq<int>, c: seq<Vec>, newPoints: seq<(int, Vec)>, d: nat)
    requires Labelling(labels, |points|, |c|) && Dims(points, d) && Dims(c, d)
    requires IsNewPoints(points, labels, newPoints)
    ensures forall i :: 0 <= i < |newPoints| ==> 0 <= newPoints[i].0 < |c| && |newPoints[i].1| == d
    ensures Dims(Updated(c, newPoints), d)
    ensures ServedCost(points, labels, c) - ServedCost(points, labels, Updated(c, newPoints)) >= TempDist(c, newPoints)
  {
    NewPointKeys(points, labels, |c|, newPoints, d);
    var m := Updated(c, newPoints);
    UpdatedAt(c, newPoints, d);
    var gains := Gains(points, labels, c, m);
    forall i | 0 <= i < |newPoints|
      ensures SumAt(newPoints[i].0, gains) >= Dist2(c[newPoints[i].0], newPoints[i].1)
    {
      NewPointsGain(points, labels, c, m, newPoints, i, d);
    }
    GainsCoverTempDist(newPoints, gains, c);
    forall i | 0 <= i < |gains|
      ensures gains[i].0 in Map(KeyOf, newPoints)
    {
      assert HasKey(newPoints, labels[i]);
      var j :| 0 <= j < |newPoints| && newPoints[j].0 == labels[i];
      assert Map(KeyOf, newPoints)[j] == labels[i];
    }
    SumByKey(Map(KeyOf, newPoints), gains);
    ServedGain(points, labels, c, m);
  }

  /** Main result of an iteration: serving every point by its updated centre already costs at
      least tempDist less, and re-assigning the points can only lower the cost further. */
  lemma IterationDecreasesCost(points: seq<Vec>, c: seq<Vec>, newPoints: seq<(int, Vec)>, d: nat)
    requires c != [] || points == []
    requires Dims(points, d) && Dims(c, d)
    requires IsNewPoints(points, Labels(points, c), newPoints)
    ensures forall i :: 0 <= i < |newPoints| ==> 0 <= newPoints[i].0 < |c| && |newPoints[i].1| == d
    ensures var m := Updated(c, newPoints);
      && ServedCost(points, Labels(points, c), m) <= Cost(points, c) - TempDist(c, newPoints)
      && 0.0 <= Cost(points, m) <= ServedCost(points, Labels(points, c), m)
      && Dims(m, d)
  {
    TotalGain(points, Labels(points, c), c, newPoints, d);
    NearestIsCheapest(points, Labels(points, c), Updated(c, newPoints));
  }

  // ---------- The loop ----------

  lemma LabelledRows(points: seq<Vec>, c: seq<Vec>)
    ensures Map(Labelled(c), points) == Rows(points, Labels(points, c))
  {
  }

  /** What the job behind `newPoints` computes. */
  lemma ReducedToNewPoints(points: seq<Vec>, labels: seq<int>, stats: seq<(int, Stat)>)
    requires |labels| == |points|
    requires Reduced(Rows(points, labels), PlusStat, stats)
    ensures IsNewPoints(points, labels, Map(MeanRow, stats))
  {
    var rows, newPoints := Rows(points, labels), Map(MeanRow, stats);
    forall j | 0 <= j < |labels|
      ensures HasKey(newPoints, labels[j])
    {
      TotalSome(labels[j], rows, Identity, PlusStat);
      assert rows[j].0 == labels[j];
      var i :| 0 <= i < |stats| && stats[i].0 == labels[j];
      assert newPoints[i].0 == labels[j];
    }
  }

  /** The means of the clusters, with an irrelevant value for an empty cluster. */
  function Centroids(points: seq<Vec>, labels: seq<int>, k: nat): (r: seq<Vec>)
    requires |labels| == |points|
    ensures |r| == k
  {
    seq(k, x requires 0 <= x < k =>
      match ClusterStat(points, labels, x) case None => [] case Some(s) => Mean(s))
  }

  /** The cost of an assignment of points to clusters, whatever the centres were before. */
  function AssignmentCost(points: seq<Vec>, labels: seq<int>, k: nat): real
    requires Labelling(labels, |points|, k)
  {
    ServedCost(points, labels, Centroids(points, labels, k))
  }

  lemma {:induction false} ServedAgree(points: seq<Vec>, labels: seq<int>, c: seq<Vec>, m: seq<Vec>)
    requires |c| == |m| && Labelling(labels, |points|, |c|)
    requires forall i :: 0 <= i < |labels| ==> c[labels[i]] == m[labels[i]]
    ensures ServedCost(points, labels, c) == ServedCost(points, labels, m)
  {
    hide Dist2;
    if points != [] {
      var n := |points| - 1;
      ServedAgree(points[..n], labels[..n], c, m);
    }
  }

  lemma UpdatedCost(points: seq<Vec>, labels: seq<int>, c: seq<Vec>, newPoints: seq<(int, Vec)>, d: nat)
    requires Labelling(labels, |points|, |c|) && Dims(points, d) && Dims(c, d)
    requires IsNewPoints(points, labels, newPoints)
    requires forall i :: 0 <= i < |newPoints| ==> 0 <= newPoints[i].0 < |c| && |newPoints[i].1| == d
    ensures ServedCost(points, labels, Updated(c, newPoints)) == AssignmentCost(points, labels, |c|)
  {
    UpdatedAt(c, newPoints, d);
    var m := Updated(c, newPoints);
    forall i | 0 <= i < |labels|
      ensures m[labels[i]] == Centroids(points, labels, |c|)[labels[i]]
    {
      assert HasKey(newPoints, labels[i]);
      var j :| 0 <= j < |newPoints| && newPoints[j].0 == labels[i];
    }
    ServedAgree(points, labels, m, Centroids(points, labels, |c|));
  }

  /** Every assignment of n points to k clusters: finitely many. */
  ghost function AllLabels(n: nat, k: nat): set<seq<int>>
  {
    if n == 0 then {[]}
    else set s, x | s in AllLabels(n - 1, k) && x in Below(k) :: s + [x]
  }

  lemma {:induction false} AllLabelsComplete(l: seq<int>, n: nat, k: nat)
    requires Labelling(l, n, k)
    ensures l in AllLabels(n, k)
  {
    if n > 0 {
      AllLabelsComplete(l[..n - 1], n - 1, k);
      assert l == l[..n - 1] + [l[n - 1]] && l[n - 1] in Below(k);
    }
  }

  ghost function Cheaper(points: seq<Vec>, k: nat, bound: real): set<seq<int>>
  {
    set l | l in AllLabels(|points|, k) && Labelling(l, |points|, k) && AssignmentCost(points, l, k) < bound
  }

  /** An upper bound on the iterations still to come: how many assignments are cheaper than the last one. */
  ghost function Remaining(points: seq<Vec>, k: nat, last: Option<seq<int>>): nat
    requires last.Some? ==> Labelling(last.value, |points|, k)
  {
    match last
    case None => |AllLabels(|points|, k)| + 1
    case Some(l) => |Cheaper(points, k, AssignmentCost(points, l, k))|
  }

  lemma StrictSubset<T>(a: set<T>, b: set<T>)
    requires a < b
    ensures |a| < |b|
  {
    var rest := b - a;
    assert b == a + rest;
    assert rest != {};
  }

  lemma SubsetSize<T>(a: set<T>, b: set<T>)
    requires a <= b
    ensures |a| <= |b|
  {
    assert b == a + (b - a);
  }

  lemma FewerRemain(points: seq<Vec>, k: nat, last: Option<seq<int>>, next: seq<int>)
    requires Labelling(next, |points|, k)
    requires last.Some? ==> Labelling(last.value, |points|, k) && AssignmentCost(points, next, k) < AssignmentCost(points, last.value, k)
    ensures Remaining(points, k, Some(next)) < Remaining(points, k, last)
  {
    var after := Cheaper(points, k, AssignmentCost(points, next, k));
    if last.Some? {
      var before := Cheaper(points, k, AssignmentCost(points, last.value, k));
      AllLabelsComplete(next, |points|, k);
      assert next in before && next !in after;
      StrictSubset(after, before);
    } else {
      SubsetSize(after, AllLabels(|points|, k));
    }
  }

  /** Every non-empty cluster's centre is already its mean. */
  ghost predicate IsFixpoint(points: seq<Vec>, c: seq<Vec>)
  {
    forall x :: ClusterStat(points, Labels(points, c), x).Some? ==>
      0 <= x < |c| && c[x] == Mean(ClusterStat(points, Labels(points, c), x).value)
  }

  lemma NoMoveIsFixpoint(points: seq<Vec>, c: seq<Vec>, newPoints: seq<(int, Vec)>, d: nat)
    requires c != [] || points == []
    requires Dims(points, d) && Dims(c, d)
    requires IsNewPoints(points, Labels(points, c), newPoints)
    requires forall i :: 0 <= i < |newPoints| ==> 0 <= newPoints[i].0 < |c| && |newPoints[i].1| == d
    requires TempDist(c, newPoints) == 0.0
    ensures IsFixpoint(points, c) && Updated(c, newPoints) == c
  {
    TempDistNonNegative(c, newPoints);
    UpdatedAt(c, newPoints, d);
    var m := Updated(c, newPoints);
    forall i | 0 <= i < |newPoints|
      ensures newPoints[i].1 == c[newPoints[i].0]
    {
      Dist2NonNegative(c[newPoints[i].0], newPoints[i].1);
    }
    forall x | 0 <= x < |c|
      ensures m[x] == c[x]
    {
      if HasKey(newPoints, x) {
        var i :| 0 <= i < |newPoints| && newPoints[i].0 == x;
      }
    }
    forall x | ClusterStat(points, Labels(points, c), x).Some?
      ensures 0 <= x < |c| && c[x] == Mean(ClusterStat(points, Labels(points, c), x).value)
    {
      ClusterStatShape(points, Labels(points, c), x, d);
      assert HasKey(newPoints, x);
      var i :| 0 <= i < |newPoints| && newPoints[i].0 == x;
    }
  }

  /** With a negative convergeDist the guard holds after every iteration: the loop never ends. */
  lemma NegativeThresholdNeverStops(c: seq<Vec>, newPoints: seq<(int, Vec)>, convergeDist: real)
    requires forall i :: 0 <= i < |newPoints| ==> 0 <= newPoints[i].0 < |c|
    requires convergeDist < 0.0
    ensures TempDist(c, newPoints) > convergeDist && 1.0 > convergeDist
  {
    TempDistNonNegative(c, newPoints);
  }

  /** One pass of the loop body up to `newPoints`. */
  method NewPoints(data: seq<seq<Vec>>, kPoints: seq<Vec>, h: int -> int, numPartitions: int) returns (newPoints: seq<(int, Vec)>)
    requires numPartitions > 0
    ensures IsNewPoints(Flatten(data), Labels(Flatten(data), kPoints), newPoints)
  {
    var closest := MapParts(Labelled(kPoints), data);
    PlusStatAC();
    var pointStats := ReduceByKey(closest, PlusStat, h, numPartitions);
    newPoints := Flatten(MapParts(MeanRow, pointStats));
    FlattenMap(Labelled(kPoints), data);
    LabelledRows(Flatten(data), kPoints);
    FlattenMap(MeanRow, pointStats);
    ReducedToNewPoints(Flatten(data), Labels(Flatten(data), kPoints), Flatten(pointStats));
  }

  /** The loop body. */
  method Iterate(data: seq<seq<Vec>>, kPoints: seq<Vec>, d: nat, h: int -> int, numPartitions: int)
    returns (moved: seq<Vec>, tempDist: real)
    requires numPartitions > 0
    requires kPoints != [] || Flatten(data) == []
    requires Dims(Flatten(data), d) && Dims(kPoints, d)
    ensures |moved| == |kPoints| && Dims(moved, d) && tempDist >= 0.0
    ensures Labelling(Labels(Flatten(data), kPoints), |Flatten(data)|, |kPoints|)
    ensures 0.0 <= Cost(Flatten(data), moved) <= AssignmentCost(Flatten(data), Labels(Flatten(data), kPoints), |kPoints|)
    ensures AssignmentCost(Flatten(data), Labels(Flatten(data), kPoints), |kPoints|) <= Cost(Flatten(data), kPoints) - tempDist
    ensures tempDist == 0.0 ==> moved == kPoints && IsFixpoint(Flatten(data), moved)
    ensures IsLloydStep(Flatten(data), kPoints, moved, d)
    ensures tempDist == MoveSum(kPoints, moved)
  {
    hide Mul, Dist2, IsLloydStep, MoveSum;
    ghost var points := Flatten(data);
    var newPoints := NewPoints(data, kPoints, h, numPartitions);
    IterationDecreasesCost(points, kPoints, newPoints, d);
    UpdatedCost(points, Labels(points, kPoints), kPoints, newPoints, d);
    TempDistNonNegative(kPoints, newPoints);
    TempDistIsMoveSum(kPoints, newPoints, d);
    UpdatedIsLloydStep(points, kPoints, newPoints, d);
    tempDist := TempDist(kPoints, newPoints);
    if tempDist == 0.0 {
      NoMoveIsFixpoint(points, kPoints, newPoints, d);
    }
    moved := kPoints;
    for i := 0 to |newPoints|
      invariant |moved| == |kPoints|
      invariant moved == Updated(kPoints, newPoints[..i])
    {
      var (x, y) := newPoints[i];
      assert newPoints[..i + 1][..i] == newPoints[..i];
      moved := moved[x := y];
    }
    assert newPoints[..|newPoints|] == newPoints;
  }

  /** The centres before, between and after the iterations of a run that stops for its threshold:
      each iteration is a step of the algorithm, all but the last move the centres by more than the
      threshold in total, the last one does not; none is made if 1.0 is within the threshold. */
  ghost predicate IsTrace(points: seq<Vec>, trace: seq<seq<Vec>>, convergeDist: real, d: nat)
  {
    && trace != [] && (forall i :: 0 <= i < |trace| ==> |trace[i]| == |trace[0]|)
    && (|trace| == 1 <==> 1.0 <= convergeDist)
    && (forall i :: 0 <= i < |trace| - 1 ==> IsLloydStep(points, trace[i], trace[i + 1], d))
    && (forall i :: 0 <= i < |trace| - 2 ==> MoveSum(trace[i], trace[i + 1]) > convergeDist)
    && (|trace| > 1 ==> MoveSum(trace[|trace| - 2], trace[|trace| - 1]) <= convergeDist)
  }

  /** A trace still growing; dist is the loop's tempDist. */
  ghost predicate IsPartialTrace(points: seq<Vec>, trace: seq<seq<Vec>>, dist: real, convergeDist: real, d: nat)
  {
    && trace != [] && (forall i :: 0 <= i < |trace| ==> |trace[i]| == |trace[0]|)
    && (if |trace| == 1 then dist == 1.0 else 1.0 > convergeDist && dist == MoveSum(trace[|trace| - 2], trace[|trace| - 1]))
    && (forall i :: 0 <= i < |trace| - 1 ==> IsLloydStep(points, trace[i], trace[i + 1], d))
    && (forall i :: 0 <= i < |trace| - 2 ==> MoveSum(trace[i], trace[i + 1]) > convergeDist)
  }

  lemma TraceGrows(points: seq<Vec>, trace: seq<seq<Vec>>, dist: real, convergeDist: real, d: nat, next: seq<Vec>)
    requires IsPartialTrace(points, trace, dist, convergeDist, d) && dist > convergeDist
    requires |next| == |trace[|trace| - 1]| && IsLloydStep(points, trace[|trace| - 1], next, d)
    ensures IsPartialTrace(points, trace + [next], MoveSum(trace[|trace| - 1], next), convergeDist, d)
  {
    hide IsLloydStep, MoveSum;
    var longer := trace + [next];
    forall i | 0 <= i < |longer| - 2
      ensures MoveSum(longer[i], longer[i + 1]) > convergeDist
    {
      assert longer[i] == trace[i] && longer[i + 1] == trace[i + 1];
    }
  }

  lemma TraceStops(points: seq<Vec>, trace: seq<seq<Vec>>, dist: real, convergeDist: real, d: nat)
    requires IsPartialTrace(points, trace, dist, convergeDist, d) && dist <= convergeDist
    ensures IsTrace(points, trace, convergeDist, d)
  {
    hide IsLloydStep, MoveSum;
  }

  /** Where the loop stands on cost: kPoints is within the budget that the moves so far have left,
      and costs no more than serving the points by the last assignment. */
  ghost predicate Progress(points: seq<Vec>, initial: seq<Vec>, kPoints: seq<Vec>, dist: real, convergeDist: real,
                           iterations: nat, last: Option<seq<int>>)
    requires initial != [] || points == []
  {
    && |kPoints| == |initial| && 0.0 <= Cost(points, kPoints)
    && (last.None? <==> iterations == 0)
    && (if iterations == 0 then kPoints == initial && dist == 1.0
        else dist >= 0.0 && Mul((iterations - 1) as real, convergeDist) + dist <= Cost(points, initial) - Cost(points, kPoints))
    && (last.Some? ==>
          Labelling(last.value, |points|, |initial|) && Cost(points, kPoints) <= AssignmentCost(points, last.value, |initial|))
    && (iterations > 0 && dist == 0.0 ==> IsFixpoint(points, kPoints))
  }

  lemma ProgressStep(points: seq<Vec>, initial: seq<Vec>, kPoints: seq<Vec>, dist: real, convergeDist: real,
                     iterations: nat, last: Option<seq<int>>, next: seq<Vec>, nextDist: real)
    requires initial != [] || points == []
    requires Progress(points, initial, kPoints, dist, convergeDist, iterations, last)
    requires dist > convergeDist >= 0.0 && |next| == |kPoints| && nextDist >= 0.0
    requires Labelling(Labels(points, kPoints), |points|, |kPoints|)
    requires 0.0 <= Cost(points, next) <= AssignmentCost(points, Labels(points, kPoints), |kPoints|)
    requires AssignmentCost(points, Labels(points, kPoints), |kPoints|) <= Cost(points, kPoints) - nextDist
    requires nextDist == 0.0 ==> IsFixpoint(points, next)
    ensures Progress(points, initial, next, nextDist, convergeDist, iterations + 1, Some(Labels(points, kPoints)))
    ensures last.Some? ==> Labelling(last.value, |points|, |initial|)
    ensures nextDist > convergeDist ==> Remaining(points, |initial|, Some(Labels(points, kPoints))) < Remaining(points, |initial|, last)
  {
    hide Mul, Cost, AssignmentCost, IsFixpoint, Remaining, Labelling;
    BudgetStep(iterations, convergeDist, dist);
    if nextDist > convergeDist {
      FewerRemain(points, |initial|, last, Labels(points, kPoints));
    }
  }

  lemma ProgressDone(points: seq<Vec>, initial: seq<Vec>, kPoints: seq<Vec>, dist: real, convergeDist: real,
                     iterations: nat, last: Option<seq<int>>)
    requires initial != [] || points == []
    requires Progress(points, initial, kPoints, dist, convergeDist, iterations, last)
    requires 0.0 <= Cost(points, initial) && 0.0 <= convergeDist && dist <= convergeDist
    ensures |kPoints| == |initial| && 0.0 <= Cost(points, kPoints) <= Cost(points, initial)
    ensures iterations > 0 ==> Mul((iterations - 1) as real, convergeDist) <= Cost(points, initial) - Cost(points, kPoints)
    ensures convergeDist > 0.0 ==> iterations as real <= IterationLimit(Cost(points, initial), convergeDist)
    ensures convergeDist == 0.0 ==> IsFixpoint(points, kPoints)
  {
    hide Mul, Cost, AssignmentCost, IsFixpoint, IterationLimit, Labelling;
    if iterations > 0 {
      MulPositive((iterations - 1) as real, convergeDist);
    }
    if convergeDist > 0.0 {
      IterationBound(iterations, convergeDist, Cost(points, initial));
    }
  }

  /** The whole loop terminates for every non-negative threshold, exactly when the centres have
      settled within it; a positive one bounds the number of iterations by the initial cost, and
      with zero it stops only at a fixpoint. */
  method Run(data: seq<seq<Vec>>, initial: seq<Vec>, convergeDist: real, d: nat, h: int -> int, numPartitions: int)
    returns (kPoints: seq<Vec>, ghost iterations: nat, ghost trace: seq<seq<Vec>>)
    requires numPartitions > 0 && convergeDist >= 0.0
    requires initial != [] || Flatten(data) == []
    requires Dims(Flatten(data), d) && Dims(initial, d)
    ensures |kPoints| == |initial| && Dims(kPoints, d)
    ensures 0.0 <= Cost(Flatten(data), kPoints) <= Cost(Flatten(data), initial)
    ensures iterations > 0 ==>
      Mul((iterations - 1) as real, convergeDist) <= Cost(Flatten(data), initial) - Cost(Flatten(data), kPoints)
    ensures convergeDist > 0.0 ==> iterations as real <= IterationLimit(Cost(Flatten(data), initial), convergeDist)
    ensures convergeDist == 0.0 ==> IsFixpoint(Flatten(data), kPoints)
    ensures IsTrace(Flatten(data), trace, convergeDist, d)
    ensures |trace| == iterations + 1 && trace[0] == initial && trace[iterations] == kPoints
  {
    ghost var points := Flatten(data);
    ghost var last: Option<seq<int>> := None;
    NearestIsCheapest(points, Labels(points, initial), initial);
    kPoints, iterations, trace := initial, 0, [initial];
    var tempDist := 1.0;
    assert Progress(points, initial, kPoints, tempDist, convergeDist, iterations, last);
    assert IsPartialTrace(points, trace, tempDist, convergeDist, d);
    hide Mul, Cost, AssignmentCost, Labelling, Dims, IsFixpoint, IsLloydStep, MoveSum, IsPartialTrace, IsTrace, IterationLimit, Progress, Remaining, Labels;
    while tempDist > convergeDist
      invariant |kPoints| == |initial| && Dims(kPoints, d)
      invariant Progress(points, initial, kPoints, tempDist, convergeDist, iterations, last)
      invariant last.Some? ==> Labelling(last.value, |points|, |initial|)
      invariant |trace| == iterations + 1 && trace[0] == initial && trace[iterations] == kPoints
      invariant IsPartialTrace(points, trace, tempDist, convergeDist, d)
      decreases if tempDist > convergeDist then 1 + Remaining(points, |initial|, last) else 0
    {
      var next, nextDist := Iterate(data, kPoints, d, h, numPartitions);
      TraceGrows(points, trace, tempDist, convergeDist, d, next);
      ProgressStep(points, initial, kPoints, tempDist, convergeDist, iterations, last, next, nextDist);
      last, trace, iterations := Some(Labels(points, kPoints)), trace + [next], iterations + 1;
      kPoints, tempDist := next, nextDist;
    }
    TraceStops(points, trace, tempDist, convergeDist, d);
    ProgressDone(points, initial, kPoints, tempDist, convergeDist, iterations, last);
  }

  function IterationLimit(cost: real, conv: real): real
    requires conv > 0.0
  {
    cost / conv + 1.0
  }

  lemma IterationBound(i: nat, conv: real, cost: real)
    requires conv > 0.0 && cost >= 0.0
    requires i > 0 ==> Mul((i - 1) as real, conv) <= cost
    ensures i as real <= IterationLimit(cost, conv)
  {
    if i > 0 {
      assert (i - 1) as real <= cost / conv;
    } else {
      assert cost / conv >= 0.0;
    }
  }

  lemma BudgetStep(i: nat, conv: real, dist: real)
    requires conv >= 0.0 && dist > conv
    ensures i == 0 ==> Mul(i as real, conv) == 0.0
    ensures i > 0 ==> Mul(i as real, conv) <= Mul((i - 1) as real, conv) + dist
  {
    hide Mul;
    MulOne(conv);
    MulAdd(conv, (i - 1) as real, 1.0);
  }
}
