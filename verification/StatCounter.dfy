/** StatCounter (statcounter.py) over exact reals: streaming mean and squared deviations, their
    pairwise merge, and `stats()` over a partitioned data set. */
module StatCounters {
  import opened Reals
  import opened Seqs

  // ---------- What the fields must mean ----------

  /** Sum of squared deviations from m. */
  function Deviation(s: seq<real>, m: real): real
  {
    if s == [] then 0.0 else Deviation(s[..|s| - 1], m) + Sq(s[|s| - 1] - m)
  }

  lemma {:induction false} DeviationConcat(s: seq<real>, t: seq<real>, m: real)
    ensures Deviation(s + t, m) == Deviation(s, m) + Deviation(t, m)
  {
    hide Mul;
    if t == [] {
      assert s + t == s;
    } else {
      assert (s + t)[..|s + t| - 1] == s + t[..|t| - 1];
      DeviationConcat(s, t[..|t| - 1], m);
    }
  }

  /** Moving the reference point from a to b. */
  lemma {:induction false} DeviationShift(s: seq<real>, a: real, b: real)
    ensures Deviation(s, b) == Deviation(s, a) - 2.0 * Mul(b - a, Sum(s) - Mul(|s| as real, a)) + Mul(|s| as real, Sq(b - a))
  {
    hide Mul;
    if s == [] {
      MulOne(a);
      MulOne(Sq(b - a));
      MulOne(b - a);
    } else {
      var n := |s| - 1;
      var x, z, t := s[n], n as real, Sum(s[..n]);
      DeviationShift(s[..n], a, b);
      ShiftOne(x, a, b);
      MulAdd(a, z, 1.0);
      MulOne(a);
      MulAdd(Sq(b - a), z, 1.0);
      MulOne(Sq(b - a));
      MulAdd(b - a, t - Mul(z, a), x - a);
    }
  }

  lemma ShiftOne(x: real, a: real, b: real)
    ensures Sq(x - b) == Sq(x - a) - 2.0 * Mul(b - a, x - a) + Sq(b - a)
  {
  }

  /** Measured from the mean, the linear term vanishes. */
  lemma ShiftFromMean(s: seq<real>, a: real, b: real)
    requires Mul(|s| as real, a) == Sum(s)
    ensures Deviation(s, b) == Deviation(s, a) + Mul(|s| as real, Sq(b - a))
  {
    hide Mul;
    DeviationShift(s, a, b);
    MulOne(b - a);
  }

  /** -inf, a value, or +inf. */
  datatype Ext = NegInf | Fin(r: real) | PosInf
  {
    predicate Less(y: Ext)
    {
      match (this, y)
      case (NegInf, _) => y != NegInf
      case (Fin(a), Fin(b)) => a < b
      case (Fin(_), _) => y == PosInf
      case (PosInf, _) => false
    }

    function Neg(): Ext
    {
      match this
      case NegInf => PosInf
      case Fin(a) => Fin(0.0 - a)
      case PosInf => NegInf
    }

    function Max(y: Ext): Ext { if this.Less(y) then y else this }
    function Min(y: Ext): Ext { if y.Less(this) then y else this }
  }

  function MaxOf(s: seq<real>): Ext
  {
    if s == [] then NegInf else MaxOf(s[..|s| - 1]).Max(Fin(s[|s| - 1]))
  }

  function MinOf(s: seq<real>): Ext
  {
    if s == [] then PosInf else MinOf(s[..|s| - 1]).Min(Fin(s[|s| - 1]))
  }

  lemma {:induction false} ExtremesConcat(s: seq<real>, t: seq<real>)
    ensures MaxOf(s + t) == MaxOf(s).Max(MaxOf(t))
    ensures MinOf(s + t) == MinOf(s).Min(MinOf(t))
  {
    if t == [] {
      assert s + t == s;
    } else {
      assert (s + t)[..|s + t| - 1] == s + t[..|t| - 1];
      ExtremesConcat(s, t[..|t| - 1]);
    }
  }

  lemma {:induction false} ExtremesBound(s: seq<real>, i: nat)
    requires i < |s|
    ensures !MaxOf(s).Less(Fin(s[i])) && !Fin(s[i]).Less(MinOf(s))
    ensures MaxOf(s).Fin? && MaxOf(s).r in s && MinOf(s).Fin? && MinOf(s).r in s
  {
    var n := |s| - 1;
    if n > 0 {
      ExtremesBound(s[..n], if i < n then i else 0);
    }
  }

  // ---------- Arithmetic of the two updates ----------

  lemma StreamingStep(n: real, mu: real, v: real, mu2: real)
    requires n >= 0.0 && mu2 == mu + (v - mu) / (n + 1.0)
    ensures Mul(n + 1.0, mu2) == Mul(n, mu) + v
    ensures Mul(n, Sq(mu2 - mu)) + Sq(v - mu2) == Mul(v - mu, v - mu2)
  {
  }

  /** The mean of a merged counter, by one of three formulas. */
  function MergedMean(n: nat, mu: real, m: nat, nu: real): real
    requires n > 0 && m > 0
  {
    var delta := nu - mu;
    if m * 10 < n then mu + Mul(delta, m as real) / (n + m) as real
    else if n * 10 < m then nu - Mul(delta, n as real) / (n + m) as real
    else (Mul(mu, n as real) + Mul(nu, m as real)) / (n + m) as real
  }

  /** All three formulas give the mean of the concatenated data. */
  lemma MergedMeanBalances(n: nat, mu: real, m: nat, nu: real)
    requires n > 0 && m > 0
    ensures Mul((n + m) as real, MergedMean(n, mu, m, nu)) == Mul(n as real, mu) + Mul(m as real, nu)
  {
  }

  /** The cross term of the merge: `(delta * delta * n * m) / (n + m)`. */
  function CrossTerm(n: nat, mu: real, m: nat, nu: real): real
    requires n + m > 0
  {
    var delta := nu - mu;
    Mul(Mul(Sq(delta), n as real), m as real) / (n + m) as real
  }

  lemma CrossTermCorrect(n: nat, mu: real, m: nat, nu: real, mu2: real)
    requires n > 0 && m > 0
    requires Mul((n + m) as real, mu2) == Mul(n as real, mu) + Mul(m as real, nu)
    ensures Mul(n as real, Sq(mu2 - mu)) + Mul(m as real, Sq(mu2 - nu)) == CrossTerm(n, mu, m, nu)
  {
  }

  // ---------- The counter ----------

  /** n, mu and m2 are the count, the mean and the squared deviations of s. */
  ghost predicate Describes(n: nat, mu: real, m2: real, s: seq<real>)
  {
    && n == |s|
    && Mul(n as real, mu) == Sum(s)
    && (n == 0 ==> mu == 0.0)
    && m2 == Deviation(s, mu)
  }

  lemma StreamingCorrect(n: nat, mu: real, m2: real, s: seq<real>, v: real, mu2: real)
    requires Describes(n, mu, m2, s)
    requires mu2 == mu + (v - mu) / (n + 1) as real
    ensures Describes(n + 1, mu2, m2 + Mul(v - mu, v - mu2), s + [v])
  {
    hide Mul;
    StreamingStep(n as real, mu, v, mu2);
    ShiftFromMean(s, mu, mu2);
    SumSnoc(s, v);
    DeviationConcat(s, [v], mu2);
    assert Deviation([v], mu2) == Sq(v - mu2);
  }

  lemma MergeCorrect(n: nat, mu: real, m2: real, s: seq<real>, m: nat, nu: real, w2: real, t: seq<real>)
    requires n > 0 && m > 0 && Describes(n, mu, m2, s) && Describes(m, nu, w2, t)
    ensures Describes(n + m, MergedMean(n, mu, m, nu), m2 + w2 + CrossTerm(n, mu, m, nu), s + t)
  {
    hide Mul, MergedMean, CrossTerm;
    var mu2 := MergedMean(n, mu, m, nu);
    MergedMeanBalances(n, mu, m, nu);
    CrossTermCorrect(n, mu, m, nu, mu2);
    ShiftFromMean(s, mu, mu2);
    ShiftFromMean(t, nu, mu2);
    DeviationConcat(s, t, mu2);
    SumConcat(s, t);
  }

  /** Sizes within a factor of ten: the only branch that also merges the extremes. */
  predicate Balanced(n: nat, m: nat)
  {
    !(m * 10 < n) && !(n * 10 < m)
  }

  /** maxValue after mergeStats. */
  function MergedMax(n: nat, a: Ext, m: nat, b: Ext): Ext
  {
    if n == 0 then b else if m == 0 then a else if Balanced(n, m) then a.Max(b) else a
  }

  function MergedMin(n: nat, a: Ext, m: nat, b: Ext): Ext
  {
    if n == 0 then b else if m == 0 then a else if Balanced(n, m) then a.Min(b) else a
  }

  class StatCounter {
    var n: nat
    var mu: real
    var m2: real
    var maxValue: Ext
    var minValue: Ext
    ghost var values: seq<real>  // everything merged in so far

    ghost predicate Valid()
      reads this
    {
      Describes(n, mu, m2, values)
    }

    constructor Empty()
      ensures Valid() && values == [] && maxValue == NegInf && minValue == PosInf
    {
      n, mu, m2 := 0, 0.0, 0.0;
      maxValue, minValue := NegInf, PosInf;
      values := [];
      new;
      MulOne(0.0);
    }

    method Merge(value: real)
      requires Valid()
      modifies this
      ensures Valid() && values == old(values) + [value]
      ensures maxValue == old(maxValue).Max(Fin(value)) && minValue == old(minValue).Min(Fin(value))
    {
      hide Describes, Mul;
      assert Valid();
      ghost var mu1, m21, n1 := mu, m2, n;
      var delta := value - mu;
      n := n + 1;
      mu := mu + delta / n as real;
      m2 := m2 + Mul(delta, value - mu);
      if maxValue.Less(Fin(value)) {
        maxValue := Fin(value);
      }
      if Fin(value).Less(minValue) {
        minValue := Fin(value);
      }
      StreamingCorrect(n1, mu1, m21, values, value, mu);
      values := values + [value];
    }

    /** False stands for the TypeError raised when a counter is merged with itself: the copy is
        passed to `merge`, which subtracts a number from a counter before changing anything. */
    method MergeStats(other: StatCounter) returns (ok: bool)
      requires Valid() && other.Valid()
      modifies this
      ensures ok <==> other != this
      ensures !ok ==> unchanged(this)
      ensures ok ==> Valid() && values == old(values) + other.values
      ensures ok ==> maxValue == MergedMax(old(n), old(maxValue), other.n, other.maxValue)
      ensures ok ==> minValue == MergedMin(old(n), old(minValue), other.n, other.minValue)
      ensures ok && old(n) > 0 && other.n > 0 && (old(n) > 10 * other.n || other.n > 10 * old(n)) ==>
                maxValue == old(maxValue) && minValue == old(minValue)
      ensures ok && old(n) > 0 && other.n > 0 && old(n) <= 10 * other.n && other.n <= 10 * old(n) ==>
                maxValue == old(maxValue).Max(other.maxValue) && minValue == old(minValue).Min(other.minValue)
    {
      if other == this {
        return false;
      }
      hide Mul;
      ghost var s, t := values, other.values;
      if n == 0 {
        mu := other.mu;
        m2 := other.m2;
        n := other.n;
        maxValue := other.maxValue;
        minValue := other.minValue;
        assert s + t == t;
      } else if other.n != 0 {
        MergeCorrect(n, mu, m2, s, other.n, other.mu, other.m2, t);
        hide Describes;
        ghost var n1, mu1 := n, mu;
        var delta := other.mu - mu;
        if other.n * 10 < n {
          mu := mu + Mul(delta, other.n as real) / (n + other.n) as real;
        } else if n * 10 < other.n {
          mu := other.mu - Mul(delta, n as real) / (n + other.n) as real;
        } else {
          mu := (Mul(mu, n as real) + Mul(other.mu, other.n as real)) / (n + other.n) as real;
          maxValue := maxValue.Max(other.maxValue);
          minValue := minValue.Min(other.minValue);
        }
        m2 := m2 + other.m2 + Mul(Mul(Sq(delta), n as real), other.n as real) / (n + other.n) as real;
        n := n + other.n;
        assert m2 == old(m2) + other.m2 + CrossTerm(n1, mu1, other.n, other.mu);
      } else {
        assert s + t == s;
      }
      values := s + t;
      ok := true;
    }

    method Variance() returns (v: Option<real>)
      requires Valid()
      ensures v.None? <==> values == []
      ensures v.Some? ==> Mul(|values| as real, v.value) == Deviation(values, mu)
      ensures v.Some? ==> mu == Sum(values) / |values| as real
    {
      if n == 0 {
        v := None;  // nan
      } else {
        v := Some(m2 / n as real);
        Quotient(m2, n as real);
        MeanIsQuotient(n as real, mu, Sum(values));
      }
    }

    method SampleVariance() returns (v: Option<real>)
      requires Valid()
      ensures v.None? <==> |values| <= 1
      ensures v.Some? ==> Mul((|values| - 1) as real, v.value) == Deviation(values, mu)
    {
      if n <= 1 {
        v := None;  // nan
      } else {
        v := Some(m2 / (n - 1) as real);
        Quotient(m2, (n - 1) as real);
      }
    }
  }

  lemma MeanIsQuotient(n: real, mu: real, sum: real)
    requires n > 0.0 && Mul(n, mu) == sum
    ensures mu == sum / n
  {
  }

  lemma {:induction false} DeviationPerm(s: seq<real>, t: seq<real>, m: real)
    requires multiset(s) == multiset(t)
    ensures Deviation(s, m) == Deviation(t, m)
  {
    hide Mul;
    if s == [] {
      assert |multiset(t)| == 0;
    } else {
      var n := |s| - 1;
      var a, b := TakeOut(s, t);
      DeviationPerm(s[..n], a + b, m);
      DeviationConcat(a, b, m);
      DeviationConcat(a + [s[n]], b, m);
      DeviationConcat(a, [s[n]], m);
    }
  }

  /** Count, mean and squared deviations depend only on the values, however they were partitioned,
      ordered and merged. */
  lemma StatsIgnorePartitioning(n: nat, mu: real, m2: real, s: seq<real>, m: nat, nu: real, w2: real, t: seq<real>)
    requires Describes(n, mu, m2, s) && Describes(m, nu, w2, t) && multiset(s) == multiset(t)
    ensures n == m && mu == nu && m2 == w2
  {
    assert |multiset(s)| == |s| && |multiset(t)| == |t|;
    SumPerm(s, t);
    DeviationPerm(s, t, mu);
    if n > 0 {
      MeanIsQuotient(n as real, mu, Sum(s));
      MeanIsQuotient(n as real, nu, Sum(s));
    }
  }

  // ---------- The extremes ----------

  /** Exactly when one merge keeps the maximum right, given that both operands have theirs. */
  lemma MaxMergeExact(s: seq<real>, t: seq<real>)
    ensures MergedMax(|s|, MaxOf(s), |t|, MaxOf(t)) == MaxOf(s + t) <==>
            s == [] || t == [] || (|s| <= 10 * |t| && |t| <= 10 * |s|) || !MaxOf(s).Less(MaxOf(t))
    ensures MergedMin(|s|, MinOf(s), |t|, MinOf(t)) == MinOf(s + t) <==>
            s == [] || t == [] || (|s| <= 10 * |t| && |t| <= 10 * |s|) || !MinOf(t).Less(MinOf(s))
  {
    ExtremesConcat(s, t);
  }

  /** maxValue of `stats()`: partitions merged left to right. */
  function StatsMax(parts: seq<seq<real>>): Ext
  {
    if parts == [] then NegInf
    else
      var init, last := parts[..|parts| - 1], parts[|parts| - 1];
      MergedMax(|Flatten(init)|, StatsMax(init), |last|, MaxOf(last))
  }

  function StatsMin(parts: seq<seq<real>>): Ext
  {
    if parts == [] then PosInf
    else
      var init, last := parts[..|parts| - 1], parts[|parts| - 1];
      MergedMin(|Flatten(init)|, StatsMin(init), |last|, MinOf(last))
  }

  /** Partition i's extremes enter the result: nothing came before it, or it is within a factor of
      ten of all that did. Decided by sizes alone. */
  ghost predicate Absorbed(parts: seq<seq<real>>, i: nat)
    requires i < |parts|
  {
    var before := |Flatten(parts[..i])|;
    parts[i] != [] && (before == 0 || Balanced(before, |parts[i]|))
  }

  /** The value m is the maximum of an absorbed partition. */
  ghost predicate Attained(parts: seq<seq<real>>, m: Ext)
  {
    exists i :: 0 <= i < |parts| && Absorbed(parts, i) && MaxOf(parts[i]) == m
  }

  lemma AttainedSnoc(parts: seq<seq<real>>, m: Ext)
    requires parts != []
    ensures var n := |parts| - 1;
      Attained(parts, m) <==> Attained(parts[..n], m) || (Absorbed(parts, n) && MaxOf(parts[n]) == m)
  {
    hide Flatten, MaxOf;
    var n := |parts| - 1;
    var init := parts[..n];
    forall i | 0 <= i < n
      ensures Absorbed(init, i) <==> Absorbed(parts, i)
    {
      assert init[..i] == parts[..i];
    }
    hide Absorbed;
    if Attained(init, m) {
      var i :| 0 <= i < n && Absorbed(init, i) && MaxOf(init[i]) == m;
      assert Absorbed(parts, i) && MaxOf(parts[i]) == m;
    }
    if Attained(parts, m) && !(Absorbed(parts, n) && MaxOf(parts[n]) == m) {
      var i :| 0 <= i < |parts| && Absorbed(parts, i) && MaxOf(parts[i]) == m;
      assert Absorbed(init, i) && MaxOf(init[i]) == m;
    }
  }

  lemma AttainedIsBelow(parts: seq<seq<real>>, m: Ext)
    requires Attained(parts, m)
    ensures !MaxOf(Flatten(parts)).Less(m) && m != NegInf
  {
    var i :| 0 <= i < |parts| && Absorbed(parts, i) && MaxOf(parts[i]) == m;
    PartMax(parts, i);
    NonEmptyMax(parts[i]);
  }

  /** `stats()` reports the true maximum exactly when some absorbed partition attains it. */
  lemma {:induction false} StatsMaxExact(parts: seq<seq<real>>)
    ensures !MaxOf(Flatten(parts)).Less(StatsMax(parts))
    ensures StatsMax(parts) == MaxOf(Flatten(parts)) <==> Flatten(parts) == [] || Attained(parts, MaxOf(Flatten(parts)))
  {
    if parts != [] {
      var n := |parts| - 1;
      var init, last := parts[..n], parts[n];
      var m := MaxOf(Flatten(parts));
      FlattenSnoc(parts, n);
      assert parts[..n + 1] == parts;
      hide Attained, MaxOf, Flatten;
      StatsMaxExact(init);
      ExtremesConcat(Flatten(init), last);
      NonEmptyMax(Flatten(init));
      NonEmptyMax(last);
      AttainedSnoc(parts, m);
      if Attained(init, m) {
        AttainedIsBelow(init, m);
      }
    } else {
      assert Flatten(parts) == [];
    }
  }

  // The minimum is the maximum of the negated values, negated.

  function Minus(x: real): real { 0.0 - x }

  lemma {:induction false} MinByNegation(s: seq<real>)
    ensures MinOf(s) == MaxOf(Map(Minus, s)).Neg()
  {
    if s != [] {
      MinByNegation(s[..|s| - 1]);
      assert Map(Minus, s)[..|s| - 1] == Map(Minus, s[..|s| - 1]);
    }
  }

  lemma {:induction false} StatsMinByNegation(parts: seq<seq<real>>)
    ensures StatsMin(parts) == StatsMax(MapParts(Minus, parts)).Neg()
  {
    hide MaxOf, MinOf, Flatten;
    if parts != [] {
      var init := parts[..|parts| - 1];
      StatsMinByNegation(init);
      assert MapParts(Minus, parts)[..|parts| - 1] == MapParts(Minus, init);
      FlattenMap(Minus, init);
      MinByNegation(parts[|parts| - 1]);
    }
  }

  /** The same for the minimum. */
  lemma StatsMinExact(parts: seq<seq<real>>)
    ensures !StatsMin(parts).Less(MinOf(Flatten(parts)))
    ensures StatsMin(parts) == MinOf(Flatten(parts)) <==>
            Flatten(parts) == [] || exists i :: 0 <= i < |parts| && Absorbed(parts, i) && MinOf(parts[i]) == MinOf(Flatten(parts))
  {
    hide Flatten, MaxOf, MinOf, StatsMax, StatsMin, Absorbed, Map, MapParts;
    var negated := MapParts(Minus, parts);
    FlattenMap(Minus, parts);
    StatsMinByNegation(parts);
    MinByNegation(Flatten(parts));
    StatsMaxExact(negated);
    assert Flatten(negated) == [] <==> Flatten(parts) == [];
    assert |negated| == |parts|;
    var least, greatest := MinOf(Flatten(parts)), MaxOf(Flatten(negated));
    assert least == greatest.Neg() && greatest == least.Neg();
    forall i | 0 <= i < |parts|
      ensures Absorbed(negated, i) && MaxOf(negated[i]) == greatest <==> Absorbed(parts, i) && MinOf(parts[i]) == least
    {
      NegatedPart(parts, i);
    }
  }

  lemma NegatedPart(parts: seq<seq<real>>, i: nat)
    requires i < |parts|
    ensures Absorbed(MapParts(Minus, parts), i) <==> Absorbed(parts, i)
    ensures MaxOf(MapParts(Minus, parts)[i]) == MinOf(parts[i]).Neg()
  {
    MinByNegation(parts[i]);
    assert MapParts(Minus, parts)[..i] == MapParts(Minus, parts[..i]);
    FlattenMap(Minus, parts[..i]);
  }

  lemma NonEmptyMax(s: seq<real>)
    ensures s == [] <==> MaxOf(s) == NegInf
    ensures MaxOf(s) != PosInf
  {
    if s != [] {
      ExtremesBound(s, 0);
    }
  }

  lemma PartMax(parts: seq<seq<real>>, i: nat)
    requires i < |parts|
    ensures !MaxOf(Flatten(parts)).Less(MaxOf(parts[i]))
  {
    hide Flatten, MaxOf, MinOf;
    assert parts == parts[..i] + [parts[i]] + parts[i + 1..];
    FlattenConcat(parts[..i] + [parts[i]], parts[i + 1..]);
    FlattenConcat(parts[..i], [parts[i]]);
    FlattenOne(parts[i]);
    ExtremesConcat(Flatten(parts[..i]) + parts[i], Flatten(parts[i + 1..]));
    ExtremesConcat(Flatten(parts[..i]), parts[i]);
    NonEmptyMax(parts[i]);
  }

  /** Eleven zeros and a one: `stats()` misses the maximum in one order of the partitions. */
  lemma StatsMaxCanBeWrong()
    ensures StatsMax([seq(11, i => 0.0), [1.0]]) == Fin(0.0)
    ensures MaxOf(Flatten([seq(11, i => 0.0), [1.0]])) == Fin(1.0)
  {
    var z: seq<real> := seq(11, i => 0.0);
    var parts := [z, [1.0]];
    assert parts[..1] == [z] && [z][..0] == [] && parts[1..] == [[1.0]];
    FlattenOne(z);
    FlattenOne([1.0]);
    ExtremesBound(z, 0);
    assert MaxOf(z) == Fin(0.0);
    assert StatsMax([z]) == Fin(0.0);
    ExtremesConcat(z, [1.0]);
  }

  /** `stats()`: one counter per partition, merged by the driver. None stands for the TypeError of
      reducing an empty list of counters. */
  method Stats(parts: seq<seq<real>>) returns (r: StatCounter?)
    ensures r == null <==> parts == []
    ensures r != null ==> r.Valid() && r.values == Flatten(parts)
    ensures r != null ==> r.maxValue == StatsMax(parts) && r.minValue == StatsMin(parts)
  {
    if parts == [] {
      return null;
    }
    var acc := FromValues(parts[0]);
    assert parts[..1] == [parts[0]] && [parts[0]][..0] == [];
    FlattenOne(parts[0]);
    for i := 1 to |parts|
      invariant fresh(acc) && acc.Valid() && acc.values == Flatten(parts[..i])
      invariant acc.maxValue == StatsMax(parts[..i]) && acc.minValue == StatsMin(parts[..i])
    {
      var counter := FromValues(parts[i]);
      FlattenSnoc(parts, i);
      assert parts[..i + 1][..i] == parts[..i];
      var ok := acc.MergeStats(counter);
    }
    assert parts[..|parts|] == parts;
    r := acc;
  }

  /** `StatCounter(values)` */
  method FromValues(values: seq<real>) returns (c: StatCounter)
    ensures fresh(c) && c.Valid() && c.values == values
    ensures c.maxValue == MaxOf(values) && c.minValue == MinOf(values)
  {
    c := new StatCounter.Empty();
    for i := 0 to |values|
      invariant fresh(c) && c.Valid() && c.values == values[..i]
      invariant c.maxValue == MaxOf(values[..i]) && c.minValue == MinOf(values[..i])
    {
      assert values[..i + 1] == values[..i] + [values[i]];
      assert values[..i + 1][..i] == values[..i];
      c.Merge(values[i]);
    }
    assert values[..|values|] == values;
  }
}
