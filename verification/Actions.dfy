/** The actions of rdd.py that fold partitions on the workers and the results on the driver:
    `reduce`, `fold`, `aggregate` and `take`. */
module Actions {
  import opened Seqs
  import opened Shuffle

  /** Python's `reduce(f, s, acc)`. */
  function FoldLeft<A, B>(f: (A, B) -> A, acc: A, s: seq<B>): A
  {
    if s == [] then acc else f(FoldLeft(f, acc, s[..|s| - 1]), s[|s| - 1])
  }

  lemma {:induction false} FoldConcat<A, B>(f: (A, B) -> A, acc: A, s: seq<B>, t: seq<B>)
    ensures FoldLeft(f, acc, s + t) == FoldLeft(f, FoldLeft(f, acc, s), t)
  {
    if t == [] {
      assert s + t == s;
    } else {
      assert (s + t)[..|s + t| - 1] == s + t[..|t| - 1];
      FoldConcat(f, acc, s, t[..|t| - 1]);
    }
  }

  lemma FoldSnoc<A, B>(f: (A, B) -> A, acc: A, s: seq<B>, i: nat)
    requires i < |s|
    ensures FoldLeft(f, acc, s[..i + 1]) == f(FoldLeft(f, acc, s[..i]), s[i])
  {
    assert s[..i + 1][..i] == s[..i];
  }

  lemma FoldFew<A, B>(f: (A, B) -> A, acc: A, x: B, y: B)
    ensures FoldLeft(f, acc, [x]) == f(acc, x)
    ensures FoldLeft(f, acc, [x, y]) == f(f(acc, x), y)
  {
    assert [x][..0] == [] && [x, y][..1] == [x];
  }

  ghost predicate Neutral<T(!new)>(op: (T, T) -> T, zero: T)
  {
    forall x :: op(zero, x) == x == op(x, zero)
  }

  // ---------- fold ----------

  /** The worker's step reverses the arguments: `acc = op(obj, acc)`. */
  function Reversed<T>(op: (T, T) -> T): (T, T) -> T
  {
    (acc, obj) => op(obj, acc)
  }

  function LocalFold<T>(op: (T, T) -> T, zero: T): seq<T> -> T
  {
    p => FoldLeft(Reversed(op), zero, p)
  }

  /** What `fold` computes. */
  function FoldOf<T>(parts: seq<seq<T>>, zero: T, op: (T, T) -> T): T
  {
    FoldLeft(op, zero, Map(LocalFold(op, zero), parts))
  }

  method Fold<T>(parts: seq<seq<T>>, zero: T, op: (T, T) -> T) returns (acc: T)
    ensures acc == FoldOf(parts, zero, op)
  {
    var vals: seq<T> := [];
    for i := 0 to |parts|
      invariant vals == Map(LocalFold(op, zero), parts[..i])
    {
      var local := zero;
      for j := 0 to |parts[i]|
        invariant local == FoldLeft(Reversed(op), zero, parts[i][..j])
      {
        FoldSnoc(Reversed(op), zero, parts[i], j);
        local := op(parts[i][j], local);
      }
      assert parts[i][..|parts[i]|] == parts[i];
      vals := vals + [local];
    }
    assert parts[..|parts|] == parts;
    acc := zero;
    for i := 0 to |vals|
      invariant acc == FoldLeft(op, zero, vals[..i])
    {
      FoldSnoc(op, zero, vals, i);
      acc := op(acc, vals[i]);
    }
    assert vals[..|vals|] == vals;
  }

  /** s back to front. */
  function Backwards<T>(s: seq<T>): (r: seq<T>)
    ensures |r| == |s|
    ensures forall i :: 0 <= i < |s| ==> r[i] == s[|s| - 1 - i]
  {
    seq(|s|, i requires 0 <= i < |s| => s[|s| - 1 - i])
  }

  lemma {:induction false} FoldPullsOut<T(!new)>(op: (T, T) -> T, zero: T, x: T, s: seq<T>)
    requires Associative(op) && Neutral(op, zero)
    ensures FoldLeft(op, x, s) == op(x, FoldLeft(op, zero, s))
  {
    if s != [] {
      FoldPullsOut(op, zero, x, s[..|s| - 1]);
    }
  }

  lemma {:induction false} LocalFoldIsBackwards<T(!new)>(op: (T, T) -> T, zero: T, s: seq<T>)
    requires Associative(op) && Neutral(op, zero)
    ensures FoldLeft(Reversed(op), zero, s) == FoldLeft(op, zero, Backwards(s))
  {
    if s != [] {
      var n := |s| - 1;
      LocalFoldIsBackwards(op, zero, s[..n]);
      assert Backwards(s) == [s[n]] + Backwards(s[..n]);
      FoldConcat(op, zero, [s[n]], Backwards(s[..n]));
      assert [s[n]][..0] == [];
      FoldPullsOut(op, zero, s[n], Backwards(s[..n]));
    }
  }

  function BackwardsOf<T>(parts: seq<seq<T>>): (r: seq<seq<T>>)
    ensures |r| == |parts|
  {
    seq(|parts|, i requires 0 <= i < |parts| => Backwards(parts[i]))
  }

  /** With an associative op and a neutral zero, `fold` folds the data with every partition taken
      back to front. */
  lemma {:induction false} FoldIsBackwards<T(!new)>(parts: seq<seq<T>>, zero: T, op: (T, T) -> T)
    requires Associative(op) && Neutral(op, zero)
    ensures FoldOf(parts, zero, op) == FoldLeft(op, zero, Flatten(BackwardsOf(parts)))
  {
    hide Associative, Neutral;
    if parts != [] {
      var n := |parts| - 1;
      FoldIsBackwards(parts[..n], zero, op);
      assert Map(LocalFold(op, zero), parts)[..n] == Map(LocalFold(op, zero), parts[..n]);
      assert BackwardsOf(parts) == BackwardsOf(parts[..n]) + [Backwards(parts[n])];
      FlattenConcat(BackwardsOf(parts[..n]), [Backwards(parts[n])]);
      FlattenOne(Backwards(parts[n]));
      LocalFoldIsBackwards(op, zero, parts[n]);
      FoldConcat(op, zero, Flatten(BackwardsOf(parts[..n])), Backwards(parts[n]));
      FoldPullsOut(op, zero, FoldLeft(op, zero, Flatten(BackwardsOf(parts[..n]))), Backwards(parts[n]));
    }
  }

  lemma {:induction false} CommutativeLocalFold<T(!new)>(op: (T, T) -> T, zero: T, s: seq<T>)
    requires Commutative(op)
    ensures FoldLeft(Reversed(op), zero, s) == FoldLeft(op, zero, s)
  {
    if s != [] {
      CommutativeLocalFold(op, zero, s[..|s| - 1]);
    }
  }

  lemma {:induction false} CommutativeFold<T(!new)>(parts: seq<seq<T>>, zero: T, op: (T, T) -> T)
    requires AC(op) && Neutral(op, zero)
    ensures FoldOf(parts, zero, op) == FoldLeft(op, zero, Flatten(parts))
  {
    hide Associative, Commutative, Neutral;
    if parts != [] {
      var n := |parts| - 1;
      CommutativeFold(parts[..n], zero, op);
      assert Map(LocalFold(op, zero), parts)[..n] == Map(LocalFold(op, zero), parts[..n]);
      CommutativeLocalFold(op, zero, parts[n]);
      FlattenSnoc(parts, n);
      assert parts[..n + 1] == parts;
      FoldConcat(op, zero, Flatten(parts[..n]), parts[n]);
      FoldPullsOut(op, zero, FoldLeft(op, zero, Flatten(parts[..n])), parts[n]);
    }
  }

  /** Main result: `fold` asks for an associative function only, but it agrees with the sequential
      fold on every partitioning exactly when the function is commutative too. */
  lemma FoldExact<T(!new)>(zero: T, op: (T, T) -> T)
    requires Associative(op) && Neutral(op, zero)
    ensures Commutative(op) <==> forall parts :: FoldOf(parts, zero, op) == FoldLeft(op, zero, Flatten(parts))
  {
    if Commutative(op) {
      forall parts
        ensures FoldOf(parts, zero, op) == FoldLeft(op, zero, Flatten(parts))
      {
        CommutativeFold(parts, zero, op);
      }
    }
    if forall parts :: FoldOf(parts, zero, op) == FoldLeft(op, zero, Flatten(parts)) {
      forall x, y
        ensures op(x, y) == op(y, x)
      {
        TwoElements(zero, op, x, y);
        assert FoldOf([[x, y]], zero, op) == FoldLeft(op, zero, Flatten([[x, y]]));
      }
    }
  }

  lemma TwoElements<T(!new)>(zero: T, op: (T, T) -> T, x: T, y: T)
    requires Associative(op) && Neutral(op, zero)
    ensures FoldOf([[x, y]], zero, op) == op(y, x)
    ensures FoldLeft(op, zero, Flatten([[x, y]])) == op(x, y)
  {
    FlattenOne([x, y]);
    FoldFew(op, zero, x, y);
    FoldFew(Reversed(op), zero, x, y);
    assert Map(LocalFold(op, zero), [[x, y]]) == [op(y, x)];
    FoldFew(op, zero, op(y, x), y);
  }

  // ---------- aggregate ----------

  function LocalAggregate<A, B>(seqOp: (A, B) -> A, zero: A): seq<B> -> seq<A>
  {
    p => [FoldLeft(seqOp, zero, p)]
  }

  /** mapPartitions(func).fold(zeroValue, combOp) */
  function AggregateOf<A, B>(parts: seq<seq<B>>, zero: A, seqOp: (A, B) -> A, combOp: (A, A) -> A): A
  {
    FoldOf(Map(LocalAggregate(seqOp, zero), parts), zero, combOp)
  }

  method Aggregate<A, B>(parts: seq<seq<B>>, zero: A, seqOp: (A, B) -> A, combOp: (A, A) -> A) returns (acc: A)
    ensures acc == AggregateOf(parts, zero, seqOp, combOp)
  {
    var vals: seq<seq<A>> := [];
    for i := 0 to |parts|
      invariant vals == Map(LocalAggregate(seqOp, zero), parts[..i])
    {
      var local := zero;
      for j := 0 to |parts[i]|
        invariant local == FoldLeft(seqOp, zero, parts[i][..j])
      {
        FoldSnoc(seqOp, zero, parts[i], j);
        local := seqOp(local, parts[i][j]);
      }
      assert parts[i][..|parts[i]|] == parts[i];
      vals := vals + [[local]];
    }
    assert parts[..|parts|] == parts;
    acc := Fold(vals, zero, combOp);
  }

  /** combOp takes a step of seqOp in its right operand outside. */
  ghost predicate StepsThrough<A(!new), B(!new)>(seqOp: (A, B) -> A, combOp: (A, A) -> A)
  {
    forall a, b, x :: combOp(a, seqOp(b, x)) == seqOp(combOp(a, b), x)
  }

  /** Combining the folds of two lists is folding their concatenation. */
  ghost predicate Merges<A(!new), B(!new)>(seqOp: (A, B) -> A, combOp: (A, A) -> A, zero: A)
  {
    forall s, t :: combOp(FoldLeft(seqOp, zero, s), FoldLeft(seqOp, zero, t)) == FoldLeft(seqOp, zero, s + t)
  }

  lemma {:induction false} SeqOpCommutesWithComb<A(!new), B(!new)>(seqOp: (A, B) -> A, combOp: (A, A) -> A, zero: A, a: A, s: seq<B>)
    requires Neutral(combOp, zero) && StepsThrough(seqOp, combOp)
    ensures combOp(a, FoldLeft(seqOp, zero, s)) == FoldLeft(seqOp, a, s)
  {
    if s != [] {
      SeqOpCommutesWithComb(seqOp, combOp, zero, a, s[..|s| - 1]);
    }
  }

  lemma StepsThroughMerges<A(!new), B(!new)>(seqOp: (A, B) -> A, combOp: (A, A) -> A, zero: A)
    requires Neutral(combOp, zero) && StepsThrough(seqOp, combOp)
    ensures Merges(seqOp, combOp, zero)
  {
    hide Neutral, StepsThrough, FoldLeft;
    forall s, t
      ensures combOp(FoldLeft(seqOp, zero, s), FoldLeft(seqOp, zero, t)) == FoldLeft(seqOp, zero, s + t)
    {
      SeqOpCommutesWithComb(seqOp, combOp, zero, FoldLeft(seqOp, zero, s), t);
      FoldConcat(seqOp, zero, s, t);
    }
  }

  /** The fold of `aggregate` meets one value per partition, so its reversed step only ever combines
      with the zero. */
  lemma LocalFoldOfOne<A(!new)>(op: (A, A) -> A, zero: A, x: A)
    requires Neutral(op, zero)
    ensures LocalFold(op, zero)([x]) == x
  {
    FoldFew(Reversed(op), zero, x, x);
  }

  lemma AggregateSnoc<A(!new), B(!new)>(parts: seq<seq<B>>, p: seq<B>, zero: A, seqOp: (A, B) -> A, combOp: (A, A) -> A)
    requires Neutral(combOp, zero)
    ensures AggregateOf(parts + [p], zero, seqOp, combOp)
         == combOp(AggregateOf(parts, zero, seqOp, combOp), FoldLeft(seqOp, zero, p))
  {
    hide Neutral, LocalFold;
    var vals := Map(LocalAggregate(seqOp, zero), parts);
    var last := FoldLeft(seqOp, zero, p);
    LocalFoldOfOne(combOp, zero, last);
    assert Map(LocalAggregate(seqOp, zero), parts + [p]) == vals + [[last]];
    var folds := Map(LocalFold(combOp, zero), vals);
    assert Map(LocalFold(combOp, zero), vals + [[last]]) == folds + [last];
    assert (folds + [last])[..|folds|] == folds;
  }

  lemma MergesAt<A(!new), B(!new)>(seqOp: (A, B) -> A, combOp: (A, A) -> A, zero: A, s: seq<B>, t: seq<B>)
    requires Merges(seqOp, combOp, zero)
    ensures combOp(FoldLeft(seqOp, zero, s), FoldLeft(seqOp, zero, t)) == FoldLeft(seqOp, zero, s + t)
  {
  }

  lemma AggregateOfNone<A, B>(zero: A, seqOp: (A, B) -> A, combOp: (A, A) -> A)
    ensures AggregateOf([], zero, seqOp, combOp) == zero == FoldLeft(seqOp, zero, [])
  {
  }

  lemma {:induction false} AggregateOfMerging<A(!new), B(!new)>(parts: seq<seq<B>>, zero: A, seqOp: (A, B) -> A, combOp: (A, A) -> A)
    requires Neutral(combOp, zero) && Merges(seqOp, combOp, zero)
    ensures AggregateOf(parts, zero, seqOp, combOp) == FoldLeft(seqOp, zero, Flatten(parts))
  {
    hide Neutral, Merges, AggregateOf, FoldLeft;
    if parts == [] {
      AggregateOfNone(zero, seqOp, combOp);
    } else {
      var n := |parts| - 1;
      AggregateOfMerging(parts[..n], zero, seqOp, combOp);
      AggregateSnoc(parts[..n], parts[n], zero, seqOp, combOp);
      MergesAt(seqOp, combOp, zero, Flatten(parts[..n]), parts[n]);
      assert parts[..n] + [parts[n]] == parts;
      FlattenSnoc(parts, n);
      assert parts[..n + 1] == parts;
    }
  }

  /** `aggregate` ignores partitioning without any commutativity. */
  lemma AggregateCorrect<A(!new), B(!new)>(parts: seq<seq<B>>, zero: A, seqOp: (A, B) -> A, combOp: (A, A) -> A)
    requires Neutral(combOp, zero) && StepsThrough(seqOp, combOp)
    ensures AggregateOf(parts, zero, seqOp, combOp) == FoldLeft(seqOp, zero, Flatten(parts))
  {
    hide Neutral, StepsThrough, Merges;
    StepsThroughMerges(seqOp, combOp, zero);
    AggregateOfMerging(parts, zero, seqOp, combOp);
  }

  /** Main result: with a neutral zero, `aggregate` equals the sequential fold of seqOp on every
      partitioning exactly when combOp merges the folds of any two lists. */
  lemma AggregateExact<A(!new), B(!new)>(zero: A, seqOp: (A, B) -> A, combOp: (A, A) -> A)
    requires Neutral(combOp, zero)
    ensures Merges(seqOp, combOp, zero) <==>
            forall parts :: AggregateOf(parts, zero, seqOp, combOp) == FoldLeft(seqOp, zero, Flatten(parts))
  {
    hide Neutral, AggregateOf, FoldLeft, Flatten;
    if Merges(seqOp, combOp, zero) {
      forall parts
        ensures AggregateOf(parts, zero, seqOp, combOp) == FoldLeft(seqOp, zero, Flatten(parts))
      {
        AggregateOfMerging(parts, zero, seqOp, combOp);
      }
    }
    if forall parts :: AggregateOf(parts, zero, seqOp, combOp) == FoldLeft(seqOp, zero, Flatten(parts)) {
      forall s, t
        ensures combOp(FoldLeft(seqOp, zero, s), FoldLeft(seqOp, zero, t)) == FoldLeft(seqOp, zero, s + t)
      {
        AggregateOfTwo(s, t, zero, seqOp, combOp);
        FlattenTwo(s, t);
        assert AggregateOf([s, t], zero, seqOp, combOp) == FoldLeft(seqOp, zero, Flatten([s, t]));
      }
    }
  }

  lemma AggregateOfTwo<A(!new), B(!new)>(s: seq<B>, t: seq<B>, zero: A, seqOp: (A, B) -> A, combOp: (A, A) -> A)
    requires Neutral(combOp, zero)
    ensures AggregateOf([s, t], zero, seqOp, combOp) == combOp(FoldLeft(seqOp, zero, s), FoldLeft(seqOp, zero, t))
  {
    AggregateSnoc([], s, zero, seqOp, combOp);
    AggregateSnoc([s], t, zero, seqOp, combOp);
    assert [] + [s] == [s] && [s] + [t] == [s, t];
  }

  // ---------- reduce ----------

  /** The worker's accumulator: `none` is Python's None, which also stands for "nothing yet". */
  function LocalReduce<T(==)>(f: (T, T) -> T, none: T, s: seq<T>): T
  {
    if s == [] then none
    else
      var acc := LocalReduce(f, none, s[..|s| - 1]);
      if acc == none then s[|s| - 1] else f(s[|s| - 1], acc)
  }

  /** The values the workers yield. */
  function LocalResults<T(==)>(f: (T, T) -> T, none: T, parts: seq<seq<T>>): seq<T>
  {
    if parts == [] then []
    else
      var before := LocalResults(f, none, parts[..|parts| - 1]);
      var local := LocalReduce(f, none, parts[|parts| - 1]);
      if local != none then before + [local] else before
  }

  /** None is the TypeError of reducing an empty list. */
  function ReduceOf<T(==)>(parts: seq<seq<T>>, f: (T, T) -> T, none: T): Option<T>
  {
    var vals := LocalResults(f, none, parts);
    if vals == [] then None else Some(FoldLeft(f, vals[0], vals[1..]))
  }

  method Reduce<T(==)>(parts: seq<seq<T>>, f: (T, T) -> T, none: T) returns (r: Option<T>)
    ensures r == ReduceOf(parts, f, none)
  {
    var vals: seq<T> := [];
    for i := 0 to |parts|
      invariant vals == LocalResults(f, none, parts[..i])
    {
      var acc := none;
      for j := 0 to |parts[i]|
        invariant acc == LocalReduce(f, none, parts[i][..j])
      {
        assert parts[i][..j + 1][..j] == parts[i][..j];
        if acc == none {
          acc := parts[i][j];
        } else {
          acc := f(parts[i][j], acc);
        }
      }
      assert parts[i][..|parts[i]|] == parts[i];
      assert parts[..i + 1][..i] == parts[..i];
      if acc != none {
        vals := vals + [acc];
      }
    }
    assert parts[..|parts|] == parts;
    if vals == [] {
      return None;
    }
    var acc := vals[0];
    var rest := vals[1..];
    for i := 0 to |rest|
      invariant acc == FoldLeft(f, vals[0], rest[..i])
    {
      FoldSnoc(f, vals[0], rest, i);
      acc := f(acc, rest[i]);
    }
    assert rest[..|rest|] == rest;
    return Some(acc);
  }

  /** The left fold of a non-empty list over its own values; None for an empty one. */
  function FoldAll<T>(f: (T, T) -> T, s: seq<T>): Option<T>
  {
    if s == [] then None else Some(FoldLeft(f, s[0], s[1..]))
  }

  lemma FoldAllSnoc<T>(f: (T, T) -> T, s: seq<T>, x: T)
    ensures FoldAll(f, s + [x]) == Plus(f, FoldAll(f, s), Some(x))
  {
    if s == [] {
      assert (s + [x])[1..] == [];
    } else {
      assert (s + [x])[1..] == s[1..] + [x];
      assert (s[1..] + [x])[..|s| - 1] == s[1..];
    }
  }

  lemma {:induction false} FoldAllConcat<T(!new)>(f: (T, T) -> T, s: seq<T>, t: seq<T>)
    requires Associative(f)
    ensures FoldAll(f, s + t) == Plus(f, FoldAll(f, s), FoldAll(f, t))
  {
    if t == [] {
      assert s + t == s;
    } else {
      var n := |t| - 1;
      FoldAllConcat(f, s, t[..n]);
      FoldAllSnoc(f, s + t[..n], t[n]);
      FoldAllSnoc(f, t[..n], t[n]);
      assert (s + t[..n]) + [t[n]] == s + t && t[..n] + [t[n]] == t;
    }
  }

  /** No value is None, and f does not make one. */
  ghost predicate NeverNone<T(!new)>(f: (T, T) -> T, none: T, s: seq<T>)
  {
    none !in s && KeepsValues(f, none)
  }

  lemma {:induction false} LocalReduceCorrect<T(!new)>(f: (T, T) -> T, none: T, s: seq<T>)
    requires Commutative(f) && NeverNone(f, none, s)
    ensures s == [] <==> LocalReduce(f, none, s) == none
    ensures s != [] ==> FoldAll(f, s) == Some(LocalReduce(f, none, s))
  {
    if s != [] {
      var n := |s| - 1;
      assert forall x :: x in s[..n] ==> x in s;
      LocalReduceCorrect(f, none, s[..n]);
      FoldAllSnoc(f, s[..n], s[n]);
      assert s == s[..n] + [s[n]] && s[n] in s;
    }
  }

  lemma {:induction false} LocalResultsCorrect<T(!new)>(f: (T, T) -> T, none: T, parts: seq<seq<T>>)
    requires AC(f) && NeverNone(f, none, Flatten(parts))
    ensures FoldAll(f, LocalResults(f, none, parts)) == FoldAll(f, Flatten(parts))
  {
    hide Associative, Commutative, KeepsValues;
    if parts != [] {
      var n := |parts| - 1;
      FlattenSnoc(parts, n);
      assert parts[..n + 1] == parts;
      assert forall x :: x in Flatten(parts[..n]) ==> x in Flatten(parts);
      assert forall x :: x in parts[n] ==> x in Flatten(parts);
      LocalResultsCorrect(f, none, parts[..n]);
      LocalReduceCorrect(f, none, parts[n]);
      FoldAllSnoc(f, LocalResults(f, none, parts[..n]), LocalReduce(f, none, parts[n]));
      FoldAllConcat(f, Flatten(parts[..n]), parts[n]);
    }
  }

  /** `reduce` equals the fold of the whole data set and fails exactly when there is none, for any
      mix of empty partitions, as long as None does not occur. */
  lemma ReduceCorrect<T(!new)>(parts: seq<seq<T>>, f: (T, T) -> T, none: T)
    requires AC(f) && NeverNone(f, none, Flatten(parts))
    ensures ReduceOf(parts, f, none) == FoldAll(f, Flatten(parts))
  {
    LocalResultsCorrect(f, none, parts);
  }

  /** Without commutativity `reduce` takes each partition back to front, as `fold` does. */
  lemma {:induction false} LocalReduceIsBackwards<T(!new)>(f: (T, T) -> T, none: T, s: seq<T>)
    requires Associative(f) && NeverNone(f, none, s)
    ensures s == [] <==> LocalReduce(f, none, s) == none
    ensures s != [] ==> FoldAll(f, Backwards(s)) == Some(LocalReduce(f, none, s))
  {
    if s != [] {
      var n := |s| - 1;
      assert s[n] in s && forall x :: x in s[..n] ==> x in s;
      LocalReduceIsBackwards(f, none, s[..n]);
      hide Associative;
      assert Backwards(s) == [s[n]] + Backwards(s[..n]);
      FoldAllConcat(f, [s[n]], Backwards(s[..n]));
      assert FoldAll(f, [s[n]]) == Some(s[n]);
    }
  }

  lemma {:induction false} LocalResultsBackwards<T(!new)>(f: (T, T) -> T, none: T, parts: seq<seq<T>>)
    requires Associative(f) && NeverNone(f, none, Flatten(parts))
    ensures FoldAll(f, LocalResults(f, none, parts)) == FoldAll(f, Flatten(BackwardsOf(parts)))
  {
    hide Associative, KeepsValues;
    if parts != [] {
      var n := |parts| - 1;
      FlattenSnoc(parts, n);
      assert parts[..n + 1] == parts;
      assert forall x :: x in Flatten(parts[..n]) || x in parts[n] ==> x in Flatten(parts);
      hide Flatten, FoldAll, LocalReduce, Backwards;
      LocalResultsBackwards(f, none, parts[..n]);
      LocalReduceIsBackwards(f, none, parts[n]);
      FoldAllSnoc(f, LocalResults(f, none, parts[..n]), LocalReduce(f, none, parts[n]));
      assert BackwardsOf(parts) == BackwardsOf(parts[..n]) + [Backwards(parts[n])];
      FlattenConcat(BackwardsOf(parts[..n]), [Backwards(parts[n])]);
      FlattenOne(Backwards(parts[n]));
      FoldAllConcat(f, Flatten(BackwardsOf(parts[..n])), Backwards(parts[n]));
      FoldAllEmpty(f);
    }
  }

  lemma ReduceIsBackwards<T(!new)>(parts: seq<seq<T>>, f: (T, T) -> T, none: T)
    requires Associative(f) && NeverNone(f, none, Flatten(parts))
    ensures ReduceOf(parts, f, none) == FoldAll(f, Flatten(BackwardsOf(parts)))
  {
    LocalResultsBackwards(f, none, parts);
  }

  // ---------- reduce on data that holds None ----------

  /** s without its None values. */
  function Drop<T(==)>(none: T, s: seq<T>): (r: seq<T>)
    ensures none !in r
    ensures forall i :: 0 <= i < |r| ==> r[i] in s
    ensures r == [] <==> forall i :: 0 <= i < |s| ==> s[i] == none
  {
    if s == [] then []
    else
      var before := Drop(none, s[..|s| - 1]);
      if s[|s| - 1] == none then before else before + [s[|s| - 1]]
  }

  lemma {:induction false} DropConcat<T>(none: T, s: seq<T>, t: seq<T>)
    ensures Drop(none, s + t) == Drop(none, s) + Drop(none, t)
  {
    if t == [] {
      assert s + t == s;
    } else {
      assert (s + t)[..|s + t| - 1] == s + t[..|t| - 1];
      DropConcat(none, s, t[..|t| - 1]);
    }
  }

  lemma {:induction false} DropNothing<T>(none: T, s: seq<T>)
    requires none !in s
    ensures Drop(none, s) == s
  {
    if s != [] {
      DropNothing(none, s[..|s| - 1]);
    }
  }

  function DropParts<T(==)>(none: T, parts: seq<seq<T>>): (r: seq<seq<T>>)
    ensures |r| == |parts|
  {
    seq(|parts|, i requires 0 <= i < |parts| => Drop(none, parts[i]))
  }

  lemma {:induction false} FlattenDrop<T>(none: T, parts: seq<seq<T>>)
    ensures Flatten(DropParts(none, parts)) == Drop(none, Flatten(parts))
  {
    if parts != [] {
      FlattenDrop(none, parts[1..]);
      assert DropParts(none, parts)[1..] == DropParts(none, parts[1..]);
      DropConcat(none, parts[0], Flatten(parts[1..]));
    }
  }

  /** f makes no None out of other values. */
  ghost predicate KeepsValues<T(!new)>(f: (T, T) -> T, none: T)
  {
    forall a, b :: a != none && b != none ==> f(a, b) != none
  }

  /** f passes over None. */
  ghost predicate PassesNone<T(!new)>(f: (T, T) -> T, none: T)
  {
    forall x :: x != none ==> f(none, x) == x
  }

  lemma {:induction false} LocalReduceDrops<T(!new)>(f: (T, T) -> T, none: T, s: seq<T>)
    requires KeepsValues(f, none) && PassesNone(f, none)
    ensures LocalReduce(f, none, s) == LocalReduce(f, none, Drop(none, s))
    ensures LocalReduce(f, none, s) == none <==> Drop(none, s) == []
  {
    if s != [] {
      var n := |s| - 1;
      LocalReduceDrops(f, none, s[..n]);
      var before := Drop(none, s[..n]);
      assert (before + [s[n]])[..|before|] == before;
    }
  }

  lemma {:induction false} LocalResultsDrop<T(!new)>(f: (T, T) -> T, none: T, parts: seq<seq<T>>)
    requires KeepsValues(f, none) && PassesNone(f, none)
    ensures LocalResults(f, none, parts) == LocalResults(f, none, DropParts(none, parts))
  {
    if parts != [] {
      var n := |parts| - 1;
      LocalResultsDrop(f, none, parts[..n]);
      assert DropParts(none, parts)[..n] == DropParts(none, parts[..n]);
      LocalReduceDrops(f, none, parts[n]);
    }
  }

  /** A fold over nothing but None is again neutral for every other value. */
  lemma {:induction false} FoldOfOnlyNone<T(!new)>(f: (T, T) -> T, none: T, s: seq<T>, x: T)
    requires Associative(f) && PassesNone(f, none)
    requires s != [] && Drop(none, s) == [] && x != none
    ensures f(FoldAll(f, s).value, x) == x
  {
    hide Associative, PassesNone, FoldAll;
    var n := |s| - 1;
    FoldAllSnoc(f, s[..n], s[n]);
    FoldAllEmpty(f);
    assert s == s[..n] + [s[n]];
    NoneThen(f, none, x);
    if n > 0 {
      FoldOfOnlyNone(f, none, s[..n], x);
      Regroup(f, FoldAll(f, s[..n]).value, none, x);
    }
  }

  lemma NoneThen<T(!new)>(f: (T, T) -> T, none: T, x: T)
    requires PassesNone(f, none) && x != none
    ensures f(none, x) == x
  {
  }

  lemma Regroup<T(!new)>(f: (T, T) -> T, a: T, b: T, c: T)
    requires Associative(f)
    ensures f(f(a, b), c) == f(a, f(b, c))
  {
  }

  lemma Swapped<T(!new)>(f: (T, T) -> T, a: T, b: T)
    requires Commutative(f)
    ensures f(a, b) == f(b, a)
  {
  }

  lemma NeverMakesNone<T(!new)>(f: (T, T) -> T, none: T, a: T, b: T)
    requires KeepsValues(f, none) && a != none && b != none
    ensures f(a, b) != none
  {
  }

  lemma {:induction false} FoldAllDrops<T(!new)>(f: (T, T) -> T, none: T, s: seq<T>)
    requires AC(f) && KeepsValues(f, none) && PassesNone(f, none)
    requires Drop(none, s) != []
    ensures FoldAll(f, s) == FoldAll(f, Drop(none, s)) && FoldAll(f, s) != Some(none)
  {
    hide Associative, Commutative, KeepsValues, PassesNone, FoldAll;
    var n := |s| - 1;
    var before := Drop(none, s[..n]);
    FoldAllSnoc(f, s[..n], s[n]);
    FoldAllSnoc(f, before, s[n]);
    FoldAllEmpty(f);
    assert s == s[..n] + [s[n]];
    if before != [] {
      FoldAllDrops(f, none, s[..n]);
      var acc := FoldAll(f, s[..n]).value;
      if s[n] == none {
        Swapped(f, acc, none);
        NoneThen(f, none, acc);
      } else {
        NeverMakesNone(f, none, acc, s[n]);
      }
    } else if n > 0 {
      FoldOfOnlyNone(f, none, s[..n], s[n]);
    }
  }

  lemma FoldAllEmpty<T>(f: (T, T) -> T)
    ensures forall s: seq<T> :: FoldAll(f, s) == None <==> s == []
  {
  }

  /** `reduce` folds the values that are not None. The two conditions are needed only as far as the
      data holds a None. */
  lemma ReduceDropsNone<T(!new)>(parts: seq<seq<T>>, f: (T, T) -> T, none: T)
    requires AC(f) && KeepsValues(f, none)
    requires none in Flatten(parts) ==> PassesNone(f, none)
    ensures ReduceOf(parts, f, none) == FoldAll(f, Drop(none, Flatten(parts)))
  {
    FlattenDrop(none, parts);
    ReduceCorrect(DropParts(none, parts), f, none);
    if none in Flatten(parts) {
      LocalResultsDrop(f, none, parts);
    } else {
      DropNothing(none, Flatten(parts));
      ReduceCorrect(parts, f, none);
    }
  }

  ghost predicate HasValue<T(!new)>(s: seq<T>, none: T)
  {
    exists x :: x in s && x != none
  }

  /** Main result: a commutative and associative f is what `reduce` asks for, but it equals the fold
      of the whole data set, whatever values that holds, exactly when f also passes over None and
      makes none out of other values; and then it is the fold of the values that are not None, on
      every partitioning. */
  lemma ReduceExact<T(!new)>(f: (T, T) -> T, none: T)
    requires AC(f)
    ensures KeepsValues(f, none) && PassesNone(f, none) <==>
            forall parts :: Flatten(parts) == [] || HasValue(Flatten(parts), none) ==>
              ReduceOf(parts, f, none) == FoldAll(f, Flatten(parts))
    ensures KeepsValues(f, none) && PassesNone(f, none) <==>
            forall parts :: ReduceOf(parts, f, none) == FoldAll(f, Drop(none, Flatten(parts)))
  {
    if KeepsValues(f, none) && PassesNone(f, none) {
      forall parts
        ensures ReduceOf(parts, f, none) == FoldAll(f, Drop(none, Flatten(parts)))
        ensures Flatten(parts) == [] || HasValue(Flatten(parts), none) ==>
                  ReduceOf(parts, f, none) == FoldAll(f, Flatten(parts))
      {
        ReduceDropsNone(parts, f, none);
        if HasValue(Flatten(parts), none) {
          FoldAllDrops(f, none, Flatten(parts));
        }
      }
    }
    if forall parts :: Flatten(parts) == [] || HasValue(Flatten(parts), none) ==>
         ReduceOf(parts, f, none) == FoldAll(f, Flatten(parts)) {
      forall a, b | a != none && b != none
        ensures f(a, b) != none
      {
        ReduceOfTwo(f, none, a, b);
        assert a in Flatten([[a, b]]);
      }
      forall x | x != none
        ensures f(none, x) == x
      {
        ReduceOfNone(f, none, x);
        assert x in Flatten([[none, x]]);
      }
    }
    if forall parts :: ReduceOf(parts, f, none) == FoldAll(f, Drop(none, Flatten(parts))) {
      forall a, b | a != none && b != none
        ensures f(a, b) != none
      {
        ReduceOfTwo(f, none, a, b);
        DropNothing(none, [a, b]);
        assert ReduceOf([[a, b]], f, none) == FoldAll(f, Drop(none, Flatten([[a, b]])));
      }
      forall x | x != none
        ensures f(none, x) == x
      {
        ReduceOfNone(f, none, x);
        assert ReduceOf([[x, none]], f, none) == FoldAll(f, Drop(none, Flatten([[x, none]])));
      }
    }
  }

  /** Two values in one partition: a None that f makes of them is taken for an empty partition. */
  lemma ReduceOfTwo<T(!new)>(f: (T, T) -> T, none: T, a: T, b: T)
    requires Commutative(f) && a != none && b != none
    ensures Flatten([[a, b]]) == [a, b] && FoldAll(f, [a, b]) == Some(f(a, b))
    ensures ReduceOf([[a, b]], f, none) == if f(a, b) == none then None else Some(f(a, b))
  {
    FlattenOne([a, b]);
    FoldFew(f, a, b, b);
    OnePartition(f, none, [a, b]);
    LocalReduceOfTwo(f, none, a, b);
  }

  lemma LocalReduceOfTwo<T>(f: (T, T) -> T, none: T, a: T, b: T)
    ensures LocalReduce(f, none, [a, b]) == if a == none then b else f(b, a)
  {
    var s, t := [a, b], [a];
    assert s[..1] == t && t[..0] == [];
    assert LocalReduce(f, none, t) == a;
  }

  lemma OnePartition<T>(f: (T, T) -> T, none: T, s: seq<T>)
    ensures ReduceOf([s], f, none) == if LocalReduce(f, none, s) == none then None else Some(LocalReduce(f, none, s))
  {
    var parts := [s];
    assert parts[..0] == [];
    assert LocalResults(f, none, parts) == if LocalReduce(f, none, s) == none then [] else [LocalReduce(f, none, s)];
  }

  /** A None in front of a value is dropped, one behind it is passed to f. */
  lemma ReduceOfNone<T(!new)>(f: (T, T) -> T, none: T, x: T)
    requires x != none
    ensures ReduceOf([[none, x]], f, none) == Some(x)
    ensures ReduceOf([[x, none]], f, none) == if f(none, x) == none then None else Some(f(none, x))
    ensures Flatten([[none, x]]) == [none, x] && FoldAll(f, [none, x]) == Some(f(none, x))
    ensures Drop(none, Flatten([[x, none]])) == [x] && FoldAll(f, [x]) == Some(x)
  {
    FlattenOne([none, x]);
    FlattenOne([x, none]);
    FoldFew(f, none, x, x);
    OnePartition(f, none, [none, x]);
    OnePartition(f, none, [x, none]);
    LocalReduceOfTwo(f, none, none, x);
    LocalReduceOfTwo(f, none, x, none);
    assert [x, none][..1] == [x] && [x][..0] == [];
    assert Drop(none, [x]) == [x];
  }

  /** Whatever f is, data that holds only None values reads as no data: `reduce` fails. */
  lemma {:induction false} ReduceOfOnlyNone<T(!new)>(parts: seq<seq<T>>, f: (T, T) -> T, none: T)
    requires !HasValue(Flatten(parts), none)
    ensures ReduceOf(parts, f, none) == None
  {
    if parts != [] {
      var n := |parts| - 1;
      FlattenSnoc(parts, n);
      assert parts[..n + 1] == parts;
      assert forall x :: x in Flatten(parts[..n]) || x in parts[n] ==> x in Flatten(parts);
      ReduceOfOnlyNone(parts[..n], f, none);
      forall i | 0 <= i < |parts[n]|
        ensures parts[n][i] == none
      {
        assert parts[n][i] in Flatten(parts);
      }
      LocalReduceOfOnlyNone(parts[n], f, none);
    }
  }

  lemma {:induction false} LocalReduceOfOnlyNone<T>(s: seq<T>, f: (T, T) -> T, none: T)
    requires forall i :: 0 <= i < |s| ==> s[i] == none
    ensures LocalReduce(f, none, s) == none
  {
    if s != [] {
      LocalReduceOfOnlyNone(s[..|s| - 1], f, none);
    }
  }

  // ---------- take ----------

  function Clamp(num: int, len: nat): nat
  {
    if num < 0 then 0 else if num < len then num else len
  }

  /** `takeUpToNum`: stops at num items or when `next` runs out. */
  method TakeUpToNum<T>(items: seq<T>, num: int) returns (r: seq<T>)
    ensures r == items[..Clamp(num, |items|)]
  {
    r := [];
    var taken := 0;
    while taken < num && taken < |items|
      invariant 0 <= taken <= |items| && (taken <= num || taken == 0)
      invariant r == items[..taken]
    {
      r := r + [items[taken]];
      taken := taken + 1;
    }
  }

  /** `take(num)` scans partitions one by one and stops as soon as it has enough; for every integer
      num and any mix of empty partitions it returns the first num collected values. */
  method Take<T>(parts: seq<seq<T>>, num: int) returns (r: seq<T>)
    ensures r == Flatten(parts)[..Clamp(num, |Flatten(parts)|)]
  {
    var items: seq<T> := [];
    var i := 0;
    assert parts[..0] == [];
    while i < |parts|
      invariant 0 <= i <= |parts|
      invariant i > 0 ==> |items| < num
      invariant items == Flatten(parts[..i])
      decreases |parts| - i
    {
      var taken := TakeUpToNum(parts[i], num);
      ghost var before := items;
      items := items + taken;
      FlattenSnoc(parts, i);
      FlattenRest(parts, i + 1);
      i := i + 1;
      if |items| >= num {
        EnoughTaken(before, parts[i - 1], Flatten(parts[i..]), num);
        assert Flatten(parts) == before + parts[i - 1] + Flatten(parts[i..]);
        return items[..Clamp(num, |items|)];
      }
    }
    assert parts[..i] == parts;
    return items[..Clamp(num, |items|)];
  }

  lemma EnoughTaken<T>(a: seq<T>, p: seq<T>, rest: seq<T>, num: int)
    requires |a| < num || a == []
    requires |a + p[..Clamp(num, |p|)]| >= num
    ensures (a + p[..Clamp(num, |p|)])[..Clamp(num, |a + p[..Clamp(num, |p|)]|)] == (a + p + rest)[..Clamp(num, |a + p + rest|)]
  {
  }
}
