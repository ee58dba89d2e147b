/** PipelinedRDD (rdd.py): fusing chains of narrow transformations into one Python stage. */
module Pipelined {
  import opened Seqs
  import opened Keyed

  /** What a stage does to one split: `func(split, iterator)`. */
  type Func<!T> = (int, seq<T>) -> seq<T>

  /** The JVM-side data set. The JVM keeps a parent's partitioner exactly when told that the
      stage preserves partitioning. */
  datatype Jrdd<!T> = Source(parts: seq<seq<T>>, partitioner: bool)
                   | PythonRDD(prev: Jrdd<T>, func: Func<T>, preservesPartitioning: bool)

  function ApplySplits<T>(f: Func<T>, parts: seq<seq<T>>): (r: seq<seq<T>>)
    ensures |r| == |parts|
  {
    seq(|parts|, i requires 0 <= i < |parts| => f(i, parts[i]))
  }

  function Eval<T>(j: Jrdd<T>): seq<seq<T>>
  {
    match j
    case Source(parts, _) => parts
    case PythonRDD(prev, func, _) => ApplySplits(func, Eval(prev))
  }

  predicate HasPartitioner<T>(j: Jrdd<T>)
  {
    match j
    case Source(_, partitioner) => partitioner
    case PythonRDD(prev, _, preserves) => HasPartitioner(prev) && preserves
  }

  /** `pipeline_func` */
  function Fuse<T>(prev: Func<T>, func: Func<T>): Func<T>
  {
    (split: int, items: seq<T>) => func(split, prev(split, items))
  }

  lemma FuseApplies<T>(prev: Func<T>, func: Func<T>, parts: seq<seq<T>>)
    ensures ApplySplits(Fuse(prev, func), parts) == ApplySplits(func, ApplySplits(prev, parts))
  {
  }

  class RDD<T> {
    const isPipelined: bool
    const func: Func<T>
    const preservesPartitioning: bool
    const prevJrdd: Jrdd<T>
    var jrddVal: Option<Jrdd<T>>
    var isCached: bool
    var isCheckpointed: bool

    ghost const meaning: seq<seq<T>>    // every transformation of the lineage applied one at a time
    ghost const keepsPartitioner: bool  // the source is partitioned and all of the lineage preserves it

    ghost predicate Means(j: Jrdd<T>)
    {
      Eval(j) == meaning && HasPartitioner(j) == keepsPartitioner
    }

    ghost predicate Valid()
      reads this
    {
      && (isPipelined ==> Means(PythonRDD(prevJrdd, func, preservesPartitioning)))
      && (jrddVal.Some? ==> Means(jrddVal.value))
      && (!isPipelined ==> jrddVal.Some?)
    }

    /** An RDD that the JVM supplies. */
    constructor FromJava(parts: seq<seq<T>>, partitioner: bool)
      ensures Valid() && meaning == parts && keepsPartitioner == partitioner
      ensures !isPipelined && !isCached && !isCheckpointed
    {
      var j := Source(parts, partitioner);
      isPipelined, func, preservesPartitioning, prevJrdd := false, (_, s) => s, false, j;
      jrddVal, isCached, isCheckpointed := Some(j), false, false;
      meaning, keepsPartitioner := parts, partitioner;
    }

    /** `PipelinedRDD(prev, func, preservesPartitioning)` */
    constructor (prev: RDD<T>, func: Func<T>, preservesPartitioning: bool)
      requires prev.Valid()
      modifies prev`jrddVal
      ensures Valid() && isPipelined && prev.Valid()
      ensures meaning == ApplySplits(func, prev.meaning)
      ensures keepsPartitioner == (prev.keepsPartitioner && preservesPartitioning)
      ensures !isCached && !isCheckpointed
      ensures old(prev.isPipelined && !prev.isCached && !prev.isCheckpointed) ==>
                prevJrdd == prev.prevJrdd && this.preservesPartitioning == (prev.preservesPartitioning && preservesPartitioning)
      ensures !old(prev.isPipelined && !prev.isCached && !prev.isCheckpointed) ==>
                Some(prevJrdd) == prev.jrddVal && this.preservesPartitioning == preservesPartitioning
    {
      this.isPipelined := true;
      if !prev.isPipelined || !prev.IsPipelinable() {
        var j := prev.GetJrdd();
        this.func := func;
        this.preservesPartitioning := preservesPartitioning;
        this.prevJrdd := j;
      } else {
        FuseApplies(prev.func, func, Eval(prev.prevJrdd));
        this.func := Fuse(prev.func, func);
        this.preservesPartitioning := prev.preservesPartitioning && preservesPartitioning;
        this.prevJrdd := prev.prevJrdd;
      }
      jrddVal, isCached, isCheckpointed := None, false, false;
      meaning := ApplySplits(func, prev.meaning);
      keepsPartitioner := prev.keepsPartitioner && preservesPartitioning;
    }

    predicate IsPipelinable()
      reads this
    {
      !(isCached || isCheckpointed)
    }

    /** The `_jrdd` property, computed on first use. */
    method GetJrdd() returns (j: Jrdd<T>)
      requires Valid()
      modifies this`jrddVal
      ensures Valid() && jrddVal == Some(j) && Means(j)
    {
      if jrddVal.Some? {
        return jrddVal.value;
      }
      jrddVal := Some(PythonRDD(prevJrdd, func, preservesPartitioning));
      return jrddVal.value;
    }

    /** `cache` and `persist`: both set the flag and touch `_jrdd`. */
    method Cache()
      requires Valid()
      modifies this`isCached, this`jrddVal
      ensures Valid() && isCached && jrddVal.Some?
    {
      isCached := true;
      var j := GetJrdd();
    }

    method Unpersist()
      requires Valid()
      modifies this`isCached, this`jrddVal
      ensures Valid() && !isCached && jrddVal.Some?
    {
      isCached := false;
      var j := GetJrdd();
    }

    method Checkpoint()
      requires Valid()
      modifies this`isCheckpointed, this`jrddVal
      ensures Valid() && isCheckpointed && jrddVal.Some?
    {
      isCheckpointed := true;
      var j := GetJrdd();
    }
  }

  // ---------- Driver programs ----------

  /** The narrow transformations. */
  datatype Op<!T> =
    | MapOp(f: T -> T, preserves: bool)
    | FlatMapOp(g: T -> seq<T>, preserves: bool)
    | MapPartitionsOp(h: seq<T> -> seq<T>, preserves: bool)
    | WithIndexOp(k: Func<T>, preserves: bool)
    | FilterOp(p: T -> bool)

  function Filter<T>(p: T -> bool, s: seq<T>): seq<T>
  {
    if s == [] then [] else Filter(p, s[..|s| - 1]) + if p(s[|s| - 1]) then [s[|s| - 1]] else []
  }

  function FuncOf<T>(op: Op<T>): Func<T>
  {
    match op
    case MapOp(f, _) => (_, s) => Map(f, s)
    case FlatMapOp(g, _) => (_, s) => FlatMap(g, s)
    case MapPartitionsOp(h, _) => (_, s) => h(s)
    case WithIndexOp(k, _) => k
    case FilterOp(p) => (_, s) => Filter(p, s)
  }

  /** The flag that reaches PipelinedRDD: `mapPartitions` accepts one and drops it, and `filter`
      goes through `mapPartitions`. */
  function FlagOf<T>(op: Op<T>): bool
  {
    match op
    case MapOp(_, preserves) => preserves
    case FlatMapOp(_, preserves) => preserves
    case MapPartitionsOp(_, _) => false
    case WithIndexOp(_, preserves) => preserves
    case FilterOp(_) => false
  }

  /** Commands on the RDDs made so far, numbered from the source 0. */
  datatype Cmd<!T> = Transform(of: nat, op: Op<T>) | Cache(of: nat) | Unpersist(of: nat) | Checkpoint(of: nat) | Use(of: nat)

  /** Data and partitioner claim of one RDD. */
  datatype Data<T> = Data(parts: seq<seq<T>>, partitioner: bool)

  /** One command by itself: a transformation adds a data set, storage commands change nothing. */
  function Execute<T>(ds: seq<Data<T>>, cmd: Cmd<T>): Option<seq<Data<T>>>
  {
    if cmd.of >= |ds| then None
    else if cmd.Transform? then
      Some(ds + [Data(ApplySplits(FuncOf(cmd.op), ds[cmd.of].parts), ds[cmd.of].partitioner && FlagOf(cmd.op))])
    else Some(ds)
  }

  /** The reference: one command after the other. */
  function OneAtATime<T>(source: Data<T>, program: seq<Cmd<T>>): Option<seq<Data<T>>>
  {
    if program == [] then Some([source])
    else
      match OneAtATime(source, program[..|program| - 1])
      case None => None
      case Some(ds) => Execute(ds, program[|program| - 1])
  }

  lemma {:induction false} PrefixDefined<T>(source: Data<T>, program: seq<Cmd<T>>, i: nat)
    requires i <= |program| && OneAtATime(source, program).Some?
    ensures OneAtATime(source, program[..i]).Some?
  {
    if i < |program| {
      PrefixDefined(source, program[..|program| - 1], i);
      assert program[..|program| - 1][..i] == program[..i];
    } else {
      assert program[..i] == program;
    }
  }

  lemma PrefixStep<T>(source: Data<T>, program: seq<Cmd<T>>, i: nat)
    requires i < |program| && OneAtATime(source, program).Some?
    ensures OneAtATime(source, program[..i]).Some? && OneAtATime(source, program[..i + 1]).Some?
    ensures OneAtATime(source, program[..i + 1]) == Execute(OneAtATime(source, program[..i]).value, program[i])
  {
    PrefixDefined(source, program, i + 1);
    assert program[..i + 1][..i] == program[..i];
  }

  lemma Appended<T>(source: Data<T>, program: seq<Cmd<T>>, cmd: Cmd<T>)
    requires OneAtATime(source, program).Some?
    ensures OneAtATime(source, program + [cmd]) == Execute(OneAtATime(source, program).value, cmd)
  {
    assert (program + [cmd])[..|program|] == program;
  }

  /** Main result: for every program of transformations on any of the RDDs made so far, interleaved
      with cache, persist, unpersist and checkpoint calls and with uses that fix an RDD's stage, the
      fused stages compute what the transformations compute one at a time, split by split, and keep
      the partitioner exactly when every transformation of the lineage does. */
  method Run<T>(source: Data<T>, program: seq<Cmd<T>>) returns (out: seq<Data<T>>)
    requires OneAtATime(source, program).Some?
    ensures out == OneAtATime(source, program).value
  {
    hide Eval, HasPartitioner, FuncOf, FlagOf, ApplySplits;
    var first := new RDD.FromJava(source.parts, source.partitioner);
    var rdds := [first];
    assert program[..0] == [];
    assert OneAtATime(source, []) == Some([source]);
    hide OneAtATime;
    for i := 0 to |program|
      invariant OneAtATime(source, program[..i]).Some?
      invariant |rdds| == |OneAtATime(source, program[..i]).value|
      invariant forall j :: 0 <= j < |rdds| ==> fresh(rdds[j]) && rdds[j].Valid()
      invariant forall j :: 0 <= j < |rdds| ==>
                  Data(rdds[j].meaning, rdds[j].keepsPartitioner) == OneAtATime(source, program[..i]).value[j]
    {
      PrefixStep(source, program, i);
      var cmd := program[i];
      match cmd {
        case Transform(of, op) =>
          var rdd := new RDD(rdds[of], FuncOf(op), FlagOf(op));
          rdds := rdds + [rdd];
        case Cache(of) => rdds[of].Cache();
        case Unpersist(of) => rdds[of].Unpersist();
        case Checkpoint(of) => rdds[of].Checkpoint();
        case Use(of) => var j := rdds[of].GetJrdd();
      }
    }
    assert program[..|program|] == program;
    out := [];
    for i := 0 to |rdds|
      invariant forall j :: 0 <= j < |rdds| ==> fresh(rdds[j]) && rdds[j].Valid()
      invariant |out| == i && forall j :: 0 <= j < i ==> out[j] == OneAtATime(source, program).value[j]
    {
      var j := rdds[i].GetJrdd();
      out := out + [Data(Eval(j), HasPartitioner(j))];
    }
  }

  // ---------- What the transformations do ----------

  /** Filter goes value by value, in order, and keeps those that satisfy p. */
  lemma {:induction false} FilterConcat<T>(p: T -> bool, s: seq<T>, t: seq<T>)
    ensures Filter(p, s + t) == Filter(p, s) + Filter(p, t)
  {
    if t == [] {
      assert s + t == s;
    } else {
      assert (s + t)[..|s + t| - 1] == s + t[..|t| - 1];
      FilterConcat(p, s, t[..|t| - 1]);
    }
  }

  lemma FilterOne<T>(p: T -> bool, x: T)
    ensures Filter(p, [x]) == if p(x) then [x] else []
  {
    assert [x][..0] == [];
  }

  lemma {:induction false} FilterCount<T>(p: T -> bool, s: seq<T>, x: T)
    ensures multiset(Filter(p, s))[x] == if p(x) then multiset(s)[x] else 0
  {
    if s != [] {
      FilterCount(p, s[..|s| - 1], x);
      DropLast(s);
    }
  }

  /** The RDDs after one more transformation: those before it, unchanged, and a new one. */
  ghost predicate Adds<T>(source: Data<T>, program: seq<Cmd<T>>, of: nat, op: Op<T>, parent: Data<T>, child: Data<T>)
  {
    && OneAtATime(source, program).Some? && of < |OneAtATime(source, program).value|
    && parent == OneAtATime(source, program).value[of]
    && OneAtATime(source, program + [Transform(of, op)]) == Some(OneAtATime(source, program).value + [child])
  }

  lemma TransformAdds<T>(source: Data<T>, program: seq<Cmd<T>>, of: nat, op: Op<T>) returns (parent: Data<T>, child: Data<T>)
    requires OneAtATime(source, program).Some? && of < |OneAtATime(source, program).value|
    ensures Adds(source, program, of, op, parent, child)
    ensures child == Data(ApplySplits(FuncOf(op), parent.parts), parent.partitioner && FlagOf(op))
  {
    Appended(source, program, Transform(of, op));
    parent := OneAtATime(source, program).value[of];
    child := Data(ApplySplits(FuncOf(op), parent.parts), parent.partitioner && FlagOf(op));
  }

  lemma MapMeans<T>(source: Data<T>, program: seq<Cmd<T>>, of: nat, f: T -> T, preserves: bool)
    returns (parent: Data<T>, child: Data<T>)
    requires OneAtATime(source, program).Some? && of < |OneAtATime(source, program).value|
    ensures Adds(source, program, of, MapOp(f, preserves), parent, child)
    ensures |child.parts| == |parent.parts|
    ensures forall i :: 0 <= i < |parent.parts| ==>
              && |child.parts[i]| == |parent.parts[i]|
              && forall j :: 0 <= j < |parent.parts[i]| ==> child.parts[i][j] == f(parent.parts[i][j])
    ensures child.partitioner == (parent.partitioner && preserves)
  {
    parent, child := TransformAdds(source, program, of, MapOp(f, preserves));
  }

  lemma FlatMapMeans<T>(source: Data<T>, program: seq<Cmd<T>>, of: nat, g: T -> seq<T>, preserves: bool)
    returns (parent: Data<T>, child: Data<T>)
    requires OneAtATime(source, program).Some? && of < |OneAtATime(source, program).value|
    ensures Adds(source, program, of, FlatMapOp(g, preserves), parent, child)
    ensures |child.parts| == |parent.parts|
    ensures forall i :: 0 <= i < |parent.parts| ==>
              child.parts[i] == Flatten(seq(|parent.parts[i]|, j requires 0 <= j < |parent.parts[i]| => g(parent.parts[i][j])))
    ensures child.partitioner == (parent.partitioner && preserves)
  {
    parent, child := TransformAdds(source, program, of, FlatMapOp(g, preserves));
    forall i | 0 <= i < |parent.parts|
      ensures child.parts[i] == Flatten(seq(|parent.parts[i]|, j requires 0 <= j < |parent.parts[i]| => g(parent.parts[i][j])))
    {
      assert Map(g, parent.parts[i]) == seq(|parent.parts[i]|, j requires 0 <= j < |parent.parts[i]| => g(parent.parts[i][j]));
    }
  }

  lemma MapPartitionsMeans<T>(source: Data<T>, program: seq<Cmd<T>>, of: nat, g: seq<T> -> seq<T>, preserves: bool)
    returns (parent: Data<T>, child: Data<T>)
    requires OneAtATime(source, program).Some? && of < |OneAtATime(source, program).value|
    ensures Adds(source, program, of, MapPartitionsOp(g, preserves), parent, child)
    ensures |child.parts| == |parent.parts|
    ensures forall i :: 0 <= i < |parent.parts| ==> child.parts[i] == g(parent.parts[i])
    ensures !child.partitioner
  {
    parent, child := TransformAdds(source, program, of, MapPartitionsOp(g, preserves));
  }

  lemma WithIndexMeans<T>(source: Data<T>, program: seq<Cmd<T>>, of: nat, g: Func<T>, preserves: bool)
    returns (parent: Data<T>, child: Data<T>)
    requires OneAtATime(source, program).Some? && of < |OneAtATime(source, program).value|
    ensures Adds(source, program, of, WithIndexOp(g, preserves), parent, child)
    ensures |child.parts| == |parent.parts|
    ensures forall i :: 0 <= i < |parent.parts| ==> child.parts[i] == g(i, parent.parts[i])
    ensures child.partitioner == (parent.partitioner && preserves)
  {
    parent, child := TransformAdds(source, program, of, WithIndexOp(g, preserves));
  }

  lemma FilterMeans<T>(source: Data<T>, program: seq<Cmd<T>>, of: nat, p: T -> bool)
    returns (parent: Data<T>, child: Data<T>)
    requires OneAtATime(source, program).Some? && of < |OneAtATime(source, program).value|
    ensures Adds(source, program, of, FilterOp(p), parent, child)
    ensures |child.parts| == |parent.parts|
    ensures forall i, x :: 0 <= i < |parent.parts| ==>
              multiset(child.parts[i])[x] == if p(x) then multiset(parent.parts[i])[x] else 0
    ensures forall i :: 0 <= i < |parent.parts| ==> child.parts[i] == Filter(p, parent.parts[i])
    ensures !child.partitioner
  {
    parent, child := TransformAdds(source, program, of, FilterOp(p));
    forall i, x | 0 <= i < |parent.parts|
      ensures multiset(child.parts[i])[x] == if p(x) then multiset(parent.parts[i])[x] else 0
    {
      FilterCount(p, parent.parts[i], x);
    }
  }

  /** Storage commands and uses change no data; a command on an RDD not made yet is an error. */
  lemma StorageChangesNothing<T>(source: Data<T>, program: seq<Cmd<T>>, cmd: Cmd<T>)
    requires OneAtATime(source, program).Some?
    ensures cmd.of >= |OneAtATime(source, program).value| ==> OneAtATime(source, program + [cmd]) == None
    ensures cmd.of < |OneAtATime(source, program).value| && !cmd.Transform? ==>
              OneAtATime(source, program + [cmd]) == OneAtATime(source, program)
  {
    Appended(source, program, cmd);
  }

  /** A request to preserve partitioning made through `mapPartitions` is lost for the whole lineage
      below it; the same function passed to `mapPartitionsWithIndex` would keep the partitioner. */
  lemma MapPartitionsLosesFlag<T>(source: Data<T>, program: seq<Cmd<T>>, h: seq<T> -> seq<T>, of: nat)
    requires OneAtATime(source, program).Some? && of < |OneAtATime(source, program).value|
    ensures var viaPartitions := OneAtATime(source, program + [Transform(of, MapPartitionsOp(h, true))]);
            var viaIndex := OneAtATime(source, program + [Transform(of, WithIndexOp((_, s) => h(s), true))]);
            var before := OneAtATime(source, program).value;
      && viaPartitions.Some? && viaIndex.Some? && |viaPartitions.value| == |viaIndex.value| == |before| + 1
      && viaPartitions.value[|before|].parts == viaIndex.value[|before|].parts
      && !viaPartitions.value[|before|].partitioner
      && viaIndex.value[|before|].partitioner == before[of].partitioner
  {
    Appended(source, program, Transform(of, MapPartitionsOp(h, true)));
    Appended(source, program, Transform(of, WithIndexOp((_, s) => h(s), true)));
    hide OneAtATime;
  }
}
