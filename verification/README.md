# Verified model of the PySpark data-flow engine

A Dafny model of the vendored PySpark 1.0.0 tree: the partitioned collection algebra (`rdd.py`,
`join.py`), mergeable statistics, accumulators, stream serializers, the MLlib vector formats and
sparse arithmetic, the bytecode scanner of `cloudpickle.py`, and three iterative example programs.
A partitioned collection is a sequence of partitions, `seq<seq<T>>`, and its meaning is their
concatenation, `Seqs.Flatten`. Most theorems say that a partition-dependent fast form agrees with a
simple function of that meaning for every partitioning, hash function and arrival order.

- `Shuffle.dfy`, `Keyed.dfy`, `Joins.dfy`: combine, shuffle and merge; reduceByKey, foldByKey, groupByKey,
  distinct; joins, cogroup, subtractByKey, intersection.
- `Orders.dfy`, `MaxHeap.dfy`, `SortByKey.dfy`: bounded selection and global sort.
- `Actions.dfy`, `Pipelined.dfy`: reduce, fold, aggregate, take; fusion of narrow transformations.
- `StatCounter.dfy`, `Accumulators.dfy`, `AccumulatorRuns.dfy`: mergeable statistics, the accumulator protocol and its runs.
- `KMeans.dfy`, `TransitiveClosure.dfy`, `PageRank.dfy`: the iterative examples, run on the engine above.
- `Bytes.dfy`, `Serializers.dfy`, `PairStreams.dfy`, `VectorBytes.dfy`: wire formats.
- `SparseVector.dfy`, `CodeScan.dfy`: sparse arithmetic and the bytecode scan.
- `Seqs.dfy`, `Reals.dfy`: lists, bags, sums, and multiplication by name.

Check everything with `dafny verify dfyconfig.toml`.

## What the environment contributes

- The JVM shuffle is any delivery that hands each bucket to its split exactly once, in any order
  (`Shuffle.Delivered`); dictionaries are listed in any order (`Seqs.Enumerates`). Both choices are
  nondeterministic in the methods as well.
- Floats are exact reals; `inf` and `nan` appear as explicit cases.
- Pickled objects go through an abstract codec with `loads(dumps(x)) == x`; doubles through an
  abstract bijection with eight bytes, in either machine byte order; opcode numbers are parameters.
- Orders (`<` on keys and elements) are arbitrary total preorders; functions given by the user are
  arbitrary total functions.
- Python exceptions are `Err`, `None` or `false` results, named in the contracts.

## Where the code departs from its documentation

- `fold` asks for an associative function; it needs a commutative one (`Actions.FoldExact`).
- `reduceByKey` asks for an associative function; arrival order is arbitrary, so it needs a commutative one
  (`Keyed.ReduceByKeyExact`).
- `reduce` takes None for "nothing yet", so on data with None a commutative and associative function is not enough;
  it must also pass over None and make none (`Actions.ReduceExact`). Data of None values alone reads as empty.
- `mergeStats` merges maximum and minimum only in its balanced branch (`StatCounters.MaxMergeExact`).
- `mapPartitions` takes a `preservesPartitioning` argument and drops it (`Pipelined.MapPartitionsLosesFlag`).
- `sortByKey` into several partitions fails when its sample comes out empty: always on no data, never on 1 to 20 rows
  a partition, and possibly above that (`SortByKey.Run`, `SortByKey.SampleIsSafeExact`).
- A frame with an empty payload reads as the end of the stream (`Serializers.StreamRoundTrip`).
- `zip` asks for equally many elements per partition; it also needs batches that line up (`PairStreams.ZipExact`).
- The matrix serializer cannot write a matrix without elements, which its deserializer accepts
  (`VectorBytes.SerializeMatrix`).

## Model

| member | source | states |
|---|---|---|
| `KMeans.IterationDecreasesCost` | initial-deployment-puppet/modules/spark/files/spark/examples/src/main/python/kmeans.py:61-71 | For every data set and at least one centre (or no data), moving every non-empty cluster to its mean lowers the sum of squared distances to the nearest centre by at least the new `tempDist` |
| `KMeans.Run` | initial-deployment-puppet/modules/spark/files/spark/examples/src/main/python/kmeans.py:57-71 | The loop ends for every `convergeDist >= 0`; its trace consists of steps of the algorithm, of which all but the last move the centres by more than the threshold in total and the last one does not, and is empty exactly when 1.0 is within the threshold; the cost never rises; a positive threshold allows at most cost0 / convergeDist + 1 iterations; zero stops only where every non-empty cluster's centre is its mean |
| `KMeans.Iterate` | initial-deployment-puppet/modules/spark/files/spark/examples/src/main/python/kmeans.py:61-71 | One pass of the loop: every centre of a non-empty cluster moves to the mean of its points, coordinate by coordinate, the others stay; `tempDist` is the sum over all centres of the squared distance moved; the cost drops by at least that; a zero `tempDist` means nothing moved |
| `KMeans.TempDistIsMoveSum` | initial-deployment-puppet/modules/spark/files/spark/examples/src/main/python/kmeans.py:68-68 | The sum over `newPoints` counts the squared move of every centre once |
| `KMeans.UpdatedIsLloydStep` | initial-deployment-puppet/modules/spark/files/spark/examples/src/main/python/kmeans.py:65-71 | Overwriting `kPoints` by `newPoints` makes each non-empty cluster's size times its centre the sum of its points, in every coordinate, and leaves the other centres |
| `KMeans.NegativeThresholdNeverStops` | initial-deployment-puppet/modules/spark/files/spark/examples/src/main/python/kmeans.py:60-68 | The other half of the termination condition: with a negative threshold the guard holds after every iteration |
| `KMeans.NewPoints` | initial-deployment-puppet/modules/spark/files/spark/examples/src/main/python/kmeans.py:61-66 | Whatever the partitioning, hash function and arrival order, `newPoints` holds the mean of each non-empty cluster exactly once |
| `KMeans.ClosestPoint` | initial-deployment-puppet/modules/spark/files/spark/examples/src/main/python/kmeans.py:36-44 | The loop computes the index that `ClosestIsNearest` characterizes; 0 when there are no centres |
| `KMeans.ClosestIsNearest` | initial-deployment-puppet/modules/spark/files/spark/examples/src/main/python/kmeans.py:36-44 | The chosen index is the first one whose squared distance is minimal |
| `KMeans.NearestIsCheapest` | initial-deployment-puppet/modules/spark/files/spark/examples/src/main/python/kmeans.py:36-44 | Serving every point by its nearest centre costs no more than any other assignment |
| `Shuffle.CombineByKeyCorrect` | initial-deployment-puppet/modules/spark/files/spark/python/pyspark/rdd.py:1086-1133 | For every partitioning, partition function, arrival order and dictionary order, each input key is emitted exactly once over all partitions, in its own split, with the fold of all its values (seen through a view, so that list-valued combiners are covered as bags) |
| `Shuffle.CombineLocally` | initial-deployment-puppet/modules/spark/files/spark/python/pyspark/rdd.py:1114-1132 | The dictionary loop of `combineLocally` and `_mergeCombiners` lists exactly the per-key left folds of its input |
| `Shuffle.CombineTotals` | initial-deployment-puppet/modules/spark/files/spark/python/pyspark/rdd.py:1114-1122 | Per key, the local dictionary holds the fold of that key's values, or nothing when the key is absent |
| `Shuffle.AddShuffleKey` | initial-deployment-puppet/modules/spark/files/spark/python/pyspark/rdd.py:1063-1071 | Buckets exist for exactly the splits that got an item, all in 0..n-1, each with its items in order |
| `Shuffle.PartitionBy` | initial-deployment-puppet/modules/spark/files/spark/python/pyspark/rdd.py:1048-1083 | Every pair reaches the split of its key exactly once, however buckets interleave |
| `Shuffle.AnyArrivalOrderDelivers` | initial-deployment-puppet/modules/spark/files/spark/python/pyspark/rdd.py:1075-1079 | Any interleaving of the map tasks' bucket frames gives each reducer a permutation of its share |
| `Shuffle.CombineByKey` | initial-deployment-puppet/modules/spark/files/spark/python/pyspark/rdd.py:1086-1133 | Running the whole chain yields an outcome of the kind `CombineByKeyCorrect` speaks about |
| `Keyed.ReduceByKey` | initial-deployment-puppet/modules/spark/files/spark/python/pyspark/rdd.py:944-959 | reduceByKey is combineByKey with the identity: each key once, with the fold of its values |
| `Keyed.ReduceByKeyExact` | initial-deployment-puppet/modules/spark/files/spark/python/pyspark/rdd.py:944-959 | For an associative function and any number of splits, every run (partitioning, arrival order, dictionary order) gives each key the left fold of its values if and only if the function is commutative |
| `Keyed.OvertakingRun` | initial-deployment-puppet/modules/spark/files/spark/python/pyspark/rdd.py:1075-1133 | The run that shows it: a later task's bucket arrives first, and the key ends with f(y, x) |
| `Keyed.FoldByKeyCorrect` | initial-deployment-puppet/modules/spark/files/spark/python/pyspark/rdd.py:1135-1146 | foldByKey with a neutral zero agrees with reduceByKey, so the number of partitions leaves no trace |
| `Keyed.FoldByKeyExact` | initial-deployment-puppet/modules/spark/files/spark/python/pyspark/rdd.py:1135-1146 | For a commutative and associative function and any number of splits, every run of foldByKey agrees with reduceByKey if and only if the zero is neutral |
| `Keyed.GroupByKeyCorrect` | initial-deployment-puppet/modules/spark/files/spark/python/pyspark/rdd.py:1150-1175 | Each key once, with exactly the bag of its values, although list concatenation does not commute |
| `Keyed.DistinctValues` | initial-deployment-puppet/modules/spark/files/spark/python/pyspark/rdd.py:325-334 | Each value of the input exactly once and nothing else |
| `Joins.JoinCorrect` | initial-deployment-puppet/modules/spark/files/spark/python/pyspark/join.py:36-79 | Inner, left and right join: the multiplicity of every row (k, (v, w)) is the product of the multiplicities of (k, v) and (k, w), and None fills a side exactly when that side lacks the key |
| `Joins.Join` | initial-deployment-puppet/modules/spark/files/spark/python/pyspark/join.py:36-79 | The whole job (tag, union, group, dispatch) yields that relational join for every partitioning and arrival order |
| `Joins.Dispatch` | initial-deployment-puppet/modules/spark/files/spark/python/pyspark/join.py:43-78 | The three dispatch functions compute the product of the buffered sides, with None for an empty kept side |
| `Joins.ProductOrder` | initial-deployment-puppet/modules/spark/files/spark/python/pyspark/join.py:43-78 | The pairs of a key run through the right values for each left value in turn |
| `Joins.Buffer` | initial-deployment-puppet/modules/spark/files/spark/python/pyspark/join.py:85-91 | The buffering loop splits a group by tag, keeping order and ignoring other tags |
| `Joins.GroupJoinCount` | initial-deployment-puppet/modules/spark/files/spark/python/pyspark/join.py:42-79 | Dispatching one group produces each pair exactly as often as the relational join demands |
| `Joins.Cogroup` | initial-deployment-puppet/modules/spark/files/spark/python/pyspark/join.py:82-93 | Each key of either input once, with the bags of its values on both sides |
| `Joins.CogroupCorrect` | initial-deployment-puppet/modules/spark/files/spark/python/pyspark/join.py:82-93 | The same for any grouping outcome |
| `Joins.SubtractByKey` | initial-deployment-puppet/modules/spark/files/spark/python/pyspark/rdd.py:1227-1239 | Every pair of the left side whose key the right side lacks, with its multiplicity, and no other pair |
| `Joins.SubtractByKeyCorrect` | initial-deployment-puppet/modules/spark/files/spark/python/pyspark/rdd.py:1237-1239 | The same for any cogrouping outcome |
| `Joins.Intersection` | initial-deployment-puppet/modules/spark/files/spark/python/pyspark/rdd.py:413-428 | Each value that both inputs hold, exactly once |
| `Joins.IntersectionCorrect` | initial-deployment-puppet/modules/spark/files/spark/python/pyspark/rdd.py:425-428 | The same for any cogrouping outcome |
| `MaxHeap.MaxHeapQ.Swim` | initial-deployment-puppet/modules/spark/files/spark/python/pyspark/rdd.py:122-125 | Restores the heap order from the bottom, keeping length, placeholder and contents |
| `MaxHeap.MaxHeapQ.Sink` | initial-deployment-puppet/modules/spark/files/spark/python/pyspark/rdd.py:132-143 | Restores the heap order from the top, keeping length, placeholder and contents |
| `MaxHeap.MaxHeapQ.ReplaceRoot` | initial-deployment-puppet/modules/spark/files/spark/python/pyspark/rdd.py:158-161 | Replaces a largest value by a smaller one, and fails exactly on an empty heap |
| `MaxHeap.MaxHeapQ.Insert` | initial-deployment-puppet/modules/spark/files/spark/python/pyspark/rdd.py:148-153 | Keeps everything while there is room, then the smaller of the new value and a largest held one; fails exactly when `maxsize < 1` |
| `MaxHeap.RootIsLargest` | initial-deployment-puppet/modules/spark/files/spark/python/pyspark/rdd.py:122-143 | In a heap no entry is above the root |
| `MaxHeap.TopN` | initial-deployment-puppet/modules/spark/files/spark/python/pyspark/rdd.py:821-827 | After any sequence of inserts the heap holds exactly `num` smallest values as a bag; an error exactly when `num < 1` and there is something to insert |
| `MaxHeap.Select` | initial-deployment-puppet/modules/spark/files/spark/python/pyspark/rdd.py:834-836 | Merging the partitions' heaps selects `num` smallest values of the whole data set; fails exactly on no partitions, or on `num < 1` with data |
| `MaxHeap.TakeOrdered` | initial-deployment-puppet/modules/spark/files/spark/python/pyspark/rdd.py:810-837 | The result is sorted and holds `num` smallest values of the whole data set, with the exact error condition |
| `MaxHeap.TakeOrderedIsSortedPrefix` | initial-deployment-puppet/modules/spark/files/spark/python/pyspark/rdd.py:810-837 | Where no two values of the data rank equal, the result equals the first `num` values of the sorted data set, for every partitioning |
| `MaxHeap.TakeOrderedByKey` | initial-deployment-puppet/modules/spark/files/spark/python/pyspark/rdd.py:821-837 | With a key: the elements come from the `num` smallest (key, element) pairs, have `num` smallest keys and are returned in key order; where different elements have different keys, they are the first `num` elements of the data set sorted by key |
| `MaxHeap.SelectedElements` | initial-deployment-puppet/modules/spark/files/spark/python/pyspark/rdd.py:821-837 | A selection by (key, element) pairs is a selection by key |
| `MaxHeap.PairLeqIsLexicographic` | initial-deployment-puppet/modules/spark/files/spark/python/pyspark/rdd.py:821-836 | Pairs are selected by key, and by element where keys are equal |
| `Orders.BottomMerge` | initial-deployment-puppet/modules/spark/files/spark/python/pyspark/rdd.py:834-836 | The k smallest of two selections are the k smallest of both sources |
| `Orders.BottomIsSortedPrefix` | initial-deployment-puppet/modules/spark/files/spark/python/pyspark/rdd.py:836-837 | A selection of k smallest values, no two of the data ranking equal, is the bag of the first k sorted values |
| `Orders.SortStable` | initial-deployment-puppet/modules/spark/files/spark/python/pyspark/rdd.py:491-492 | Sorting is stable in either direction: rows that rank equal keep their order |
| `SortByKey.SortByKeyCorrect` | initial-deployment-puppet/modules/spark/files/spark/python/pyspark/rdd.py:448-496 | For any list of n-1 raw keys as bounds, any keyfunc, either direction and any arrival order, the concatenated partitions are a permutation of the input sorted by keyfunc |
| `SortByKey.Run` | initial-deployment-puppet/modules/spark/files/spark/python/pyspark/rdd.py:448-496 | For the whole job with any uniform draws: a permutation of the input sorted by keyfunc, each row in the split that the bounds give it, and the bounds evenly spaced among the sorted sampled keys; it fails exactly when `numPartitions > 1` and no row is drawn, hence on every empty data set, and never for one partition or 1 to 20 * numPartitions rows |
| `SortByKey.SampleIsSafeExact` | initial-deployment-puppet/modules/spark/files/spark/python/pyspark/rdd.py:469-480 | For n > 1 partitions the sample is non-empty whatever is drawn if and only if there are between 1 and 20 * n rows, and then it is the whole data set |
| `SortByKey.FractionIsOne` | initial-deployment-puppet/modules/spark/files/spark/python/pyspark/rdd.py:469-471 | The sampled fraction is 1 exactly up to 20 rows a partition, and above that makes 20 rows a partition of the data set's size |
| `SortByKey.SampledKeys` | initial-deployment-puppet/modules/spark/files/spark/python/pyspark/rddsampler.py:103-105 | The sample consists of keys of the data; empty exactly when every draw is above the fraction, everything when none is |
| `SortByKey.SampledConcat` | initial-deployment-puppet/modules/spark/files/spark/python/pyspark/rddsampler.py:103-105 | Sampling goes row by row, in order, and takes a row exactly when its draw is within the fraction |
| `SortByKey.Sample` | initial-deployment-puppet/modules/spark/files/spark/python/pyspark/rddsampler.py:103-105 | The sampler's loop computes the sample these lemmas are about |
| `SortByKey.RangePartitionFunc` | initial-deployment-puppet/modules/spark/files/spark/python/pyspark/rdd.py:482-489 | The scan computes the split that the two lemmas below are about |
| `SortByKey.RangeMonotone` | initial-deployment-puppet/modules/spark/files/spark/python/pyspark/rdd.py:482-489 | The scan position is monotone in the key for every bounds list, sorted or not |
| `SortByKey.SplitInRange` | initial-deployment-puppet/modules/spark/files/spark/python/pyspark/rdd.py:482-489 | The split lies in 0..numPartitions-1 in both directions |
| `SortByKey.SplitsAreOrdered` | initial-deployment-puppet/modules/spark/files/spark/python/pyspark/rdd.py:482-489 | A key in an earlier split comes first in the requested direction |
| `SortByKey.Bounds` | initial-deployment-puppet/modules/spark/files/spark/python/pyspark/rdd.py:463-480 | n-1 bounds, each at an index inside the sample; fails exactly on an empty sample when n > 1 |
| `SortByKey.SampleIndexSpacing` | initial-deployment-puppet/modules/spark/files/spark/python/pyspark/rdd.py:475-480 | The samples taken as bounds are evenly spaced: consecutive positions differ by (len - 1) / n rounded down or one more |
| `SortByKey.DeliveredKeepsRows` | initial-deployment-puppet/modules/spark/files/spark/python/pyspark/rdd.py:1048-1083 | A shuffle over n splits neither loses nor repeats a row |
| `TransitiveClosure.Run` | initial-deployment-puppet/modules/spark/files/spark/examples/src/main/python/transitive_closure.py:44-64 | For every edge list and partitioning the loop ends with each pair once; `tc` is exactly the transitive closure if and only if the first round's count differs from the number of edges or that round's pairs are closed already, hence for every duplicate-free edge list |
| `TransitiveClosure.Round` | initial-deployment-puppet/modules/spark/files/spark/examples/src/main/python/transitive_closure.py:58-61 | One round holds the old pairs and every pair one edge longer, each once |
| `TransitiveClosure.SameCountIsClosed` | initial-deployment-puppet/modules/spark/files/spark/examples/src/main/python/transitive_closure.py:62-64 | Counts never shrink, and equal counts mean an unchanged set: why comparing counts is enough |
| `TransitiveClosure.ExitIsClosure` | initial-deployment-puppet/modules/spark/files/spark/examples/src/main/python/transitive_closure.py:63-64 | At the break, `tc` holds exactly the connected pairs |
| `TransitiveClosure.ClosedIsClosure` | initial-deployment-puppet/modules/spark/files/spark/examples/src/main/python/transitive_closure.py:58-64 | Between the edges and their closure, a set of pairs is the closure exactly when no round could extend it |
| `TransitiveClosure.CountBound` | initial-deployment-puppet/modules/spark/files/spark/examples/src/main/python/transitive_closure.py:62-62 | The count is bounded by the number of vertex pairs, which is why the loop ends |
| `StatCounters.StreamingCorrect` | initial-deployment-puppet/modules/spark/files/spark/python/pyspark/statcounter.py:36-40 | One `merge` keeps n, mean and m2 equal to count, mean and summed squared deviations |
| `StatCounters.MergeCorrect` | initial-deployment-puppet/modules/spark/files/spark/python/pyspark/statcounter.py:63-76 | In all three size branches, n, mean and m2 of the merge describe the concatenated data |
| `StatCounters.MergedMeanBalances` | initial-deployment-puppet/modules/spark/files/spark/python/pyspark/statcounter.py:64-70 | The three formulas for the merged mean agree |
| `StatCounters.CrossTermCorrect` | initial-deployment-puppet/modules/spark/files/spark/python/pyspark/statcounter.py:75-75 | The cross term added to m2 is exactly the squared deviations that moving both means adds |
| `StatCounters.StatCounter.Merge` | initial-deployment-puppet/modules/spark/files/spark/python/pyspark/statcounter.py:36-46 | The counter stands for its old values and the new one, extremes included |
| `StatCounters.StatCounter.MergeStats` | initial-deployment-puppet/modules/spark/files/spark/python/pyspark/statcounter.py:49-77 | Merging distinct counters stands for the concatenation; merging a counter with itself is a TypeError that changes nothing; non-empty counters merge their extremes exactly when neither is more than ten times the size of the other |
| `StatCounters.StatCounter.Variance` | initial-deployment-puppet/modules/spark/files/spark/python/pyspark/statcounter.py:99-103 | n times the variance is the summed squared deviation from the true mean; nan exactly on no data |
| `StatCounters.StatCounter.SampleVariance` | initial-deployment-puppet/modules/spark/files/spark/python/pyspark/statcounter.py:109-113 | The same with n - 1; nan exactly below two values |
| `StatCounters.StatsIgnorePartitioning` | initial-deployment-puppet/modules/spark/files/spark/python/pyspark/rdd.py:710-718 | n, mean and m2 depend only on the bag of values, not on partitions or merge order |
| `StatCounters.MaxMergeExact` | initial-deployment-puppet/modules/spark/files/spark/python/pyspark/statcounter.py:69-73 | A merge keeps the maximum right if and only if an operand is empty, the sizes are within a factor of ten, or the left maximum is not the smaller one; the same for the minimum |
| `StatCounters.StatsMaxExact` | initial-deployment-puppet/modules/spark/files/spark/python/pyspark/statcounter.py:69-73 | `stats()` reports the true maximum if and only if some partition whose size lets its extremes through attains it |
| `StatCounters.StatsMinExact` | initial-deployment-puppet/modules/spark/files/spark/python/pyspark/statcounter.py:69-73 | The same condition for the minimum |
| `StatCounters.StatsMaxCanBeWrong` | initial-deployment-puppet/modules/spark/files/spark/python/pyspark/statcounter.py:69-73 | A concrete data set on which `stats()` misses the maximum |
| `StatCounters.Stats` | initial-deployment-puppet/modules/spark/files/spark/python/pyspark/rdd.py:710-718 | For every partitioning the merged counter describes the whole data set; an error exactly when there is no partition |
| `Pipelined.Run` | initial-deployment-puppet/modules/spark/files/spark/python/pyspark/rdd.py:1359-1426 | For every driver program of transformations on any RDD made so far, interleaved with cache, persist, unpersist and checkpoint calls, fused stages compute what applying every function one at a time computes, split by split, and keep a partitioner exactly when every transformation of the lineage does |
| `Pipelined.MapMeans` | initial-deployment-puppet/modules/spark/files/spark/python/pyspark/rdd.py:249-258 | `map` adds an RDD whose splits are the parent's, value by value through f; the partitioner is kept if the flag says so |
| `Pipelined.FlatMapMeans` | initial-deployment-puppet/modules/spark/files/spark/python/pyspark/rdd.py:260-272 | `flatMap` concatenates what g gives for each value, split by split |
| `Pipelined.MapPartitionsMeans` | initial-deployment-puppet/modules/spark/files/spark/python/pyspark/rdd.py:274-284 | `mapPartitions` applies its function to each split and never keeps the partitioner |
| `Pipelined.WithIndexMeans` | initial-deployment-puppet/modules/spark/files/spark/python/pyspark/rdd.py:286-296 | `mapPartitionsWithIndex` applies its function to each index and split, and keeps the partitioner if the flag says so |
| `Pipelined.FilterMeans` | initial-deployment-puppet/modules/spark/files/spark/python/pyspark/rdd.py:314-323 | `filter` keeps, in each split, exactly the occurrences of values that satisfy the predicate, and never the partitioner |
| `Pipelined.FilterConcat` | initial-deployment-puppet/modules/spark/files/spark/python/pyspark/rdd.py:314-323 | Filtering goes value by value, in order |
| `Pipelined.StorageChangesNothing` | initial-deployment-puppet/modules/spark/files/spark/python/pyspark/rdd.py:194-231 | Storage commands change no data |
| `Pipelined.RDD.constructor` | initial-deployment-puppet/modules/spark/files/spark/python/pyspark/rdd.py:1375-1397 | Fuses exactly when the parent is a pipelinable PipelinedRDD, and then claims preserved partitioning only if both do |
| `Pipelined.RDD.Cache` | initial-deployment-puppet/modules/spark/files/spark/python/pyspark/rdd.py:194-211 | cache and persist fix the stage without changing what the RDD means |
| `Pipelined.RDD.Unpersist` | initial-deployment-puppet/modules/spark/files/spark/python/pyspark/rdd.py:213-219 | unpersist makes the RDD fusible again without changing what it means |
| `Pipelined.RDD.Checkpoint` | initial-deployment-puppet/modules/spark/files/spark/python/pyspark/rdd.py:221-231 | checkpoint fixes the stage without changing what the RDD means |
| `Pipelined.FuseApplies` | initial-deployment-puppet/modules/spark/files/spark/python/pyspark/rdd.py:1383-1386 | Running `pipeline_func` on every split is running its two parts one after the other |
| `AccumulatorRuns.Conservation` | initial-deployment-puppet/modules/spark/files/spark/python/pyspark/accumulators.py:103-158 | At every point of every interleaving, for every accumulator under its own AccumulatorParam: driver value + updates in flight + task-local values = the value of its Create step + all terms that the driver's and the tasks' additions named in the steps, those of failed tasks excepted |
| `AccumulatorRuns.Quiescence` | initial-deployment-puppet/modules/spark/files/spark/python/pyspark/accumulators.py:211-219 | Counted from the steps alone: with every task over and every finished task's batch delivered, each accumulator's driver value is its creation value and exactly the terms named for it, those of failed tasks excepted |
| `AccumulatorRuns.PrefixIsHistory` | initial-deployment-puppet/modules/spark/files/spark/python/pyspark/accumulators.py:103-158 | A run stopped at any point is a run, so what holds at the end of every run holds throughout |
| `AccumulatorRuns.HistoryAgrees` | initial-deployment-puppet/modules/spark/files/spark/python/pyspark/accumulators.py:103-158 | Every state agrees with the steps before it: ids, parameters and creation values are those of the Create steps in order; the running tasks have the accumulators and terms that their steps gave them; every finished and undelivered task has a batch in flight; and the bag of terms booked, running and lost is the bag of terms named |
| `AccumulatorRuns.NothingLost` | initial-deployment-puppet/modules/spark/files/spark/python/pyspark/accumulators.py:211-219 | Where no task failed, the terms kept are all the terms named |
| `AccumulatorRuns.Progress` | initial-deployment-puppet/modules/spark/files/spark/python/pyspark/worker.py:88-92 | Nothing blocks: a running task can always finish, and a batch in flight can always be delivered, because no update misses its accumulator |
| `AccumulatorRuns.EnabledBySteps` | initial-deployment-puppet/modules/spark/files/spark/python/pyspark/accumulators.py:103-158 | Which additions, task starts and failures are possible depends only on the accumulators created and the tasks running by the steps so far |
| `AccumulatorRuns.OneTaskRun` | initial-deployment-puppet/modules/spark/files/spark/python/pyspark/accumulators.py:22-43 | A run: one task adds 5 to an accumulator created as 2 and its batch is delivered; the driver ends with 7 |
| `AccumulatorRuns.AddedPerm` | initial-deployment-puppet/modules/spark/files/spark/python/pyspark/accumulators.py:214-217 | The order in which terms arrive does not change their sum |
| `Accumulators.StepKeepsInv` | initial-deployment-puppet/modules/spark/files/spark/python/pyspark/accumulators.py:103-158 | Every step of the protocol keeps the invariant that conservation rests on: local values are the sums of the terms added, updates only name known ids, and driver value and flight make up creation value and booked terms |
| `Accumulators.KeepsFinish` | initial-deployment-puppet/modules/spark/files/spark/python/pyspark/worker.py:88-92 | Shipping a task's registry, listed in any order, keeps that invariant: the batch carries exactly the task's terms |
| `Accumulators.KeepsDeliver` | initial-deployment-puppet/modules/spark/files/spark/python/pyspark/accumulators.py:211-219 | Applying one batch moves exactly its amounts to the driver |
| `Accumulators.ApplyAllAdds` | initial-deployment-puppet/modules/spark/files/spark/python/pyspark/accumulators.py:214-217 | The handler's loop adds to each accumulator, by its own addInPlace, the sum of its updates, and leaves the others alone |
| `Accumulators.ApplyAllSucceeds` | initial-deployment-puppet/modules/spark/files/spark/python/pyspark/accumulators.py:214-217 | The handler's loop succeeds if and only if every id is registered, and changes neither the ids nor their parameters |
| `Accumulators.SameZero` | initial-deployment-puppet/modules/spark/files/spark/python/pyspark/accumulators.py:132-135 | `zero` may look at the value it is given, but the laws force the same zero on all values of one accumulator |
| `Accumulators.IntParamLawful` | initial-deployment-puppet/modules/spark/files/spark/python/pyspark/accumulators.py:187-206 | The integer parameter obeys the laws that conservation asks for |
| `Accumulators.VectorParamLawful` | initial-deployment-puppet/modules/spark/files/spark/python/pyspark/accumulators.py:53-59 | So does the documented vector parameter, whose zero depends on the value, on vectors of one length |
| `Accumulators.Registry.Ship` | initial-deployment-puppet/modules/spark/files/spark/python/pyspark/accumulators.py:103-135 | A worker that unpickles accumulators holds exactly these, each at `zero` of its driver value |
| `Accumulators.Registry.Handle` | initial-deployment-puppet/modules/spark/files/spark/python/pyspark/accumulators.py:212-217 | The loop applies the updates in order, up to the first unknown id |
| `Accumulators.Registry.Report` | initial-deployment-puppet/modules/spark/files/spark/python/pyspark/worker.py:88-92 | Every registered id once, with its local value |
| `Serializers.StreamRoundTrip` | initial-deployment-puppet/modules/spark/files/spark/python/pyspark/serializers.py:122-146 | Reading back a dumped stream yields the objects before the first empty payload and ends cleanly; the round trip is exact if and only if no payload is empty |
| `Serializers.CutOffPayload` | initial-deployment-puppet/modules/spark/files/spark/python/pyspark/serializers.py:126-146 | A stream that breaks off inside a payload yields exactly the objects before it; when `loads` meets the stump with EOFError, that reads as a clean end |
| `Serializers.FrameBytes` | initial-deployment-puppet/modules/spark/files/spark/python/pyspark/serializers.py:133-139 | A frame written out: the length, most significant byte first, and the payload |
| `Serializers.NegativeLength` | initial-deployment-puppet/modules/spark/files/spark/python/pyspark/serializers.py:141-146 | A negative length swallows the rest of the stream |
| `Serializers.Stream.DumpStream` | initial-deployment-puppet/modules/spark/files/spark/python/pyspark/serializers.py:122-139 | Writes one frame per object up to the first whose payload reaches 2^31 bytes; nothing of that one or later ones is written, and the call fails exactly then |
| `Serializers.Stream.LoadStream` | initial-deployment-puppet/modules/spark/files/spark/python/pyspark/serializers.py:126-146 | Yields exactly the decoded frames and reports what ended the stream |
| `Serializers.Stream.ReadWithLength` | initial-deployment-puppet/modules/spark/files/spark/python/pyspark/serializers.py:141-146 | One frame off the front: clean end, cut-off length, undecodable or empty payload, and negative lengths included |
| `Serializers.Stream.ReadInt` | initial-deployment-puppet/modules/spark/files/spark/python/pyspark/serializers.py:334-338 | A big-endian signed integer, EOFError on nothing left, struct.error on one to three bytes |
| `Bytes.UnpackPack` | initial-deployment-puppet/modules/spark/files/spark/python/pyspark/serializers.py:334-342 | Unpacking a packed 32-bit integer gives it back, in either byte order |
| `Bytes.PackUnpack` | initial-deployment-puppet/modules/spark/files/spark/python/pyspark/serializers.py:334-342 | Every four bytes are the packing of what they unpack to |
| `Bytes.PackIntDigits` | initial-deployment-puppet/modules/spark/files/spark/python/pyspark/serializers.py:334-342 | The four bytes written out: most significant first, or last |
| `Serializers.Batched` | initial-deployment-puppet/modules/spark/files/spark/python/pyspark/serializers.py:174-188 | For every batch size: the batches concatenate to the input, all but the last are full, none is empty (one batch for an unlimited size) |
| `Serializers.BatchedRoundTrip` | initial-deployment-puppet/modules/spark/files/spark/python/pyspark/serializers.py:190-197 | A batched stream unbatches to the objects that went in |
| `Serializers.ParallelizeFrames` | initial-deployment-puppet/modules/spark/files/spark/python/pyspark/context.py:253-262 | The frames hold the list; there are at least `numSlices` of them whenever there are that many objects; all but the last hold min(len // numSlices, batchSize) objects, or one if that is at most 1 |
| `PairStreams.PrepareRoundTrip` | initial-deployment-puppet/modules/spark/files/spark/python/pyspark/serializers.py:216-224 | The alternating reader recovers every pair of batches, for any mix of batched and unbatched sides |
| `PairStreams.DanglingKey` | initial-deployment-puppet/modules/spark/files/spark/python/pyspark/serializers.py:216-224 | A key frame without its value frame is dropped |
| `PairStreams.ZipExact` | initial-deployment-puppet/modules/spark/files/spark/python/pyspark/serializers.py:249-252 | For collections of equal length, the pair stream is their zip if and only if the batches line up pair by pair |
| `PairStreams.MisalignedZip` | initial-deployment-puppet/modules/spark/files/spark/python/pyspark/serializers.py:249-252 | Two and one keys against one and two values: equally many, yet one key meets a wrong value and the last pair is lost |
| `PairStreams.CartesianCorrect` | initial-deployment-puppet/modules/spark/files/spark/python/pyspark/serializers.py:226-229 | Fed every pair of batches once, in any order, the stream is the full product as a bag |
| `PageRank.MassFlow` | initial-deployment-puppet/modules/spark/files/spark/examples/src/main/python/pagerank.py:60-66 | Each iteration: total rank = 0.85 x (rank of ranked URLs with out-links) + 0.15 x (number of URLs ranked after it) |
| `PageRank.IterationKeepsInvariant` | initial-deployment-puppet/modules/spark/files/spark/examples/src/main/python/pagerank.py:60-66 | Each iteration keeps: every URL ranked at most once, every rank at least 0.15, total at most the number of distinct URLs |
| `PageRank.Run` | initial-deployment-puppet/modules/spark/files/spark/examples/src/main/python/pagerank.py:54-66 | For every input, number of iterations, partitioning and arrival order: the ranks are the outcome of that many rounds, starting from 1.0 on exactly the URLs with out-links of the input, each link once; and each URL is ranked at most once, no rank is below 0.15, the total is at most the number of distinct URLs |
| `PageRank.Iterate` | initial-deployment-puppet/modules/spark/files/spark/examples/src/main/python/pagerank.py:60-66 | The loop body is one such round, and meets the two statements above |
| `PageRank.IterationIsRankRound` | initial-deployment-puppet/modules/spark/files/spark/examples/src/main/python/pagerank.py:60-66 | After an iteration exactly the URLs that a ranked URL links to are ranked, once each, by 0.15 + 0.85 times the sum, over the ranked URLs with out-links, of rank times multiplicity of the link divided by number of links |
| `PageRank.RowInflow` | initial-deployment-puppet/modules/spark/files/spark/examples/src/main/python/pagerank.py:25-29 | What one row contributes to each URL: rank times the share of its links that name the URL |
| `PageRank.ContribsSum` | initial-deployment-puppet/modules/spark/files/spark/examples/src/main/python/pagerank.py:25-29 | In total a row hands out exactly its whole rank |
| `PageRank.JoinedRows` | initial-deployment-puppet/modules/spark/files/spark/examples/src/main/python/pagerank.py:62-63 | The joined rows are the ranked URLs with out-links, each once |
| `CodeScan.ScanExact` | initial-deployment-puppet/modules/spark/files/spark/python/pyspark/cloudpickle.py:321-346 | On every encoded instruction list, with any chain of EXTENDED_ARG prefixes, the scan stays on instruction boundaries and returns exactly the names that global opcodes reference; it fails exactly when one references no name |
| `CodeScan.ScanOne` | initial-deployment-puppet/modules/spark/files/spark/python/pyspark/cloudpickle.py:333-344 | One instruction is consumed exactly and leaves no extended argument behind |
| `CodeScan.ScanPrefixes` | initial-deployment-puppet/modules/spark/files/spark/python/pyspark/cloudpickle.py:337-342 | A chain of prefixes accumulates the high words of the next argument and nothing else |
| `CodeScan.CutOffArgument` | initial-deployment-puppet/modules/spark/files/spark/python/pyspark/cloudpickle.py:337-340 | Code that ends inside an argument is an error |
| `CodeScan.ExtractCodeGlobals` | initial-deployment-puppet/modules/spark/files/spark/python/pyspark/cloudpickle.py:321-346 | The loop computes the scan that these lemmas are about |
| `SparseVectors.Dot` | initial-deployment-puppet/modules/spark/files/spark/python/pyspark/mllib/linalg.py:95-107 | The two-pointer loop computes the dense dot product over any range holding all indices |
| `SparseVectors.SquaredDistance` | initial-deployment-puppet/modules/spark/files/spark/python/pyspark/mllib/linalg.py:139-160 | The three loops compute the dense squared distance over any range holding all indices |
| `SparseVectors.DotArray` | initial-deployment-puppet/modules/spark/files/spark/python/pyspark/mllib/linalg.py:84-89 | Against an array: an IndexError exactly for a position numpy rejects; otherwise the sum over the entries, negative positions counted from the end; the dense dot product when all indices are in range |
| `SparseVectors.SquaredDistanceArray` | initial-deployment-puppet/modules/spark/files/spark/python/pyspark/mllib/linalg.py:124-135 | Against an array: the distance over its coordinates when no index is negative; a negative first index makes every entry be skipped |
| `SparseVectors.DotSymmetric` | initial-deployment-puppet/modules/spark/files/spark/python/pyspark/mllib/linalg.py:69-107 | The dense value of `dot` is symmetric |
| `SparseVectors.Polarization` | initial-deployment-puppet/modules/spark/files/spark/python/pyspark/mllib/linalg.py:109-160 | The squared distance is symmetric and equals a.a + b.b - 2 a.b |
| `SparseVectors.MergeStep` | initial-deployment-puppet/modules/spark/files/spark/python/pyspark/mllib/linalg.py:98-106 | Advancing past the smaller next index accounts for every coordinate up to it |
| `SparseVectors.FromArrays` | initial-deployment-puppet/modules/spark/files/spark/python/pyspark/mllib/linalg.py:62-67 | Accepts exactly equally long arrays with strictly increasing indices |
| `SparseVectors.FromPairsValid` | initial-deployment-puppet/modules/spark/files/spark/python/pyspark/mllib/linalg.py:54-60 | The pair constructor, which does not check, yields a proper vector if and only if no index is repeated |
| `SparseVectors.FromPairsEntries` | initial-deployment-puppet/modules/spark/files/spark/python/pyspark/mllib/linalg.py:54-60 | The pair constructor keeps the size and the bag of pairs, each value beside its index, in the order of indices |
| `SparseVectors.FromPairsAt` | initial-deployment-puppet/modules/spark/files/spark/python/pyspark/mllib/linalg.py:54-60 | With no index repeated, the vector holds each given value at its index and zero everywhere else |
| `SparseVectors.ArrayAtFromEnd` | initial-deployment-puppet/modules/spark/files/spark/python/pyspark/mllib/linalg.py:84-89 | A negative position names the entry that many places from the end |
| `VectorBytes.VectorFormatIsTwoSided` | initial-deployment-puppet/modules/spark/files/spark/python/pyspark/mllib/_common.py:117-200 | Deserializing undoes serializing for dense and sorted sparse vectors, and every accepted byte array is what serializing its result writes |
| `VectorBytes.SparseRoundTrip` | initial-deployment-puppet/modules/spark/files/spark/python/pyspark/mllib/_common.py:136-200 | A serialized sparse vector is read back if its indices increase, and rejected otherwise |
| `VectorBytes.MatrixFormatIsTwoSided` | initial-deployment-puppet/modules/spark/files/spark/python/pyspark/mllib/_common.py:203-242 | The same two directions for matrices; the deserializer also accepts matrices without elements |
| `VectorBytes.Layouts` | initial-deployment-puppet/modules/spark/files/spark/python/pyspark/mllib/_common.py:117-219 | The three formats written out: magic bytes 1, 2 and 3, the header integers and where the arrays start |
| `VectorBytes.ArrayBytesAt` | initial-deployment-puppet/modules/spark/files/spark/python/pyspark/mllib/_common.py:117-219 | The i-th value of an array takes its own bytes, in order |
| `VectorBytes.SerializeMatrix` | initial-deployment-puppet/modules/spark/files/spark/python/pyspark/mllib/_common.py:203-219 | Writes the format for every matrix with an element, and fails exactly on one without |
| `VectorBytes.SerializeDense` | initial-deployment-puppet/modules/spark/files/spark/python/pyspark/mllib/_common.py:117-133 | The byte array filled through views holds exactly the dense format |
| `VectorBytes.SerializeSparse` | initial-deployment-puppet/modules/spark/files/spark/python/pyspark/mllib/_common.py:136-147 | The byte array filled through views holds exactly the sparse format |
| `VectorBytes.Put` | initial-deployment-puppet/modules/spark/files/spark/python/pyspark/mllib/_common.py:256-265 | Writing through a view replaces exactly the bytes it covers |
| `Actions.FoldExact` | initial-deployment-puppet/modules/spark/files/spark/python/pyspark/rdd.py:622-642 | For an associative op with neutral zero, `fold` agrees with the sequential fold on every partitioning if and only if op is commutative, although the documentation asks for associativity only |
| `Actions.FoldIsBackwards` | initial-deployment-puppet/modules/spark/files/spark/python/pyspark/rdd.py:636-642 | What `fold` computes otherwise: the fold of the data with every partition taken back to front |
| `Actions.AggregateExact` | initial-deployment-puppet/modules/spark/files/spark/python/pyspark/rdd.py:644-671 | With a neutral zero, `aggregate` equals the sequential fold of seqOp on every partitioning if and only if combOp merges the folds of any two lists into the fold of their concatenation |
| `Actions.Fold` | initial-deployment-puppet/modules/spark/files/spark/python/pyspark/rdd.py:636-642 | The worker and driver loops compute the function these lemmas are about |
| `Actions.AggregateCorrect` | initial-deployment-puppet/modules/spark/files/spark/python/pyspark/rdd.py:644-671 | A condition on the two functions alone that suffices: combOp(a, seqOp(b, x)) = seqOp(combOp(a, b), x), without commutativity |
| `Actions.Aggregate` | initial-deployment-puppet/modules/spark/files/spark/python/pyspark/rdd.py:665-671 | The loops compute the function that lemma is about |
| `Actions.ReduceExact` | initial-deployment-puppet/modules/spark/files/spark/python/pyspark/rdd.py:599-620 | For a commutative and associative f, `reduce` equals the fold of the whole data set, for every partitioning and whatever None values the data holds next to others, if and only if f passes over None and makes none out of other values; equivalently, if and only if it is always the fold of the values that are not None |
| `Actions.ReduceDropsNone` | initial-deployment-puppet/modules/spark/files/spark/python/pyspark/rdd.py:599-620 | One data set at a time: `reduce` is the fold of the values that are not None, on every partitioning and any mix of empty partitions; f must pass over None only if the data holds one |
| `Actions.ReduceOfOnlyNone` | initial-deployment-puppet/modules/spark/files/spark/python/pyspark/rdd.py:599-620 | For any f at all, `reduce` fails on no data and on data that holds only None |
| `Actions.ReduceOfTwo` | initial-deployment-puppet/modules/spark/files/spark/python/pyspark/rdd.py:610-618 | The input that shows the other condition necessary: a None that f makes of two values is taken for an empty partition |
| `Actions.ReduceOfNone` | initial-deployment-puppet/modules/spark/files/spark/python/pyspark/rdd.py:610-618 | The inputs that show one condition necessary: a None in front of a value is dropped, one behind it is passed to f |
| `Actions.ReduceIsBackwards` | initial-deployment-puppet/modules/spark/files/spark/python/pyspark/rdd.py:608-620 | What `reduce` computes for an associative function alone, on data without None: the fold of the data with every partition taken back to front |
| `Actions.Reduce` | initial-deployment-puppet/modules/spark/files/spark/python/pyspark/rdd.py:610-620 | The loops compute the function these lemmas are about |
| `Actions.Take` | initial-deployment-puppet/modules/spark/files/spark/python/pyspark/rdd.py:853-872 | For every integer num, exactly the first num collected values |

## Left out

- KMeans.Run: excludes a negative `convergeDist`, on which the loop never ends (`KMeans.NegativeThresholdNeverStops`).
- KMeans.Iterate: points and centres share one dimension; numpy's errors and broadcasting on mixed ones are not modelled.
- Shuffle.PartitionBy: `numPartitions` is positive, as the JVM partitioner requires.
- SortByKey.Run: the sampler's draws are any numbers from 0 to 1; the seeded generators behind them are not modelled.
- Pipelined.Run: that the JVM keeps a partitioner exactly when told so is an assumption; serializers of a stage are not modelled.
- Accumulators.Conservation: assumes parameters whose addition is commutative and associative with neutral zero on the values of the accumulator, terms among these values, and one registration of each accumulator per task; driver code that overwrites `value` is not a step.
- Serializers.Stream.ReadWithLength: what a payload decodes to, and which exception a truncated one raises, is up to the abstract codec.
- PairStreams.ZipExact: serializers that are themselves pair or cartesian deserializers (a zip of a zip) are not modelled.
- SparseVectors.FromPairsValid: narrowing of indices to 32 bits is not modelled; `dot` with a two-dimensional array is one call per column.
- VectorBytes.SerializeDense: lengths that do not fit the 32-bit header are excluded; labelled points are not modelled.
- PageRank.Run: splitting input lines into pairs is not modelled; the input is the list of pairs.
- Actions.Reduce: `sum`, `count`, `top`, `countByValue`, `max` and `min` are left out as further instances.
- Sampling with replacement (`takeSample`, the Poisson half of `rddsampler.py`), `pipe`, text files, broadcast variables and SQL.
- In-place updates of user-supplied mutable values (a shared zero value, a list that two combiners alias).
- Worker processes, sockets, timing data and exception reports of `worker.py` and `daemon.py`; one process serves one task.
- Floating-point rounding, square roots, `repr` texts.
- The deployment scripts, Puppet manifests and launchers of the repository.
