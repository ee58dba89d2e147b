/** Runs of the accumulator protocol, counted from their steps alone: what was created, what was
    added, what got lost with a failed task, and what the driver must hold in the end. */
module AccumulatorRuns {
  import opened Seqs
  import opened Shuffle
  import opened Accumulators

  ghost predicate Leads<V(!new)>(s: State<V>, step: Step<V>, s': State<V>)
  {
    Enabled(s, step) && s' == Next(s, step)
  }

  /** A run from an empty driver: the states between any interleaving of enabled steps. */
  ghost predicate IsHistory<V(!new)>(steps: seq<Step<V>>, states: seq<State<V>>)
  {
    && |states| == |steps| + 1
    && states[0].driver == map[] && states[0].initial == map[] && states[0].nextId == 0
    && states[0].tasks == [] && states[0].flight == [] && states[0].added == []
    && forall i :: 0 <= i < |steps| ==> Leads(states[i], steps[i], states[i + 1])
  }

  /** A run stopped at any point is a run. */
  lemma PrefixIsHistory<V(!new)>(steps: seq<Step<V>>, states: seq<State<V>>)
    requires IsHistory(steps, states) && steps != []
    ensures var n := |steps| - 1;
      IsHistory(steps[..n], states[..n + 1]) && Leads(states[n], steps[n], states[n + 1])
  {
    hide Leads;
    var n := |steps| - 1;
    assert forall i :: 0 <= i < n ==> Leads(states[i], steps[i], states[i + 1]);
  }

  lemma {:induction false} RunKeepsInv<V(!new)>(steps: seq<Step<V>>, states: seq<State<V>>)
    requires IsHistory(steps, states)
    ensures Inv(states[|steps|])
  {
    if steps != [] {
      hide Inv, Enabled, Next;
      var n := |steps| - 1;
      PrefixIsHistory(steps, states);
      RunKeepsInv(steps[..n], states[..n + 1]);
      hide IsHistory;
      StepKeepsInv(states[n], steps[n]);
    }
  }

  // ---------- What the steps say ----------

  /** The accumulators created, in order; the ids are their positions. */
  ghost function Creations<V>(steps: seq<Step<V>>): seq<Accum<V>>
  {
    if steps == [] then []
    else
      var before := Creations(steps[..|steps| - 1]);
      match steps[|steps| - 1]
      case Create(value, param) => before + [Accum(param, value)]
      case _ => before
  }

  ghost function NamedBy<V>(step: Step<V>): seq<(int, V)>
  {
    match step
    case DriverAdd(aid, term) => [(aid, term)]
    case TaskAdd(_, aid, term) => [(aid, term)]
    case _ => []
  }

  /** The terms added by the driver and by tasks. */
  ghost function Named<V>(steps: seq<Step<V>>): seq<(int, V)>
  {
    if steps == [] then [] else Named(steps[..|steps| - 1]) + NamedBy(steps[|steps| - 1])
  }

  /** A task that was started and has neither finished nor failed: the accumulators it mentions and
      the terms it added. */
  datatype Running<!V> = Running(aids: set<int>, terms: seq<(int, V)>)

  ghost function OpenAfter<V>(open: seq<Running<V>>, step: Step<V>): seq<Running<V>>
  {
    match step
    case StartTask(aids) => open + [Running(aids, [])]
    case TaskAdd(t, aid, term) =>
      if t < |open| then open[t := Running(open[t].aids, open[t].terms + [(aid, term)])] else open
    case Finish(t, _) => if t < |open| then Remove(open, t) else open
    case Fail(t) => if t < |open| then Remove(open, t) else open
    case _ => open
  }

  /** The running tasks, oldest first. */
  ghost function Open<V>(steps: seq<Step<V>>): seq<Running<V>>
  {
    if steps == [] then [] else OpenAfter(Open(steps[..|steps| - 1]), steps[|steps| - 1])
  }

  ghost function LostBy<V>(open: seq<Running<V>>, step: Step<V>): seq<(int, V)>
  {
    if step.Fail? && step.task < |open| then open[step.task].terms else []
  }

  /** The terms of tasks that failed. */
  ghost function Lost<V>(steps: seq<Step<V>>): seq<(int, V)>
  {
    if steps == [] then []
    else Lost(steps[..|steps| - 1]) + LostBy(Open(steps[..|steps| - 1]), steps[|steps| - 1])
  }

  ghost function Finishes<V>(steps: seq<Step<V>>): nat
  {
    if steps == [] then 0 else Finishes(steps[..|steps| - 1]) + if steps[|steps| - 1].Finish? then 1 else 0
  }

  ghost function Deliveries<V>(steps: seq<Step<V>>): nat
  {
    if steps == [] then 0 else Deliveries(steps[..|steps| - 1]) + if steps[|steps| - 1].Deliver? then 1 else 0
  }

  function TermsOf<V>(open: seq<Running<V>>): (r: seq<seq<(int, V)>>)
    ensures |r| == |open|
    ensures forall i :: 0 <= i < |open| ==> r[i] == open[i].terms
  {
    seq(|open|, i requires 0 <= i < |open| => open[i].terms)
  }

  ghost function TermsBag<V>(open: seq<Running<V>>): multiset<(int, V)>
  {
    multiset(Flatten(TermsOf(open)))
  }

  // ---------- The states agree with the steps ----------

  /** The accumulators are those created. */
  ghost predicate SameAccums<V>(steps: seq<Step<V>>, s: State<V>)
  {
    && s.nextId == |Creations(steps)| && s.driver.Keys == s.initial.Keys
    && (forall aid :: aid in s.driver <==> 0 <= aid < |Creations(steps)|)
    && (forall aid :: aid in s.driver ==>
          s.driver[aid].param == Creations(steps)[aid].param && s.initial[aid] == Creations(steps)[aid].value)
  }

  ghost predicate Matches<V>(tasks: seq<Task<V>>, open: seq<Running<V>>)
  {
    && |tasks| == |open|
    && forall t :: 0 <= t < |tasks| ==> tasks[t].terms == open[t].terms && tasks[t].local.Keys == open[t].aids
  }

  /** The tasks are those running, with their accumulators and terms; a batch is in flight for every
      finished task whose batch was not delivered. */
  ghost predicate SameTasks<V>(steps: seq<Step<V>>, s: State<V>)
  {
    && Matches(s.tasks, Open(steps))
    && |s.flight| + Deliveries(steps) == Finishes(steps)
  }

  /** No term is forgotten, none is counted twice. */
  ghost predicate SameTerms<V>(steps: seq<Step<V>>, s: State<V>)
  {
    multiset(s.added) + TermsBag(Open(steps)) + multiset(Lost(steps)) == multiset(Named(steps))
  }

  ghost predicate Agrees<V>(steps: seq<Step<V>>, s: State<V>)
  {
    SameAccums(steps, s) && SameTasks(steps, s) && SameTerms(steps, s)
  }

  lemma FlattenAround<T>(xss: seq<seq<T>>, t: nat)
    requires t < |xss|
    ensures Flatten(xss) == Flatten(xss[..t]) + xss[t] + Flatten(xss[t + 1..])
  {
    hide Flatten;
    FlattenSnoc(xss, t);
    FlattenRest(xss, t + 1);
  }

  lemma BagConcat<T>(s: seq<T>, t: seq<T>)
    ensures multiset(s + t) == multiset(s) + multiset(t)
  {
  }

  lemma BagRemove<T>(xss: seq<seq<T>>, t: nat)
    requires t < |xss|
    ensures multiset(Flatten(xss)) == multiset(Flatten(Remove(xss, t))) + multiset(xss[t])
  {
    hide Flatten;
    FlattenAround(xss, t);
    FlattenConcat(xss[..t], xss[t + 1..]);
    BagConcat(Flatten(xss[..t]) + xss[t], Flatten(xss[t + 1..]));
    BagConcat(Flatten(xss[..t]), xss[t]);
    BagConcat(Flatten(xss[..t]), Flatten(xss[t + 1..]));
  }

  lemma BagExtend<T>(xss: seq<seq<T>>, t: nat, x: T)
    requires t < |xss|
    ensures multiset(Flatten(xss[t := xss[t] + [x]])) == multiset(Flatten(xss)) + multiset{x}
  {
    hide Flatten;
    var yss := xss[t := xss[t] + [x]];
    BagRemove(xss, t);
    BagRemove(yss, t);
    BagConcat(xss[t], [x]);
    assert Remove(yss, t) == Remove(xss, t);
  }

  lemma KeepsAccums<V(!new)>(steps: seq<Step<V>>, s: State<V>, step: Step<V>)
    requires SameAccums(steps, s) && Enabled(s, step)
    ensures SameAccums(steps + [step], Next(s, step))
  {
    hide Lawful;
    assert (steps + [step])[..|steps|] == steps;
    if step.Deliver? {
      ApplyAllSucceeds(s.driver, s.flight[step.batch]);
      hide ApplyAll;
    }
  }

  lemma MatchesAfter<V(!new)>(s: State<V>, step: Step<V>, open: seq<Running<V>>)
    requires Matches(s.tasks, open) && Enabled(s, step)
    ensures Matches(Next(s, step).tasks, OpenAfter(open, step))
  {
    hide Lawful, ApplyAll, Enumerates;
    match step
    case Create(_, _) =>
    case DriverAdd(_, _) =>
    case StartTask(_) =>
    case TaskAdd(_, _, _) =>
    case Finish(t, _) => MatchesRemove(s.tasks, open, t);
    case Fail(t) => MatchesRemove(s.tasks, open, t);
    case Deliver(_) =>
  }

  lemma MatchesRemove<V>(tasks: seq<Task<V>>, open: seq<Running<V>>, t: nat)
    requires Matches(tasks, open) && t < |tasks|
    ensures Matches(Remove(tasks, t), Remove(open, t))
  {
  }

  lemma KeepsTasks<V(!new)>(steps: seq<Step<V>>, s: State<V>, step: Step<V>)
    requires SameTasks(steps, s) && Enabled(s, step)
    ensures SameTasks(steps + [step], Next(s, step))
  {
    hide Lawful, ApplyAll, Enumerates, Matches, Open;
    LedgerSnoc(steps, step);
    assert (steps + [step])[..|steps|] == steps;
    MatchesAfter(s, step, Open(steps));
    hide OpenAfter;
  }

  lemma BagOfStart<V>(open: seq<Running<V>>, aids: set<int>)
    ensures TermsBag(open + [Running(aids, [])]) == TermsBag(open)
  {
    hide Flatten;
    assert TermsOf(open + [Running(aids, [])]) == TermsOf(open) + [[]];
    FlattenConcat(TermsOf(open), [[]]);
    FlattenOne<(int, V)>([]);
  }

  lemma BagOfAdd<V>(open: seq<Running<V>>, t: nat, x: (int, V))
    requires t < |open|
    ensures TermsBag(open[t := Running(open[t].aids, open[t].terms + [x])]) == TermsBag(open) + multiset{x}
  {
    hide Flatten;
    var lists := TermsOf(open);
    BagExtend(lists, t, x);
    assert TermsOf(open[t := Running(open[t].aids, open[t].terms + [x])]) == lists[t := lists[t] + [x]];
  }

  lemma BagOfRemove<V>(open: seq<Running<V>>, t: nat)
    requires t < |open|
    ensures TermsBag(open) == TermsBag(Remove(open, t)) + multiset(open[t].terms)
  {
    hide Flatten;
    BagRemove(TermsOf(open), t);
    assert TermsOf(Remove(open, t)) == Remove(TermsOf(open), t);
  }

  lemma LedgerSnoc<V>(steps: seq<Step<V>>, step: Step<V>)
    ensures Named(steps + [step]) == Named(steps) + NamedBy(step)
    ensures Open(steps + [step]) == OpenAfter(Open(steps), step)
    ensures Lost(steps + [step]) == Lost(steps) + LostBy(Open(steps), step)
  {
    assert (steps + [step])[..|steps|] == steps;
  }

  /** The terms that a step books as added. */
  ghost function AddedBy<V>(s: State<V>, step: Step<V>): seq<(int, V)>
  {
    match step
    case DriverAdd(aid, term) => [(aid, term)]
    case Finish(t, _) => if t < |s.tasks| then s.tasks[t].terms else []
    case _ => []
  }

  lemma AddedAfter<V(!new)>(s: State<V>, step: Step<V>)
    requires Enabled(s, step)
    ensures Next(s, step).added == s.added + AddedBy(s, step)
  {
    hide Lawful, ApplyAll, Enumerates;
  }

  /** A step moves terms between the books, and brings in those it names. */
  lemma StepMovesTerms<V(!new)>(steps: seq<Step<V>>, s: State<V>, step: Step<V>)
    requires SameTasks(steps, s) && Enabled(s, step)
    ensures TermsBag(OpenAfter(Open(steps), step)) + multiset(AddedBy(s, step)) + multiset(LostBy(Open(steps), step))
         == TermsBag(Open(steps)) + multiset(NamedBy(step))
  {
    hide Lawful, ApplyAll, Enumerates, TermsBag, Open;
    var open := Open(steps);
    match step
    case StartTask(aids) => BagOfStart(open, aids);
    case TaskAdd(t, aid, term) => BagOfAdd(open, t, (aid, term));
    case Finish(t, _) => BagOfRemove(open, t);
    case Fail(t) => BagOfRemove(open, t);
    case _ =>
  }

  lemma Rebalance<T>(a: multiset<T>, o: multiset<T>, l: multiset<T>, n: multiset<T>,
                     a': multiset<T>, o': multiset<T>, l': multiset<T>, n': multiset<T>)
    requires a + o + l == n && o' + a' + l' == o + n'
    ensures (a + a') + o' + (l + l') == n + n'
  {
    forall x
      ensures ((a + a') + o' + (l + l'))[x] == (n + n')[x]
    {
      assert (o' + a' + l')[x] == (o + n')[x] && (a + o + l)[x] == n[x];
    }
  }

  lemma KeepsTerms<V(!new)>(steps: seq<Step<V>>, s: State<V>, step: Step<V>)
    requires SameTasks(steps, s) && SameTerms(steps, s) && Enabled(s, step)
    ensures SameTerms(steps + [step], Next(s, step))
  {
    LedgerSnoc(steps, step);
    AddedAfter(s, step);
    StepMovesTerms(steps, s, step);
    hide Enabled, Next, Open, Named, Lost, OpenAfter, NamedBy, LostBy, AddedBy, TermsBag, SameTasks;
    BagConcat(s.added, AddedBy(s, step));
    BagConcat(Lost(steps), LostBy(Open(steps), step));
    BagConcat(Named(steps), NamedBy(step));
    Rebalance(multiset(s.added), TermsBag(Open(steps)), multiset(Lost(steps)), multiset(Named(steps)),
              multiset(AddedBy(s, step)), TermsBag(OpenAfter(Open(steps), step)), multiset(LostBy(Open(steps), step)),
              multiset(NamedBy(step)));
  }

  /** At every point of a run, the state agrees with the steps before it. */
  lemma {:induction false} HistoryAgrees<V(!new)>(steps: seq<Step<V>>, states: seq<State<V>>)
    requires IsHistory(steps, states)
    ensures Agrees(steps, states[|steps|])
  {
    if steps == [] {
      assert TermsOf<V>([]) == [];
    } else {
      hide SameAccums, SameTasks, SameTerms, Enabled, Next;
      var n := |steps| - 1;
      PrefixIsHistory(steps, states);
      HistoryAgrees(steps[..n], states[..n + 1]);
      hide IsHistory;
      assert steps == steps[..n] + [steps[n]];
      KeepsAccums(steps[..n], states[n], steps[n]);
      KeepsTasks(steps[..n], states[n], steps[n]);
      KeepsTerms(steps[..n], states[n], steps[n]);
    }
  }

  // ---------- Sums do not depend on the order of terms ----------

  lemma {:induction false} AddedPerm<V(!new)>(p: Param<V>, z: V, aid: int, a: seq<(int, V)>, b: seq<(int, V)>)
    requires Lawful(p) && IsZero(p, z) && Typed(p, aid, a) && multiset(a) == multiset(b)
    ensures Typed(p, aid, b) && Added(p, z, aid, a) == Added(p, z, aid, b)
  {
    hide Lawful, IsZero, Added, Typed;
    if a == [] {
      assert |multiset(b)| == 0;
    } else {
      var n := |a| - 1;
      var x := [a[n]];
      var l, r := TakeOut(a, b);
      assert a == a[..n] + x;
      TypedConcat(p, aid, a[..n], x);
      AddedPerm(p, z, aid, a[..n], l + r);
      TypedConcat(p, aid, l, r);
      TypedConcat(p, aid, l + x, r);
      TypedConcat(p, aid, l, x);
      MoveLast(p, z, aid, a[..n], x, l, r);
    }
  }

  lemma MoveLast<V(!new)>(p: Param<V>, z: V, aid: int, init: seq<(int, V)>, x: seq<(int, V)>, l: seq<(int, V)>, r: seq<(int, V)>)
    requires Lawful(p) && IsZero(p, z)
    requires Typed(p, aid, init) && Typed(p, aid, x) && Typed(p, aid, l) && Typed(p, aid, r) && Typed(p, aid, l + x)
    requires Added(p, z, aid, init) == Added(p, z, aid, l + r)
    ensures Added(p, z, aid, init + x) == Added(p, z, aid, l + x + r)
  {
    hide Lawful, IsZero, Added, Typed;
    AddedConcat(p, z, aid, init, x);
    AddedConcat(p, z, aid, l, r);
    AddedConcat(p, z, aid, l, x);
    AddedConcat(p, z, aid, l + x, r);
    AddedHolds(p, z, aid, l);
    AddedHolds(p, z, aid, x);
    AddedHolds(p, z, aid, r);
    var (a, b, c) := (Added(p, z, aid, l), Added(p, z, aid, x), Added(p, z, aid, r));
    Laws(p, a, c, b);
    Laws(p, c, b, a);
    Laws(p, a, b, c);
  }

  // ---------- Conservation ----------

  /** Local values of aid in the running tasks, and the terms those tasks added. */
  ghost function LocalSum<V>(s: State<V>, aid: int, tasks: seq<Task<V>>): V
    requires aid in s.driver && aid in s.initial
  {
    if tasks == [] then ZeroOf(s, aid)
    else
      var t := tasks[|tasks| - 1];
      s.driver[aid].param.plus(LocalSum(s, aid, tasks[..|tasks| - 1]), if aid in t.local then t.local[aid].value else ZeroOf(s, aid))
  }

  function RunningTerms<V>(tasks: seq<Task<V>>): seq<(int, V)>
  {
    if tasks == [] then [] else RunningTerms(tasks[..|tasks| - 1]) + tasks[|tasks| - 1].terms
  }

  lemma {:induction false} LocalSumIsTerms<V(!new)>(s: State<V>, aid: int, tasks: seq<Task<V>>)
    requires aid in s.driver && aid in s.initial
    requires Lawful(s.driver[aid].param) && IsZero(s.driver[aid].param, ZeroOf(s, aid))
    requires forall i :: 0 <= i < |tasks| ==> TaskInv(s, tasks[i])
    ensures LocalSum(s, aid, tasks) == AddedTo(s, aid, RunningTerms(tasks))
    ensures Known(s.driver, RunningTerms(tasks))
  {
    hide Lawful, IsZero, TaskInv;
    if tasks != [] {
      hide AddedTo, Known;
      var n := |tasks| - 1;
      assert forall i :: 0 <= i < n ==> tasks[..n][i] == tasks[i];
      LocalSumIsTerms(s, aid, tasks[..n]);
      OneMoreTask(s, aid, RunningTerms(tasks[..n]), tasks[n]);
      KnownConcat(s.driver, RunningTerms(tasks[..n]), tasks[n].terms);
    }
  }

  lemma OneMoreTask<V(!new)>(s: State<V>, aid: int, terms: seq<(int, V)>, t: Task<V>)
    requires aid in s.driver && aid in s.initial
    requires Lawful(s.driver[aid].param) && IsZero(s.driver[aid].param, ZeroOf(s, aid))
    requires Known(s.driver, terms) && TaskInv(s, t)
    ensures Known(s.driver, t.terms)
    ensures AddedTo(s, aid, terms + t.terms)
         == s.driver[aid].param.plus(AddedTo(s, aid, terms), if aid in t.local then t.local[aid].value else ZeroOf(s, aid))
  {
    hide Lawful, IsZero, Added;
    LocalIsTerms(s, aid, t);
    assert Known(s.driver, t.terms);
    hide TaskInv;
    KnownTyped(s, terms, aid);
    KnownTyped(s, t.terms, aid);
    hide Known, Typed;
    AddedConcat(s.driver[aid].param, ZeroOf(s, aid), aid, terms, t.terms);
  }

  lemma {:induction false} RunningTermsFlatten<V>(tasks: seq<Task<V>>, lists: seq<seq<(int, V)>>)
    requires |tasks| == |lists| && forall t :: 0 <= t < |tasks| ==> tasks[t].terms == lists[t]
    ensures RunningTerms(tasks) == Flatten(lists)
  {
    if tasks != [] {
      var n := |tasks| - 1;
      RunningTermsFlatten(tasks[..n], lists[..n]);
      FlattenSnoc(lists, n);
      assert lists[..n + 1] == lists;
    }
  }

  /** Driver, flight and local values together hold what the history of the state records. */
  lemma HistoryBalance<V(!new)>(s: State<V>, aid: int)
    requires Inv(s) && aid in s.driver
    ensures aid in s.initial && Typed(s.driver[aid].param, aid, s.added + RunningTerms(s.tasks))
    ensures s.driver[aid].param.plus(
              s.driver[aid].param.plus(s.driver[aid].value, AddedTo(s, aid, Flatten(s.flight))), LocalSum(s, aid, s.tasks))
         == s.driver[aid].param.plus(s.initial[aid], AddedTo(s, aid, s.added + RunningTerms(s.tasks)))
  {
    AccumFacts(s, aid);
    LocalSumIsTerms(s, aid, s.tasks);
    assert Balanced(s, aid);
    hide Lawful, Inv, IsZero, Added;
    var (p, z) := (s.driver[aid].param, ZeroOf(s, aid));
    KnownTyped(s, RunningTerms(s.tasks), aid);
    TypedConcat(p, aid, s.added, RunningTerms(s.tasks));
    AddedConcat(p, z, aid, s.added, RunningTerms(s.tasks));
    AddedHolds(p, z, aid, RunningTerms(s.tasks));
    Laws(p, s.initial[aid], AddedTo(s, aid, s.added), LocalSum(s, aid, s.tasks));
  }

  /** The terms named in the steps, in any order, less those lost with failed tasks. */
  ghost predicate IsKept<V>(steps: seq<Step<V>>, kept: seq<(int, V)>)
  {
    multiset(kept) + multiset(Lost(steps)) == multiset(Named(steps))
  }

  /** What accumulator aid is worth by the steps: its creation value and its share of kept. */
  ghost function Worth<V>(steps: seq<Step<V>>, aid: int, kept: seq<(int, V)>): V
    requires 0 <= aid < |Creations(steps)|
  {
    var c := Creations(steps)[aid];
    c.param.plus(c.value, Added(c.param, c.param.zero(c.value), aid, kept))
  }

  /** Main result: at every point of every run, for every accumulator the run has created and under
      its own addition, driver value + updates in flight + task-local values is the value of its
      Create step and all the terms that DriverAdd and TaskAdd steps named for it, those of failed
      tasks excepted. */
  lemma Conservation<V(!new)>(steps: seq<Step<V>>, states: seq<State<V>>, aid: int, kept: seq<(int, V)>)
    requires IsHistory(steps, states)
    requires 0 <= aid < |Creations(steps)| && IsKept(steps, kept)
    ensures var s := states[|steps|];
      && aid in s.driver && aid in s.initial && s.driver[aid].param == Creations(steps)[aid].param
      && s.driver[aid].param.plus(
           s.driver[aid].param.plus(s.driver[aid].value, AddedTo(s, aid, Flatten(s.flight))), LocalSum(s, aid, s.tasks))
      == Worth(steps, aid, kept)
  {
    var s := states[|steps|];
    RunKeepsInv(steps, states);
    HistoryAgrees(steps, states);
    HistoryBalance(s, aid);
    AccumFacts(s, aid);
    KeptIsHistory(steps, s, kept);
    hide Lawful, Inv, IsZero, Added, Typed;
    AddedPerm(s.driver[aid].param, ZeroOf(s, aid), aid, s.added + RunningTerms(s.tasks), kept);
  }

  lemma KeptIsHistory<V(!new)>(steps: seq<Step<V>>, s: State<V>, kept: seq<(int, V)>)
    requires Agrees(steps, s) && IsKept(steps, kept)
    ensures multiset(s.added + RunningTerms(s.tasks)) == multiset(kept)
  {
    RunningTermsFlatten(s.tasks, TermsOf(Open(steps)));
    Cancel(multiset(s.added + RunningTerms(s.tasks)), multiset(kept), multiset(Lost(steps)));
  }

  /** Once no task runs and every batch was delivered, every accumulator that the run created holds
      at the driver exactly the value it was created with and the terms named for it, those of
      failed tasks excepted. */
  lemma Quiescence<V(!new)>(steps: seq<Step<V>>, states: seq<State<V>>, aid: int, kept: seq<(int, V)>)
    requires IsHistory(steps, states)
    requires 0 <= aid < |Creations(steps)| && IsKept(steps, kept)
    requires Open(steps) == [] && Deliveries(steps) == Finishes(steps)
    ensures aid in states[|steps|].driver && states[|steps|].driver[aid].value == Worth(steps, aid, kept)
  {
    var s := states[|steps|];
    HistoryAgrees(steps, states);
    Conservation(steps, states, aid, kept);
    RunKeepsInv(steps, states);
    AccumFacts(s, aid);
    hide Lawful, Inv, IsZero;
    var (p, z) := (s.driver[aid].param, ZeroOf(s, aid));
    AddedNothing(p, z, aid);
    ZeroRight(p, z, s.driver[aid].value);
  }

  /** Where no task failed, that is every term named. */
  lemma {:induction false} NothingLost<V>(steps: seq<Step<V>>)
    requires forall i :: 0 <= i < |steps| ==> !steps[i].Fail?
    ensures Lost(steps) == [] && IsKept(steps, Named(steps))
  {
    if steps != [] {
      NothingLost(steps[..|steps| - 1]);
    }
  }

  // ---------- Progress ----------

  lemma {:induction false} Listing<K, X>(m: map<K, X>, keys: set<K>) returns (e: seq<(K, X)>)
    requires keys == m.Keys
    ensures Enumerates(e, m)
  {
    e := [];
    if keys != {} {
      var k :| k in keys;
      var rest := map j | j in m && j != k :: m[j];
      assert rest.Keys == keys - {k};
      var tail := Listing(rest, keys - {k});
      e := tail + [(k, m[k])];
      forall j | j in m
        ensures (j, m[j]) in e
      {
        assert j != k ==> (j, rest[j]) in tail;
      }
    }
  }

  /** Nothing blocks: a running task can always finish, and a batch in flight can always be
      delivered, because its accumulators are registered. */
  lemma Progress<V(!new)>(steps: seq<Step<V>>, states: seq<State<V>>, t: nat, b: nat)
    requires IsHistory(steps, states)
    ensures t < |states[|steps|].tasks| ==> exists report :: Enabled(states[|steps|], Finish(t, report))
    ensures b < |states[|steps|].flight| ==> Enabled(states[|steps|], Deliver(b))
  {
    var s := states[|steps|];
    RunKeepsInv(steps, states);
    hide Lawful;
    if t < |s.tasks| {
      var values := Values(s.tasks[t].local);
      var report := Listing(values, values.Keys);
      assert Enabled(s, Finish(t, report));
    }
    if b < |s.flight| {
      assert Known(s.driver, s.flight[b]);
      ApplyAllSucceeds(s.driver, s.flight[b]);
    }
  }

  lemma TaskAddEnabled<V(!new)>(steps: seq<Step<V>>, s: State<V>, t: nat, aid: int, term: V)
    requires SameAccums(steps, s) && SameTasks(steps, s) && (t < |s.tasks| ==> TaskInv(s, s.tasks[t]))
    ensures Enabled(s, TaskAdd(t, aid, term)) <==>
              && t < |Open(steps)| && aid in Open(steps)[t].aids
              && 0 <= aid < |Creations(steps)| && Creations(steps)[aid].param.holds(term)
  {
    hide Known, AddedTo, Open, Creations;
    if t < |s.tasks| && aid in s.tasks[t].local {
      assert s.tasks[t].local[aid].param == s.driver[aid].param;
    }
  }

  lemma StartEnabled<V(!new)>(steps: seq<Step<V>>, s: State<V>, aids: set<int>)
    requires SameAccums(steps, s)
    ensures Enabled(s, StartTask(aids)) <==> aids <= Below(|Creations(steps)|)
  {
    hide Creations;
    assert s.driver.Keys == Below(|Creations(steps)|);
  }

  lemma AddAndFailEnabled<V(!new)>(steps: seq<Step<V>>, s: State<V>, t: nat, aid: int, term: V)
    requires SameAccums(steps, s) && SameTasks(steps, s)
    ensures Enabled(s, DriverAdd(aid, term)) <==> 0 <= aid < |Creations(steps)| && Creations(steps)[aid].param.holds(term)
    ensures Enabled(s, Fail(t)) <==> t < |Open(steps)|
  {
    hide Creations, Open;
  }

  /** Which steps are possible, by the steps before: adding needs an accumulator that exists, in a
      task that mentions it, and a value of its own; starting needs accumulators that exist. */
  lemma EnabledBySteps<V(!new)>(steps: seq<Step<V>>, states: seq<State<V>>, aid: int, term: V, t: nat, aids: set<int>)
    requires IsHistory(steps, states)
    ensures var s, pre := states[|steps|], steps;
            var fits := 0 <= aid < |Creations(pre)| && Creations(pre)[aid].param.holds(term);
      && (Enabled(s, DriverAdd(aid, term)) <==> fits)
      && (Enabled(s, StartTask(aids)) <==> aids <= Below(|Creations(pre)|))
      && (Enabled(s, TaskAdd(t, aid, term)) <==> t < |Open(pre)| && aid in Open(pre)[t].aids && fits)
      && (Enabled(s, Fail(t)) <==> t < |Open(pre)|)
  {
    HistoryAgrees(steps, states);
    RunKeepsInv(steps, states);
    hide Lawful, Balanced, SameAccums, SameTasks, SameTerms, Known, TaskInv, Creations, Open, Enabled, IsHistory, Below, Sound;
    TaskAddEnabled(steps, states[|steps|], t, aid, term);
    hide Inv;
    StartEnabled(steps, states[|steps|], aids);
    AddAndFailEnabled(steps, states[|steps|], t, aid, term);
  }

  // ---------- A run ----------

  /** A run goes on by any step enabled in its last state. */
  lemma Extend<V(!new)>(steps: seq<Step<V>>, states: seq<State<V>>, step: Step<V>, next: State<V>,
                        more: seq<Step<V>>, after: seq<State<V>>)
    requires IsHistory(steps, states) && Enabled(states[|steps|], step) && next == Next(states[|steps|], step)
    requires more == steps + [step] && after == states + [next]
    ensures IsHistory(more, after)
  {
    hide Enabled, Next;
    forall i | 0 <= i < |more|
      ensures Leads(after[i], more[i], after[i + 1])
    {
      if i < |steps| {
        assert Leads(states[i], steps[i], states[i + 1]);
      }
    }
  }

  lemma ApplyOne<V(!new)>(registry: map<int, Accum<V>>, aid: int, term: V)
    requires aid in registry
    ensures ApplyAll(registry, [(aid, term)]) == Some(AddTo(registry, aid, term))
  {
    assert [(aid, term)][..0] == [];
  }

  lemma ListOne<K, X>(k: K, x: X)
    ensures Enumerates([(k, x)], map[k := x])
  {
    assert [(k, x)][0] == (k, x);
  }

  /** The state in which accumulator 0 was created as 2 and holds value at the driver. */
  ghost function OneAccum(value: int, tasks: seq<Task<int>>, flight: seq<seq<(int, int)>>, added: seq<(int, int)>): State<int>
  {
    State(map[0 := Accum(IntParam(), value)], 1, tasks, flight, map[0 := 2], added)
  }

  ghost function OneTask(value: int, terms: seq<(int, int)>): Task<int>
  {
    Task(map[0 := Accum(IntParam(), value)], terms)
  }

  lemma CreateThenStart(s0: State<int>)
    requires s0 == State(map[], 0, [], [], map[], [])
    ensures Enabled(s0, Create(2, IntParam())) && Next(s0, Create(2, IntParam())) == OneAccum(2, [], [], [])
    ensures Enabled(OneAccum(2, [], [], []), StartTask({0}))
    ensures Next(OneAccum(2, [], [], []), StartTask({0})) == OneAccum(2, [OneTask(0, [])], [], [])
  {
    IntParamLawful();
    hide Lawful;
    assert Reset(OneAccum(2, [], [], []).driver, {0}) == map[0 := Accum(IntParam(), 0)];
  }

  lemma ThenAdd()
    ensures Enabled(OneAccum(2, [OneTask(0, [])], [], []), TaskAdd(0, 0, 5))
    ensures Next(OneAccum(2, [OneTask(0, [])], [], []), TaskAdd(0, 0, 5)) == OneAccum(2, [OneTask(5, [(0, 5)])], [], [])
  {
    assert AddTo(OneTask(0, []).local, 0, 5) == OneTask(5, []).local;
    assert [] + [(0, 5)] == [(0, 5)];
    assert [OneTask(0, [])][0 := OneTask(5, [(0, 5)])] == [OneTask(5, [(0, 5)])];
  }

  lemma ThenFinish()
    ensures Enabled(OneAccum(2, [OneTask(5, [(0, 5)])], [], []), Finish(0, [(0, 5)]))
    ensures Next(OneAccum(2, [OneTask(5, [(0, 5)])], [], []), Finish(0, [(0, 5)])) == OneAccum(2, [], [[(0, 5)]], [(0, 5)])
  {
    ListOne(0, 5);
    assert Values(OneTask(5, [(0, 5)]).local) == map[0 := 5];
    hide Enumerates;
  }

  lemma ThenDeliver()
    ensures Enabled(OneAccum(2, [], [[(0, 5)]], [(0, 5)]), Deliver(0))
    ensures Next(OneAccum(2, [], [[(0, 5)]], [(0, 5)]), Deliver(0)) == OneAccum(7, [], [], [(0, 5)])
  {
    var registry := OneAccum(2, [], [[(0, 5)]], [(0, 5)]).driver;
    ApplyOne(registry, 0, 5);
    assert AddTo(registry, 0, 5) == OneAccum(7, [], [], []).driver;
  }

  lemma TaskRuns(s0: State<int>)
    requires s0 == State(map[], 0, [], [], map[], [])
    ensures IsHistory([Create(2, IntParam()), StartTask({0}), TaskAdd(0, 0, 5)],
                      [s0, OneAccum(2, [], [], []), OneAccum(2, [OneTask(0, [])], [], []), OneAccum(2, [OneTask(5, [(0, 5)])], [], [])])
  {
    CreateThenStart(s0);
    ThenAdd();
    assert IsHistory<int>([], [s0]);
    hide Enabled, Next, IsHistory, OneAccum, OneTask, IntParam;
    var (a, b, c) := (Create(2, IntParam()), StartTask({0}), TaskAdd(0, 0, 5));
    var (s1, s2, s3) := (OneAccum(2, [], [], []), OneAccum(2, [OneTask(0, [])], [], []), OneAccum(2, [OneTask(5, [(0, 5)])], [], []));
    Extend([], [s0], a, s1, [a], [s0, s1]);
    Extend([a], [s0, s1], b, s2, [a, b], [s0, s1, s2]);
    Extend([a, b], [s0, s1, s2], c, s3, [a, b, c], [s0, s1, s2, s3]);
  }

  /** One task adds 5 to an integer accumulator created as 2, finishes, and its batch is delivered:
      the driver ends with 7. */
  lemma OneTaskRun() returns (steps: seq<Step<int>>, states: seq<State<int>>)
    ensures IsHistory(steps, states)
    ensures steps == [Create(2, IntParam()), StartTask({0}), TaskAdd(0, 0, 5)] + [Finish(0, [(0, 5)]), Deliver(0)]
    ensures states[|steps|] == OneAccum(7, [], [], [(0, 5)])
  {
    var s0: State<int> := State(map[], 0, [], [], map[], []);
    TaskRuns(s0);
    ThenFinish();
    ThenDeliver();
    steps := [Create(2, IntParam()), StartTask({0}), TaskAdd(0, 0, 5)];
    states := [s0, OneAccum(2, [], [], []), OneAccum(2, [OneTask(0, [])], [], []), OneAccum(2, [OneTask(5, [(0, 5)])], [], [])];
    assert |steps| == 3 && states[3] == OneAccum(2, [OneTask(5, [(0, 5)])], [], []);
    steps, states := TwoMore(steps, states, Finish(0, [(0, 5)]), OneAccum(2, [], [[(0, 5)]], [(0, 5)]),
                             Deliver(0), OneAccum(7, [], [], [(0, 5)]));
  }

  lemma TwoMore<V(!new)>(steps: seq<Step<V>>, states: seq<State<V>>, d: Step<V>, s: State<V>, e: Step<V>, s': State<V>)
    returns (more: seq<Step<V>>, after: seq<State<V>>)
    requires IsHistory(steps, states)
    requires Enabled(states[|steps|], d) && s == Next(states[|steps|], d) && Enabled(s, e) && s' == Next(s, e)
    ensures IsHistory(more, after) && more == steps + [d, e] && after[|more|] == s'
  {
    hide Enabled, Next;
    Extend(steps, states, d, s, steps + [d], states + [s]);
    more, after := steps + [d, e], states + [s, s'];
    assert steps + [d] + [e] == more && states + [s] + [s'] == after;
    assert (states + [s])[|steps + [d]|] == s;
    Extend(steps + [d], states + [s], e, s', more, after);
  }
}
