/** The accumulator protocol (accumulators.py, worker.py): task-local registries that start from
    zero, update batches shipped at task end, and the driver's handler. */
module Accumulators {
  import opened Seqs
  import opened Shuffle

  // ---------- The operations of an AccumulatorParam ----------

  /** addInPlace and zero, and the values they are meant for: vectors of one length, say. */
  datatype Param<!V> = Param(plus: (V, V) -> V, zero: V -> V, holds: V -> bool)

  /** On values of p the addition stays among them, is commutative and associative. */
  ghost predicate LawfulAt<V>(p: Param<V>, a: V, b: V, c: V)
  {
    p.holds(a) && p.holds(b) && p.holds(c) ==>
      && p.holds(p.plus(a, b)) && p.plus(a, b) == p.plus(b, a)
      && p.plus(p.plus(a, b), c) == p.plus(a, p.plus(b, c))
  }

  /** z leaves v unchanged. */
  ghost predicate NeutralAt<V>(p: Param<V>, z: V, v: V)
  {
    p.holds(v) ==> p.plus(z, v) == v
  }

  ghost predicate IsZero<V(!new)>(p: Param<V>, z: V)
  {
    p.holds(z) && forall v :: NeutralAt(p, z, v)
  }

  ghost predicate ZeroesAt<V(!new)>(p: Param<V>, v: V)
  {
    p.holds(v) ==> IsZero(p, p.zero(v))
  }

  /** A commutative and associative add on the values of p, with zero(v) neutral for any of them. */
  ghost predicate Lawful<V(!new)>(p: Param<V>)
  {
    (forall a, b, c :: LawfulAt(p, a, b, c)) && (forall v :: ZeroesAt(p, v))
  }

  lemma Laws<V(!new)>(p: Param<V>, a: V, b: V, c: V)
    requires Lawful(p) && p.holds(a) && p.holds(b) && p.holds(c)
    ensures p.holds(p.plus(a, b)) && p.plus(a, b) == p.plus(b, a)
    ensures p.plus(p.plus(a, b), c) == p.plus(a, p.plus(b, c))
  {
    assert LawfulAt(p, a, b, c);
  }

  /** zero looks at a value, but cannot tell the values of p apart. */
  lemma SameZero<V(!new)>(p: Param<V>, v: V, w: V)
    requires Lawful(p) && p.holds(v) && p.holds(w)
    ensures p.zero(v) == p.zero(w) && IsZero(p, p.zero(v))
  {
    var y, z := p.zero(v), p.zero(w);
    assert ZeroesAt(p, v) && ZeroesAt(p, w);
    assert NeutralAt(p, y, z) && NeutralAt(p, z, y);
    Laws(p, y, z, y);
  }

  lemma ZeroRight<V(!new)>(p: Param<V>, z: V, v: V)
    requires Lawful(p) && IsZero(p, z) && p.holds(v)
    ensures p.plus(v, z) == p.plus(z, v) == v
  {
    assert NeutralAt(p, z, v);
    Laws(p, v, z, z);
  }

  /** INT_ACCUMULATOR_PARAM */
  function IntParam(): Param<int>
  {
    Param((a, b) => a + b, v => 0, v => true)
  }

  /** The documentation's VectorAccumulatorParam, on vectors of one length. */
  function VectorParam(len: nat): Param<seq<real>>
  {
    Param(AddVectors, (v: seq<real>) => seq(|v|, i => 0.0), (v: seq<real>) => |v| == len)
  }

  lemma IntParamLawful()
    ensures Lawful(IntParam())
  {
    var p := IntParam();
    forall a, b, c
      ensures LawfulAt(p, a, b, c)
    {
      assert (a + b) + c == a + (b + c);
    }
    assert forall v :: NeutralAt(p, 0, v);
  }

  lemma VectorParamLawful(len: nat)
    ensures Lawful(VectorParam(len))
  {
    var p := VectorParam(len);
    forall a, b, c
      ensures LawfulAt(p, a, b, c)
    {
      assert AddVectors(a, b) == AddVectors(b, a);
      assert AddVectors(AddVectors(a, b), c) == AddVectors(a, AddVectors(b, c));
    }
    forall v | p.holds(v)
      ensures IsZero(p, p.zero(v))
    {
      forall w
        ensures NeutralAt(p, p.zero(v), w)
      {
        assert p.holds(w) ==> AddVectors(p.zero(v), w) == w;
      }
    }
  }

  /** Sum, from zero z, of everything pairs adds to accumulator aid. */
  function Added<V>(p: Param<V>, z: V, aid: int, pairs: seq<(int, V)>): V
  {
    match Total(aid, pairs, Identity, p.plus)
    case None => z
    case Some(v) => v
  }

  ghost predicate Typed<V>(p: Param<V>, aid: int, pairs: seq<(int, V)>)
  {
    forall i :: 0 <= i < |pairs| && pairs[i].0 == aid ==> p.holds(pairs[i].1)
  }

  lemma TypedConcat<V>(p: Param<V>, aid: int, s: seq<(int, V)>, t: seq<(int, V)>)
    ensures Typed(p, aid, s + t) <==> Typed(p, aid, s) && Typed(p, aid, t)
  {
    if Typed(p, aid, s + t) {
      assert forall i :: 0 <= i < |s| ==> s[i] == (s + t)[i];
      assert forall i :: 0 <= i < |t| ==> t[i] == (s + t)[|s| + i];
    }
  }

  lemma {:induction false} AddedHolds<V(!new)>(p: Param<V>, z: V, aid: int, pairs: seq<(int, V)>)
    requires Lawful(p) && IsZero(p, z) && Typed(p, aid, pairs)
    ensures p.holds(Added(p, z, aid, pairs))
  {
    hide Lawful;
    if pairs != [] {
      var n := |pairs| - 1;
      AddedHolds(p, z, aid, pairs[..n]);
      if pairs[n].0 == aid {
        Laws(p, Added(p, z, aid, pairs[..n]), pairs[n].1, z);
      }
    }
  }

  lemma AddedSnoc<V(!new)>(p: Param<V>, z: V, aid: int, s: seq<(int, V)>, b: int, term: V)
    requires IsZero(p, z) && (b == aid ==> p.holds(term))
    ensures Added(p, z, aid, s + [(b, term)]) == if b == aid then p.plus(Added(p, z, aid, s), term) else Added(p, z, aid, s)
  {
    assert b == aid ==> NeutralAt(p, z, term);
    TotalSnoc(aid, s, (b, term), Identity, p.plus);
  }

  lemma {:induction false} AddedConcat<V(!new)>(p: Param<V>, z: V, aid: int, s: seq<(int, V)>, t: seq<(int, V)>)
    requires Lawful(p) && IsZero(p, z) && Typed(p, aid, s) && Typed(p, aid, t)
    ensures Added(p, z, aid, s + t) == p.plus(Added(p, z, aid, s), Added(p, z, aid, t))
  {
    hide Lawful, Added;
    AddedHolds(p, z, aid, s);
    var x := Added(p, z, aid, s);
    if t == [] {
      assert s + t == s;
      AddedNothing(p, z, aid);
      ZeroRight(p, z, x);
    } else {
      var n := |t| - 1;
      var (b, term) := t[n];
      AddedConcat(p, z, aid, s, t[..n]);
      AddedHolds(p, z, aid, t[..n]);
      assert s + t == (s + t[..n]) + [(b, term)] && t == t[..n] + [(b, term)];
      AddedSnoc(p, z, aid, s + t[..n], b, term);
      AddedSnoc(p, z, aid, t[..n], b, term);
      if b == aid {
        Laws(p, x, Added(p, z, aid, t[..n]), term);
      }
    }
  }

  lemma AddedNothing<V>(p: Param<V>, z: V, aid: int)
    ensures Added(p, z, aid, []) == z
  {
  }

  // ---------- Registries ----------

  /** An Accumulator: its parameter and its current value. */
  datatype Accum<!V> = Accum(param: Param<V>, value: V)

  function Values<V>(registry: map<int, Accum<V>>): map<int, V>
  {
    map a | a in registry :: registry[a].value
  }

  /** What pickling makes of the accumulators aids: their zero values. */
  function Reset<V>(registry: map<int, Accum<V>>, aids: set<int>): map<int, Accum<V>>
    requires aids <= registry.Keys
  {
    map a | a in aids :: Accum(registry[a].param, registry[a].param.zero(registry[a].value))
  }

  function Ids(aids: seq<int>): set<int>
  {
    set aid | aid in aids
  }

  function AddTo<V>(registry: map<int, Accum<V>>, aid: int, term: V): map<int, Accum<V>>
    requires aid in registry
  {
    registry[aid := registry[aid].(value := registry[aid].param.plus(registry[aid].value, term))]
  }

  /** The handler's loop as a function; None where an unknown id raises KeyError. */
  function ApplyAll<V>(registry: map<int, Accum<V>>, updates: seq<(int, V)>): Option<map<int, Accum<V>>>
  {
    if updates == [] then Some(registry)
    else
      var (aid, update) := updates[|updates| - 1];
      match ApplyAll(registry, updates[..|updates| - 1])
      case None => None
      case Some(m) => if aid in m then Some(AddTo(m, aid, update)) else None
  }

  /** The values of a registry are values of their accumulators. */
  ghost predicate Sound<V(!new)>(registry: map<int, Accum<V>>)
  {
    forall aid :: aid in registry ==> Lawful(registry[aid].param) && registry[aid].param.holds(registry[aid].value)
  }

  ghost predicate AllTyped<V>(registry: map<int, Accum<V>>, pairs: seq<(int, V)>)
  {
    forall i :: 0 <= i < |pairs| && pairs[i].0 in registry ==> registry[pairs[i].0].param.holds(pairs[i].1)
  }

  lemma {:induction false} ApplyAllSucceeds<V(!new)>(registry: map<int, Accum<V>>, updates: seq<(int, V)>)
    ensures ApplyAll(registry, updates).Some? <==> forall i :: 0 <= i < |updates| ==> updates[i].0 in registry
    ensures ApplyAll(registry, updates).Some? ==>
              var m := ApplyAll(registry, updates).value;
              m.Keys == registry.Keys && forall aid :: aid in registry ==> m[aid].param == registry[aid].param
  {
    if updates != [] {
      var n := |updates| - 1;
      ApplyAllSucceeds(registry, updates[..n]);
      assert forall i :: 0 <= i < n ==> updates[..n][i] == updates[i];
    }
  }

  lemma ApplyAllLast<V(!new)>(registry: map<int, Accum<V>>, updates: seq<(int, V)>)
    requires updates != [] && ApplyAll(registry, updates).Some?
    ensures var init, last := updates[..|updates| - 1], updates[|updates| - 1];
      && ApplyAll(registry, init).Some? && last.0 in ApplyAll(registry, init).value
      && ApplyAll(registry, updates).value == AddTo(ApplyAll(registry, init).value, last.0, last.1)
  {
  }

  lemma AllTypedPrefix<V>(registry: map<int, Accum<V>>, updates: seq<(int, V)>, aid: int)
    requires AllTyped(registry, updates) && updates != [] && aid in registry
    ensures AllTyped(registry, updates[..|updates| - 1])
    ensures Typed(registry[aid].param, aid, updates[..|updates| - 1])
    ensures updates[|updates| - 1].0 == aid ==> registry[aid].param.holds(updates[|updates| - 1].1)
  {
    assert forall i :: 0 <= i < |updates| - 1 ==> updates[..|updates| - 1][i] == updates[i];
  }

  lemma AddOne<V(!new)>(p: Param<V>, z: V, v: V, aid: int, s: seq<(int, V)>, b: int, term: V)
    requires Lawful(p) && IsZero(p, z) && p.holds(v) && Typed(p, aid, s) && (b == aid ==> p.holds(term))
    ensures var sum := p.plus(v, Added(p, z, aid, s));
      && p.plus(v, Added(p, z, aid, s + [(b, term)])) == (if b == aid then p.plus(sum, term) else sum)
      && p.holds(sum) && (b == aid ==> p.holds(p.plus(sum, term)))
  {
    hide Lawful, Added, IsZero, Typed;
    AddedSnoc(p, z, aid, s, b, term);
    AddedHolds(p, z, aid, s);
    var x := Added(p, z, aid, s);
    Laws(p, v, x, v);
    if b == aid {
      Laws(p, v, x, term);
      Laws(p, p.plus(v, x), term, v);
    }
  }

  /** The handler adds to each accumulator the sum, by its own addInPlace, of its updates. */
  lemma {:induction false} ApplyAllAdds<V(!new)>(registry: map<int, Accum<V>>, updates: seq<(int, V)>, aid: int)
    requires Sound(registry) && AllTyped(registry, updates)
    requires ApplyAll(registry, updates).Some? && aid in registry
    ensures var m := ApplyAll(registry, updates).value;
            var (p, v) := (registry[aid].param, registry[aid].value);
      && m.Keys == registry.Keys
      && m[aid] == Accum(p, p.plus(v, Added(p, p.zero(v), aid, updates)))
      && p.holds(m[aid].value)
  {
    ApplyAllSucceeds(registry, updates);
    var (p, v) := (registry[aid].param, registry[aid].value);
    var z := p.zero(v);
    SameZero(p, v, v);
    hide Lawful, Added, IsZero;
    if updates == [] {
      AddedNothing(p, z, aid);
      ZeroRight(p, z, v);
    } else {
      var n := |updates| - 1;
      var (b, term) := updates[n];
      AllTypedPrefix(registry, updates, aid);
      ApplyAllLast(registry, updates);
      ApplyAllAdds(registry, updates[..n], aid);
      hide AllTyped, Sound, Typed, ApplyAll;
      assert updates == updates[..n] + [(b, term)];
      AddOne(p, z, v, aid, updates[..n], b, term);
    }
  }

  /** `_accumulatorRegistry` of one process, driver or worker. */
  class Registry<!V> {
    var accums: map<int, Accum<V>>

    constructor ()
      ensures accums == map[]
    {
      accums := map[];
    }

    /** Creating an accumulator registers it under its id. */
    method Register(aid: int, value: V, param: Param<V>)
      modifies this
      ensures accums == old(accums)[aid := Accum(param, value)]
    {
      accums := accums[aid := Accum(param, value)];
    }

    /** `accum += term` */
    method Add(aid: int, term: V)
      requires aid in accums
      modifies this
      ensures accums == AddTo(old(accums), aid, term)
    {
      accums := AddTo(accums, aid, term);
    }

    /** The registry of a fresh worker that unpickles a function mentioning the accumulators aids:
        each is pickled with its zero value and registers itself. */
    method Ship(aids: seq<int>) returns (worker: Registry<V>)
      requires forall i :: 0 <= i < |aids| ==> aids[i] in accums
      ensures fresh(worker) && worker.accums == Reset(accums, Ids(aids))
    {
      worker := new Registry();
      for i := 0 to |aids|
        invariant fresh(worker) && worker.accums == Reset(accums, Ids(aids[..i]))
      {
        var accum := accums[aids[i]];
        worker.Register(aids[i], accum.param.zero(accum.value), accum.param);
        assert Ids(aids[..i + 1]) == Ids(aids[..i]) + {aids[i]};
      }
      assert aids[..|aids|] == aids;
    }

    /** What a worker writes after its data: every registered id with its local value. */
    method Report() returns (updates: seq<(int, V)>)
      ensures Enumerates(updates, Values(accums))
    {
      updates := Items(Values(accums));
    }

    /** `_UpdateRequestHandler.handle`; false stands for the KeyError, which leaves the updates
        before the unknown id applied. */
    method Handle(updates: seq<(int, V)>) returns (ok: bool, ghost applied: nat)
      modifies this
      ensures applied <= |updates| && ok == (applied == |updates|)
      ensures ApplyAll(old(accums), updates[..applied]) == Some(accums)
      ensures !ok ==> updates[applied].0 !in accums
    {
      for i := 0 to |updates|
        invariant ApplyAll(old(accums), updates[..i]) == Some(accums)
      {
        var (aid, update) := updates[i];
        if aid !in accums {
          return false, i;
        }
        assert updates[..i + 1][..i] == updates[..i];
        Add(aid, update);
      }
      return true, |updates|;
    }
  }

  // ---------- The protocol ----------

  /** A running task: its registry and, as history, the terms it added so far. */
  datatype Task<!V> = Task(local: map<int, Accum<V>>, terms: seq<(int, V)>)

  /** initial and added are history: creation values, and terms added by the driver or by tasks
      that have shipped. */
  datatype State<!V> = State(driver: map<int, Accum<V>>, nextId: int, tasks: seq<Task<V>>, flight: seq<seq<(int, V)>>,
                             initial: map<int, V>, added: seq<(int, V)>)

  datatype Step<!V> =
    | Create(value: V, param: Param<V>)
    | DriverAdd(aid: int, term: V)
    | StartTask(aids: set<int>)
    | TaskAdd(task: nat, aid: int, term: V)
    | Finish(task: nat, report: seq<(int, V)>)
    | Fail(task: nat)
    | Deliver(batch: nat)

  function Remove<T>(s: seq<T>, i: nat): seq<T>
    requires i < |s|
  {
    s[..i] + s[i + 1..]
  }

  /** Parameters obey their laws, and terms are values of the accumulator they are added to. */
  ghost predicate Enabled<V(!new)>(s: State<V>, step: Step<V>)
  {
    match step
    case Create(value, param) => Lawful(param) && param.holds(value)
    case DriverAdd(aid, term) => aid in s.driver && s.driver[aid].param.holds(term)
    case StartTask(aids) => aids <= s.driver.Keys
    case TaskAdd(t, aid, term) => t < |s.tasks| && aid in s.tasks[t].local && s.tasks[t].local[aid].param.holds(term)
    case Finish(t, report) => t < |s.tasks| && Enumerates(report, Values(s.tasks[t].local))
    case Fail(t) => t < |s.tasks|
    case Deliver(b) => b < |s.flight| && ApplyAll(s.driver, s.flight[b]).Some?
  }

  ghost function Next<V(!new)>(s: State<V>, step: Step<V>): State<V>
    requires Enabled(s, step)
  {
    match step
    case Create(value, param) =>
      s.(driver := s.driver[s.nextId := Accum(param, value)], nextId := s.nextId + 1, initial := s.initial[s.nextId := value])
    case DriverAdd(aid, term) =>
      s.(driver := AddTo(s.driver, aid, term), added := s.added + [(aid, term)])
    case StartTask(aids) =>
      s.(tasks := s.tasks + [Task(Reset(s.driver, aids), [])])
    case TaskAdd(t, aid, term) =>
      var task := s.tasks[t];
      s.(tasks := s.tasks[t := Task(AddTo(task.local, aid, term), task.terms + [(aid, term)])])
    case Finish(t, report) =>
      s.(tasks := Remove(s.tasks, t), flight := s.flight + [report], added := s.added + s.tasks[t].terms)
    case Fail(t) =>
      s.(tasks := Remove(s.tasks, t))
    case Deliver(b) =>
      s.(driver := ApplyAll(s.driver, s.flight[b]).value, flight := Remove(s.flight, b))
  }

  // ---------- The invariant ----------

  /** Updates and terms name accumulators of the driver and hold values of theirs. */
  ghost predicate Known<V>(driver: map<int, Accum<V>>, pairs: seq<(int, V)>)
  {
    forall i :: 0 <= i < |pairs| ==> pairs[i].0 in driver && driver[pairs[i].0].param.holds(pairs[i].1)
  }

  /** The zero of accumulator aid. */
  ghost function ZeroOf<V>(s: State<V>, aid: int): V
    requires aid in s.driver && aid in s.initial
  {
    s.driver[aid].param.zero(s.initial[aid])
  }

  /** What pairs adds to accumulator aid of s. */
  ghost function AddedTo<V>(s: State<V>, aid: int, pairs: seq<(int, V)>): V
    requires aid in s.driver && aid in s.initial
  {
    Added(s.driver[aid].param, ZeroOf(s, aid), aid, pairs)
  }

  ghost predicate TaskInv<V>(s: State<V>, t: Task<V>)
  {
    && t.local.Keys <= s.driver.Keys <= s.initial.Keys
    && Known(s.driver, t.terms)
    && (forall i :: 0 <= i < |t.terms| ==> t.terms[i].0 in t.local)
    && (forall aid :: aid in t.local ==> t.local[aid] == Accum(s.driver[aid].param, AddedTo(s, aid, t.terms)))
  }

  /** Driver value and flight make up creation value and terms. */
  ghost predicate Balanced<V>(s: State<V>, aid: int)
  {
    && aid in s.driver && aid in s.initial
    && s.driver[aid].param.plus(s.driver[aid].value, AddedTo(s, aid, Flatten(s.flight)))
    == s.driver[aid].param.plus(s.initial[aid], AddedTo(s, aid, s.added))
  }

  ghost predicate Inv<V(!new)>(s: State<V>)
  {
    && s.driver.Keys == s.initial.Keys
    && Sound(s.driver)
    && (forall aid :: aid in s.driver ==> aid < s.nextId && s.driver[aid].param.holds(s.initial[aid]))
    && (forall i :: 0 <= i < |s.tasks| ==> TaskInv(s, s.tasks[i]))
    && (forall b :: 0 <= b < |s.flight| ==> Known(s.driver, s.flight[b]))
    && Known(s.driver, s.added)
    && (forall aid :: aid in s.driver ==> Balanced(s, aid))
  }

  /** s' knows the accumulators of s, with the same parameters and creation values. */
  ghost predicate Extends<V>(s: State<V>, s': State<V>)
  {
    && s.driver.Keys <= s'.driver.Keys && s.initial.Keys <= s'.initial.Keys && s'.driver.Keys <= s'.initial.Keys
    && (forall aid :: aid in s.driver ==> s'.driver[aid].param == s.driver[aid].param)
    && (forall aid :: aid in s.initial ==> s'.initial[aid] == s.initial[aid])
  }

  lemma KnownExtends<V(!new)>(s: State<V>, s': State<V>, pairs: seq<(int, V)>)
    requires Extends(s, s') && Known(s.driver, pairs)
    ensures Known(s'.driver, pairs)
  {
    forall i | 0 <= i < |pairs|
      ensures pairs[i].0 in s'.driver && s'.driver[pairs[i].0].param.holds(pairs[i].1)
    {
      var (aid, v) := pairs[i];
      assert aid in s.driver && s.driver[aid].param.holds(v);
      assert s'.driver[aid].param == s.driver[aid].param;
    }
  }

  lemma KnownConcat<V>(driver: map<int, Accum<V>>, a: seq<(int, V)>, b: seq<(int, V)>)
    requires Known(driver, a) && Known(driver, b)
    ensures Known(driver, a + b)
  {
  }

  lemma KnownOne<V>(driver: map<int, Accum<V>>, aid: int, term: V)
    requires aid in driver && driver[aid].param.holds(term)
    ensures Known(driver, [(aid, term)])
  {
  }

  lemma TaskInvExtends<V(!new)>(s: State<V>, s': State<V>, t: Task<V>)
    requires Extends(s, s') && TaskInv(s, t)
    ensures TaskInv(s', t)
  {
    KnownExtends(s, s', t.terms);
    forall aid | aid in t.local
      ensures t.local[aid] == Accum(s'.driver[aid].param, AddedTo(s', aid, t.terms))
    {
      assert AddedTo(s', aid, t.terms) == AddedTo(s, aid, t.terms);
    }
  }

  lemma KnownTyped<V(!new)>(s: State<V>, pairs: seq<(int, V)>, aid: int)
    requires Known(s.driver, pairs) && aid in s.driver
    ensures Typed(s.driver[aid].param, aid, pairs)
  {
  }

  lemma FlightKnown<V(!new)>(driver: map<int, Accum<V>>, flight: seq<seq<(int, V)>>)
    requires forall b :: 0 <= b < |flight| ==> Known(driver, flight[b])
    ensures Known(driver, Flatten(flight))
  {
    var all := Flatten(flight);
    forall i | 0 <= i < |all|
      ensures all[i].0 in driver && driver[all[i].0].param.holds(all[i].1)
    {
      InFlatten(flight, all[i]);
      var b :| 0 <= b < |flight| && all[i] in flight[b];
      var j :| 0 <= j < |flight[b]| && flight[b][j] == all[i];
    }
  }

  /** The facts about accumulator aid that every step needs. */
  lemma AccumFacts<V(!new)>(s: State<V>, aid: int)
    requires Inv(s) && aid in s.driver
    ensures var p := s.driver[aid].param;
      && Lawful(p) && IsZero(p, ZeroOf(s, aid)) && ZeroOf(s, aid) == p.zero(s.driver[aid].value)
      && p.holds(s.driver[aid].value) && p.holds(s.initial[aid])
      && Typed(p, aid, Flatten(s.flight)) && Typed(p, aid, s.added)
      && p.holds(AddedTo(s, aid, Flatten(s.flight))) && p.holds(AddedTo(s, aid, s.added))
  {
    hide Lawful, IsZero, Balanced, TaskInv, Added;
    var p, z := s.driver[aid].param, ZeroOf(s, aid);
    SameZero(p, s.initial[aid], s.driver[aid].value);
    FlightKnown(s.driver, s.flight);
    KnownTyped(s, Flatten(s.flight), aid);
    KnownTyped(s, s.added, aid);
    AddedHolds(p, z, aid, Flatten(s.flight));
    AddedHolds(p, z, aid, s.added);
  }

  // ---------- Every step keeps it ----------

  lemma FlattenRemove<V(!new)>(p: Param<V>, z: V, aid: int, flight: seq<seq<(int, V)>>, b: nat)
    requires Lawful(p) && IsZero(p, z) && b < |flight| && Typed(p, aid, Flatten(flight))
    ensures Typed(p, aid, flight[b]) && Typed(p, aid, Flatten(Remove(flight, b)))
    ensures Added(p, z, aid, Flatten(flight)) == p.plus(Added(p, z, aid, flight[b]), Added(p, z, aid, Flatten(Remove(flight, b))))
  {
    hide Lawful, Added, IsZero, Typed;
    var pre, mid, post := flight[..b], flight[b], flight[b + 1..];
    assert flight == pre + [mid] + post;
    FlattenConcat(pre + [mid], post);
    FlattenConcat(pre, [mid]);
    FlattenOne(mid);
    FlattenConcat(pre, post);
    TypedConcat(p, aid, Flatten(pre) + mid, Flatten(post));
    TypedConcat(p, aid, Flatten(pre), mid);
    TypedConcat(p, aid, Flatten(pre), Flatten(post));
    AddedConcat(p, z, aid, Flatten(pre) + mid, Flatten(post));
    AddedConcat(p, z, aid, Flatten(pre), mid);
    AddedConcat(p, z, aid, Flatten(pre), Flatten(post));
    AddedHolds(p, z, aid, Flatten(pre));
    AddedHolds(p, z, aid, mid);
    AddedHolds(p, z, aid, Flatten(post));
    MiddleFirst(p, Added(p, z, aid, Flatten(pre)), Added(p, z, aid, mid), Added(p, z, aid, Flatten(post)));
  }

  lemma MiddleFirst<V(!new)>(p: Param<V>, x: V, y: V, z: V)
    requires Lawful(p) && p.holds(x) && p.holds(y) && p.holds(z)
    ensures p.plus(p.plus(x, y), z) == p.plus(y, p.plus(x, z))
  {
    Laws(p, x, y, z);
    Laws(p, y, x, z);
  }

  lemma DeliverBalances<V(!new)>(s: State<V>, b: nat, aid: int)
    requires Inv(s) && Enabled(s, Deliver(b)) && aid in s.driver
    ensures var s' := Next(s, Deliver(b));
      && s'.driver.Keys == s.driver.Keys && s'.driver[aid].param == s.driver[aid].param
      && s'.driver[aid].param.holds(s'.driver[aid].value) && Balanced(s', aid)
  {
    hide Lawful, Added, IsZero, TaskInv;
    AccumFacts(s, aid);
    assert Known(s.driver, s.flight[b]) && Balanced(s, aid);
    ApplyAllAdds(s.driver, s.flight[b], aid);
    hide Inv, Sound, AllTyped, ApplyAll, Known;
    var s' := Next(s, Deliver(b));
    var (p, z) := (s.driver[aid].param, ZeroOf(s, aid));
    FlattenRemove(p, z, aid, s.flight, b);
    var (x, y, rest) := (s.driver[aid].value, Added(p, z, aid, s.flight[b]), Added(p, z, aid, Flatten(s'.flight)));
    AddedHolds(p, z, aid, s.flight[b]);
    AddedHolds(p, z, aid, Flatten(s'.flight));
    Laws(p, x, y, rest);
  }

  lemma KeepsDeliver<V(!new)>(s: State<V>, b: nat)
    requires Inv(s) && Enabled(s, Deliver(b))
    ensures Inv(Next(s, Deliver(b)))
  {
    hide Lawful, Balanced, TaskInv, Known, ApplyAll;
    var s' := Next(s, Deliver(b));
    ApplyAllSucceeds(s.driver, s.flight[b]);
    KnownExtends(s, s', s.added);
    forall c | 0 <= c < |s.flight|
      ensures Known(s'.driver, s.flight[c])
    {
      KnownExtends(s, s', s.flight[c]);
    }
    forall aid | aid in s.driver
      ensures Balanced(s', aid) && s'.driver[aid].param.holds(s'.driver[aid].value)
    {
      DeliverBalances(s, b, aid);
    }
    forall i | 0 <= i < |s.tasks|
      ensures TaskInv(s', s.tasks[i])
    {
      TaskInvExtends(s, s', s.tasks[i]);
    }
  }

  lemma LocalIsTerms<V(!new)>(s: State<V>, aid: int, t: Task<V>)
    requires TaskInv(s, t) && aid in s.driver
    ensures AddedTo(s, aid, t.terms) == if aid in t.local then t.local[aid].value else ZeroOf(s, aid)
  {
    if aid !in t.local {
      NoKeyNoTotal(aid, t.terms, Identity, s.driver[aid].param.plus);
    }
  }

  lemma ReportTotal<V(!new)>(s: State<V>, t: Task<V>, report: seq<(int, V)>, aid: int)
    requires TaskInv(s, t) && Enumerates(report, Values(t.local)) && aid in s.driver
    ensures AddedTo(s, aid, report) == AddedTo(s, aid, t.terms)
  {
    EnumerationTotals(aid, report, Values(t.local), Identity, s.driver[aid].param.plus);
    LocalIsTerms(s, aid, t);
  }

  lemma ReportKnown<V(!new)>(s: State<V>, t: Task<V>, report: seq<(int, V)>)
    requires Inv(s) && TaskInv(s, t) && Enumerates(report, Values(t.local))
    ensures Known(s.driver, report)
  {
    hide Lawful, Balanced;
    forall i | 0 <= i < |report|
      ensures report[i].0 in s.driver && s.driver[report[i].0].param.holds(report[i].1)
    {
      var aid := report[i].0;
      AccumFacts(s, aid);
      KnownTyped(s, t.terms, aid);
      AddedHolds(s.driver[aid].param, ZeroOf(s, aid), aid, t.terms);
    }
  }

  lemma FinishBalances<V(!new)>(s: State<V>, t: nat, report: seq<(int, V)>, aid: int)
    requires Inv(s) && Enabled(s, Finish(t, report)) && aid in s.driver
    ensures Balanced(Next(s, Finish(t, report)), aid)
  {
    hide Lawful, Added, IsZero, Typed;
    AccumFacts(s, aid);
    assert TaskInv(s, s.tasks[t]) && Balanced(s, aid);
    ReportKnown(s, s.tasks[t], report);
    hide Inv;
    var (p, z) := (s.driver[aid].param, ZeroOf(s, aid));
    var terms := s.tasks[t].terms;
    ReportTotal(s, s.tasks[t], report, aid);
    KnownTyped(s, report, aid);
    KnownTyped(s, terms, aid);
    hide TaskInv, Known;
    FlattenConcat(s.flight, [report]);
    FlattenOne(report);
    AddedConcat(p, z, aid, Flatten(s.flight), report);
    AddedConcat(p, z, aid, s.added, terms);
    AddedHolds(p, z, aid, report);
    var (d, f, r, i, a) := (s.driver[aid].value, AddedTo(s, aid, Flatten(s.flight)), AddedTo(s, aid, report), s.initial[aid], AddedTo(s, aid, s.added));
    Laws(p, d, f, r);
    Laws(p, i, a, r);
  }

  lemma KeepsFinish<V(!new)>(s: State<V>, t: nat, report: seq<(int, V)>)
    requires Inv(s) && Enabled(s, Finish(t, report))
    ensures Inv(Next(s, Finish(t, report)))
  {
    hide Lawful, Balanced;
    var s' := Next(s, Finish(t, report));
    assert TaskInv(s, s.tasks[t]);
    ReportKnown(s, s.tasks[t], report);
    forall aid | aid in s.driver
      ensures Balanced(s', aid)
    {
      FinishBalances(s, t, report, aid);
    }
    forall i | 0 <= i < |s'.tasks|
      ensures TaskInv(s', s'.tasks[i])
    {
      TaskInvExtends(s, s', s'.tasks[i]);
    }
  }

  lemma DriverAddBalances<V(!new)>(s: State<V>, aid: int, term: V, a: int)
    requires Inv(s) && Enabled(s, DriverAdd(aid, term)) && a in s.driver
    ensures var s' := Next(s, DriverAdd(aid, term));
      s'.driver[a].param.holds(s'.driver[a].value) && Balanced(s', a)
  {
    var (p, z) := (s.driver[a].param, ZeroOf(s, a));
    AccumFacts(s, a);
    assert Balanced(s, a);
    hide Lawful, Added, IsZero, Inv;
    AddedSnoc(p, z, a, s.added, aid, term);
    if a == aid {
      var (d, f, i, x) := (s.driver[a].value, AddedTo(s, a, Flatten(s.flight)), s.initial[a], AddedTo(s, a, s.added));
      Laws(p, d, term, f);
      MiddleFirst(p, d, term, f);
      Laws(p, i, x, term);
      MiddleFirst(p, i, term, x);
      Laws(p, x, term, i);
      Laws(p, d, f, term);
      Laws(p, term, p.plus(i, x), i);
      Laws(p, i, x, i);
      Laws(p, p.plus(i, x), term, i);
    }
  }

  lemma KeepsDriverAdd<V(!new)>(s: State<V>, aid: int, term: V)
    requires Inv(s) && Enabled(s, DriverAdd(aid, term))
    ensures Inv(Next(s, DriverAdd(aid, term)))
  {
    hide Lawful, Balanced, TaskInv, Known;
    var s' := Next(s, DriverAdd(aid, term));
    KnownExtends(s, s', s.added);
    KnownOne(s'.driver, aid, term);
    KnownConcat(s'.driver, s.added, [(aid, term)]);
    forall b | 0 <= b < |s.flight|
      ensures Known(s'.driver, s.flight[b])
    {
      KnownExtends(s, s', s.flight[b]);
    }
    forall a | a in s.driver
      ensures Balanced(s', a) && s'.driver[a].param.holds(s'.driver[a].value)
    {
      DriverAddBalances(s, aid, term, a);
    }
    forall i | 0 <= i < |s.tasks|
      ensures TaskInv(s', s.tasks[i])
    {
      TaskInvExtends(s, s', s.tasks[i]);
    }
  }

  lemma KeepsTaskAdd<V(!new)>(s: State<V>, t: nat, aid: int, term: V)
    requires Inv(s) && Enabled(s, TaskAdd(t, aid, term))
    ensures Inv(Next(s, TaskAdd(t, aid, term)))
  {
    hide Lawful, Balanced, Added;
    var s' := Next(s, TaskAdd(t, aid, term));
    var task := s.tasks[t];
    assert TaskInv(s, task);
    forall a | a in s'.tasks[t].local
      ensures s'.tasks[t].local[a] == Accum(s.driver[a].param, AddedTo(s', a, s'.tasks[t].terms))
    {
      AccumFacts(s, a);
      AddedSnoc(s.driver[a].param, ZeroOf(s, a), a, task.terms, aid, term);
    }
    forall i | 0 <= i < |s.tasks| && i != t
      ensures TaskInv(s', s.tasks[i])
    {
      TaskInvExtends(s, s', s.tasks[i]);
    }
    forall a | a in s.driver
      ensures Balanced(s', a)
    {
      SameBalance(s, s', a);
    }
  }

  /** Balance looks at nothing but one accumulator, the flight and the history. */
  lemma SameBalance<V(!new)>(s: State<V>, s': State<V>, aid: int)
    requires Balanced(s, aid) && aid in s.driver && aid in s.initial
    requires aid in s'.driver && aid in s'.initial && s'.driver[aid] == s.driver[aid] && s'.initial[aid] == s.initial[aid]
    requires s'.flight == s.flight && s'.added == s.added
    ensures Balanced(s', aid)
  {
  }

  lemma CreateBalances<V(!new)>(s: State<V>, value: V, param: Param<V>)
    requires Inv(s) && Enabled(s, Create(value, param))
    ensures Balanced(Next(s, Create(value, param)), s.nextId)
  {
    var id := s.nextId;
    FlightKnown(s.driver, s.flight);
    NoKeyNoTotal(id, Flatten(s.flight), Identity, param.plus);
    NoKeyNoTotal(id, s.added, Identity, param.plus);
  }

  lemma CreateSound<V(!new)>(s: State<V>, value: V, param: Param<V>)
    requires Inv(s) && Enabled(s, Create(value, param))
    ensures var s' := Next(s, Create(value, param));
      && s'.driver.Keys == s'.initial.Keys && Sound(s'.driver) && Extends(s, s')
      && forall aid :: aid in s'.driver ==> aid < s'.nextId && s'.driver[aid].param.holds(s'.initial[aid])
  {
    hide Lawful, Balanced, TaskInv, Known;
    assert s.nextId !in s.driver;
  }

  lemma KeepsCreate<V(!new)>(s: State<V>, value: V, param: Param<V>)
    requires Inv(s) && Enabled(s, Create(value, param))
    ensures Inv(Next(s, Create(value, param)))
  {
    hide Lawful, Balanced, TaskInv, Known, Sound, Extends;
    var s' := Next(s, Create(value, param));
    assert s.nextId !in s.driver;
    CreateSound(s, value, param);
    CreateBalances(s, value, param);
    KnownExtends(s, s', s.added);
    forall b | 0 <= b < |s.flight|
      ensures Known(s'.driver, s.flight[b])
    {
      KnownExtends(s, s', s.flight[b]);
    }
    forall aid | aid in s.driver
      ensures Balanced(s', aid)
    {
      SameBalance(s, s', aid);
    }
    forall i | 0 <= i < |s.tasks|
      ensures TaskInv(s', s.tasks[i])
    {
      TaskInvExtends(s, s', s.tasks[i]);
    }
  }

  lemma KeepsStart<V(!new)>(s: State<V>, aids: set<int>)
    requires Inv(s) && Enabled(s, StartTask(aids))
    ensures Inv(Next(s, StartTask(aids)))
  {
    hide Lawful, Balanced;
    var s' := Next(s, StartTask(aids));
    var task := Task(Reset(s.driver, aids), []);
    forall aid | aid in aids
      ensures task.local[aid] == Accum(s.driver[aid].param, AddedTo(s', aid, []))
    {
      AccumFacts(s, aid);
    }
    assert TaskInv(s', task);
    forall i | 0 <= i < |s.tasks|
      ensures TaskInv(s', s.tasks[i])
    {
      TaskInvExtends(s, s', s.tasks[i]);
    }
    forall aid | aid in s.driver
      ensures Balanced(s', aid)
    {
      SameBalance(s, s', aid);
    }
  }

  lemma KeepsFail<V(!new)>(s: State<V>, t: nat)
    requires Inv(s) && Enabled(s, Fail(t))
    ensures Inv(Next(s, Fail(t)))
  {
    hide Lawful, Balanced, TaskInv;
    var s' := Next(s, Fail(t));
    forall i | 0 <= i < |s'.tasks|
      ensures TaskInv(s', s'.tasks[i])
    {
      TaskInvExtends(s, s', s'.tasks[i]);
    }
    forall aid | aid in s.driver
      ensures Balanced(s', aid)
    {
      SameBalance(s, s', aid);
    }
  }

  lemma StepKeepsInv<V(!new)>(s: State<V>, step: Step<V>)
    requires Inv(s) && Enabled(s, step)
    ensures Inv(Next(s, step))
  {
    hide Inv;
    match step
    case Create(value, param) => KeepsCreate(s, value, param);
    case DriverAdd(aid, term) => KeepsDriverAdd(s, aid, term);
    case StartTask(aids) => KeepsStart(s, aids);
    case TaskAdd(t, aid, term) => KeepsTaskAdd(s, t, aid, term);
    case Finish(t, report) => KeepsFinish(s, t, report);
    case Fail(t) => KeepsFail(s, t);
    case Deliver(b) => KeepsDeliver(s, b);
  }
}
