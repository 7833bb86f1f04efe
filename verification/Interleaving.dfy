/** Threads sharing the pool. A registration or interning call reads under the read lock, and if
    it misses, takes the write lock, looks again and inserts; any number of other steps may come
    in between. Every run is shown to be some sequence of atomic calls with the same answers. */
module Interleaving {
  import opened Bytes
  import opened Types
  import opened InternPool

  /** A finished call with its answer. */
  datatype Call =
    | Interns(data: TypeData, id: InternedType, isNew: bool)
    | Reserves(slot: nat)
    | Completes(slot: nat, name: Spur, def: StructDef)
    | Updates(slot: nat, data: TypeData)

  /** `missed` holds the calls between their two lookups. */
  datatype World = World(pool: State, missed: map<nat, TypeData>, log: seq<Call>)

  const INIT: World := World(EMPTY, map[], [])

  datatype Step =
    | ReadCheck(thread: nat, data: TypeData)
    | RecheckInsert(thread: nat)
    | ReserveSlot(thread: nat)
    | CompleteSlot(thread: nat, slot: nat, name: Spur, def: StructDef)
    | UpdateEntry(thread: nat, slot: nat, data: TypeData)

  /** A thread starts a call only when it has none open, and completes only slots it may. */
  predicate Enabled(w: World, step: Step) {
    match step
    case ReadCheck(t, d) => t !in w.missed && KnownTargets(d, |w.pool.types|)
    case RecheckInsert(t) => t in w.missed
    case ReserveSlot(t) => t !in w.missed
    case CompleteSlot(t, slot, name, _) => t !in w.missed && CanComplete(w.pool, slot, name) && slot in w.pool.reserved
    case UpdateEntry(t, slot, d) => t !in w.missed && slot < |w.pool.types| && SameHeader(w.pool.types[slot], d)
  }

  function Next(w: World, step: Step): World
    requires Enabled(w, step)
  {
    match step
    case ReadCheck(t, d) =>
      if KeyOf(d) in w.pool.dedup then w.(log := w.log + [Interns(d, w.pool.dedup[KeyOf(d)], false)])
      else w.(missed := w.missed[t := d])
    case RecheckInsert(t) =>
      var d := w.missed[t];
      var (pool, id, isNew) := Intern(w.pool, d);
      World(pool, w.missed - {t}, w.log + [Interns(d, id, isNew)])
    case ReserveSlot(_) =>
      var (pool, slot) := Reserve(w.pool);
      w.(pool := pool, log := w.log + [Reserves(slot)])
    case CompleteSlot(_, slot, name, def) =>
      w.(pool := Complete(w.pool, slot, name, def), log := w.log + [Completes(slot, name, def)])
    case UpdateEntry(_, slot, d) =>
      w.(pool := Update(w.pool, slot, d), log := w.log + [Updates(slot, d)])
  }

  /** The world after a schedule, if every step was enabled. */
  function After(steps: seq<Step>): Option<World> {
    if steps == [] then Some(INIT)
    else
      var last := |steps| - 1;
      match After(steps[..last])
      case None => None
      case Some(w) => if Enabled(w, steps[last]) then Some(Next(w, steps[last])) else None
  }

  // ---- One call at a time ---------------------------------------------------------------------

  /** The pool after one atomic call, provided the call answers as recorded. */
  function Atomic(s: State, c: Call): Option<State> {
    match c
    case Interns(d, id, isNew) =>
      var r := Intern(s, d);
      if KnownTargets(d, |s.types|) && r.1 == id && r.2 == isNew then Some(r.0) else None
    case Reserves(slot) => if slot == |s.types| then Some(Reserve(s).0) else None
    case Completes(slot, name, def) =>
      if CanComplete(s, slot, name) && slot in s.reserved then Some(Complete(s, slot, name, def)) else None
    case Updates(slot, d) =>
      if slot < |s.types| && SameHeader(s.types[slot], d) then Some(Update(s, slot, d)) else None
  }

  /** The pool after the calls of `log` made one after another, if all answers agree. */
  function Replay(log: seq<Call>): Option<State> {
    if log == [] then Some(EMPTY)
    else
      var last := |log| - 1;
      match Replay(log[..last])
      case None => None
      case Some(s) => Atomic(s, log[last])
  }

  lemma ReplayExtend(log: seq<Call>, c: Call)
    ensures Replay(log + [c]) == match Replay(log) case None => None case Some(s) => Atomic(s, c)
  {
    assert (log + [c])[..|log|] == log;
  }

  ghost predicate MissedKnown(w: World) {
    forall t :: t in w.missed ==> KnownTargets(w.missed[t], |w.pool.types|)
  }

  lemma AtomicKeepsInv(s: State, c: Call)
    requires Inv(s) && Atomic(s, c).Some?
    ensures Inv(Atomic(s, c).value) && |s.types| <= |Atomic(s, c).value.types|
  {
    match c
    case Interns(d, _, _) => InternKeepsInv(s, d);
    case Reserves(_) => ReserveKeepsInv(s);
    case Completes(slot, name, def) => CompleteExact(s, slot, name, def);
    case Updates(slot, d) => UpdateKeepsInv(s, slot, d);
  }

  lemma KnownTargetsGrow(d: TypeData, m: nat, n: nat)
    requires KnownTargets(d, m) && m <= n
    ensures KnownTargets(d, n)
  {}

  /** Each step changes nothing but the open calls, or is one atomic call with that answer. */
  lemma StepRefines(w: World, step: Step)
    requires Enabled(w, step) && MissedKnown(w)
    ensures var w' := Next(w, step);
      (w'.log == w.log && w'.pool == w.pool) ||
      (|w'.log| == |w.log| + 1 && w'.log == w.log + [w'.log[|w.log|]] &&
       Atomic(w.pool, w'.log[|w.log|]) == Some(w'.pool))
  {
    match step
    case ReadCheck(t, d) =>
      if KeyOf(d) in w.pool.dedup {
        assert Next(w, step).log[|w.log|] == Interns(d, w.pool.dedup[KeyOf(d)], false);
      }
    case RecheckInsert(t) => assert KnownTargets(w.missed[t], |w.pool.types|);
    case ReserveSlot(_) =>
    case CompleteSlot(_, _, _, _) =>
    case UpdateEntry(_, _, _) =>
  }

  /** Every interleaving is a sequence of atomic calls: replaying the finished calls in the order
      they finished gives the same answers and the same pool, which is consistent. */
  lemma {:induction false} RunsAreAtomic(steps: seq<Step>)
    requires After(steps).Some?
    ensures var w := After(steps).value; Replay(w.log) == Some(w.pool) && Inv(w.pool) && MissedKnown(w)
  {
    if steps != [] {
      var last := |steps| - 1;
      RunsAreAtomic(steps[..last]);
      var w, w' := After(steps[..last]).value, After(steps).value;
      StepRefines(w, steps[last]);
      if w'.log != w.log {
        ReplayExtend(w.log, w'.log[|w.log|]);
        AtomicKeepsInv(w.pool, w'.log[|w.log|]);
      }
      forall t | t in w'.missed ensures KnownTargets(w'.missed[t], |w'.pool.types|) {
        assert t in w.missed ==> KnownTargets(w.missed[t], |w.pool.types|);
        KnownTargetsGrow(w'.missed[t], |w.pool.types|, |w'.pool.types|);
      }
    }
  }

  // ---- What the answers mean --------------------------------------------------------------------

  /** No call forgets or redirects a key. */
  lemma AtomicKeepsKeys(s: State, c: Call, k: Key)
    requires Atomic(s, c).Some? && k in s.dedup
    ensures k in Atomic(s, c).value.dedup && Atomic(s, c).value.dedup[k] == s.dedup[k]
  {}

  /** An id handed out once is what its key leads to ever after. */
  lemma {:induction false} AnswersStand(log: seq<Call>, i: nat)
    requires Replay(log).Some? && i < |log| && log[i].Interns?
    ensures var s := Replay(log).value;
      KeyOf(log[i].data) in s.dedup && s.dedup[KeyOf(log[i].data)] == log[i].id
    decreases |log|
  {
    var last := |log| - 1;
    if i < last {
      AnswersStand(log[..last], i);
      AtomicKeepsKeys(Replay(log[..last]).value, log[last], KeyOf(log[i].data));
    }
  }

  /** `id` names an entry that is the type `d` describes. */
  predicate Means(s: State, d: TypeData, id: InternedType) {
    PRIMITIVE_COUNT <= id < Interned(|s.types|) && Matches(d, s.types[id - PRIMITIVE_COUNT])
  }

  lemma IdMeans(s: State, d: TypeData, id: InternedType)
    requires Inv(s) && KeyOf(d) in s.dedup && s.dedup[KeyOf(d)] == id
    ensures Means(s, d, id)
  {
    assert KeyOk(s, KeyOf(d));
    SameKeyExactly(d, s.types[id - PRIMITIVE_COUNT]);
  }

  lemma IdsAgree(s: State, d: TypeData, e: TypeData)
    requires Inv(s) && KeyOf(d) in s.dedup && KeyOf(e) in s.dedup
    ensures s.dedup[KeyOf(d)] == s.dedup[KeyOf(e)] <==> Matches(d, e)
  {
    assert KeyOk(s, KeyOf(d)) && KeyOk(s, KeyOf(e));
    SameKeyExactly(d, e);
  }

  /** At the end of every run, whatever came in between, each id handed out for `d` leads to an entry that
      is the type `d` describes: the very data for a structural type, the kind and name for a nominal one. */
  lemma AnswersMean(steps: seq<Step>, i: nat)
    requires After(steps).Some? && i < |After(steps).value.log| && After(steps).value.log[i].Interns?
    ensures var w := After(steps).value; Means(w.pool, w.log[i].data, w.log[i].id)
  {
    var w := After(steps).value;
    RunsAreAtomic(steps);
    AnswersStand(w.log, i);
    IdMeans(w.pool, w.log[i].data, w.log[i].id);
  }

  /** Across all threads, two calls get the same id exactly when they asked for the same type. */
  lemma OneIdPerKey(steps: seq<Step>, i: nat, j: nat)
    requires After(steps).Some?
    requires var log := After(steps).value.log; i < |log| && j < |log| && log[i].Interns? && log[j].Interns?
    ensures var log := After(steps).value.log;
      log[i].id == log[j].id <==> Matches(log[i].data, log[j].data)
  {
    var w := After(steps).value;
    RunsAreAtomic(steps);
    AnswersStand(w.log, i);
    AnswersStand(w.log, j);
    IdsAgree(w.pool, w.log[i].data, w.log[j].data);
  }

  /** How often `log` introduced key `k`: calls told it is new, and completed reservations. */
  function Introductions(log: seq<Call>, k: Key): nat {
    if log == [] then 0
    else
      var last := |log| - 1;
      Introductions(log[..last], k) +
      match log[last]
      case Interns(d, _, isNew) => if isNew && KeyOf(d) == k then 1 else 0
      case Completes(_, name, _) => if StructKey(name) == k then 1 else 0
      case _ => 0
  }

  lemma {:induction false} IntroducedOnce(log: seq<Call>, k: Key)
    requires Replay(log).Some?
    ensures Introductions(log, k) == if k in Replay(log).value.dedup then 1 else 0
  {
    if log != [] {
      IntroducedOnce(log[..|log| - 1], k);
    }
  }

  /** Exactly one caller is told that a registered key is new. */
  lemma ExactlyOneIsNew(steps: seq<Step>, k: Key)
    requires After(steps).Some?
    ensures var w := After(steps).value; Introductions(w.log, k) == if k in w.pool.dedup then 1 else 0
  {
    RunsAreAtomic(steps);
    IntroducedOnce(After(steps).value.log, k);
  }

  /** A completed entry keeps its key, and a structural one its data, under every call. */
  lemma AtomicKeepsMeaning(s: State, c: Call, i: nat)
    requires Atomic(s, c).Some? && i < |s.types| && i !in s.reserved
    ensures var s' := Atomic(s, c).value;
      i < |s'.types| && i !in s'.reserved && KeyOf(s'.types[i]) == KeyOf(s.types[i]) &&
      (s'.types[i] == s.types[i] || SameHeader(s.types[i], s'.types[i]))
  {}

  lemma {:induction false} KeysAreStable(steps: seq<Step>, m: nat, i: nat)
    requires After(steps).Some? && m <= |steps|
    ensures After(steps[..m]).Some?
    ensures var s, s' := After(steps[..m]).value.pool, After(steps).value.pool;
      i < |s.types| && i !in s.reserved ==>
        i < |s'.types| && i !in s'.reserved && KeyOf(s'.types[i]) == KeyOf(s.types[i])
    decreases |steps|
  {
    if m < |steps| {
      var last := |steps| - 1;
      assert steps[..last][..m] == steps[..m];
      KeysAreStable(steps[..last], m, i);
      RunsAreAtomic(steps[..last]);
      var w, w' := After(steps[..last]).value, After(steps).value;
      StepRefines(w, steps[last]);
      if w'.log != w.log && i < |w.pool.types| && i !in w.pool.reserved {
        AtomicKeepsMeaning(w.pool, w'.log[|w.log|], i);
      }
    } else {
      assert steps[..m] == steps;
    }
  }

  /** Ids never change meaning: from the moment an entry is complete, in any run, it stays the type that
      it was, a structural one its very data and a nominal one its kind and name. */
  lemma MeaningIsStable(steps: seq<Step>, m: nat, i: nat)
    requires After(steps).Some? && m <= |steps|
    ensures After(steps[..m]).Some?
    ensures var s, s' := After(steps[..m]).value.pool, After(steps).value.pool;
      i < |s.types| && i !in s.reserved ==>
        i < |s'.types| && i !in s'.reserved && Matches(s.types[i], s'.types[i])
  {
    KeysAreStable(steps, m, i);
    var s, s' := After(steps[..m]).value.pool, After(steps).value.pool;
    if i < |s.types| && i !in s.reserved {
      SameKeyExactly(s.types[i], s'.types[i]);
    }
  }
}
