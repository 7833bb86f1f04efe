/** Whole runs of the pool with layout queries in them: while all definitions come before the first
    query, every query answers what an uncached computation would, after any later intern. */
module LayoutRuns {
  import opened Bytes
  import opened Types
  import opened Layout
  import opened InternPool
  import opened LayoutCache
  import T = TypeInternPool

  datatype Op =
    | InternOp(data: TypeData)
    | ReserveOp
    | CompleteOp(slot: nat, name: Spur, def: StructDef)
    | UpdateOp(slot: nat, data: TypeData)
    | QueryOp(query: Type)

  /** The source's own demands on a call. */
  ghost predicate Enabled(s: State, op: Op) {
    match op
    case InternOp(d) => KnownTargets(d, |s.types|)
    case ReserveOp => true
    case CompleteOp(slot, name, _) => CanComplete(s, slot, name) && slot in s.reserved
    case UpdateOp(slot, d) => slot < |s.types| && SameHeader(s.types[slot], d)
    case QueryOp(t) => ValidType(s.types, t)
  }

  ghost function Next(s: State, op: Op): State
    requires Enabled(s, op)
  {
    match op
    case InternOp(d) => Intern(s, d).0
    case ReserveOp => Reserve(s).0
    case CompleteOp(slot, name, def) => Complete(s, slot, name, def)
    case UpdateOp(slot, d) => Update(s, slot, d)
    case QueryOp(_) => s
  }

  /** The pool before operation `n`. */
  ghost function Before(ops: seq<Op>, n: nat): Option<State>
    requires n <= |ops|
  {
    if n == 0 then Some(EMPTY)
    else match Before(ops, n - 1)
      case None => None
      case Some(s) => if Enabled(s, ops[n - 1]) then Some(Next(s, ops[n - 1])) else None
  }

  /** Every operation is allowed and every pool on the way is well formed. */
  ghost predicate Proper(ops: seq<Op>) {
    forall n :: 0 <= n <= |ops| ==> Before(ops, n).Some? && WellFormed(Before(ops, n).value.types)
  }

  predicate DefinitionsFirst(ops: seq<Op>) {
    forall i, j :: 0 <= i < j < |ops| && ops[i].QueryOp? ==> !ops[j].CompleteOp? && !ops[j].UpdateOp?
  }

  /** The right answer to operation `n`. */
  ghost function Expected(ops: seq<Op>, n: nat): Option<Layout>
    requires Proper(ops) && n < |ops|
  {
    assert Before(ops, n + 1).Some?;
    if ops[n].QueryOp? then Some(ComputeLayout(Before(ops, n).value.types, ops[n].query)) else None
  }

  /** The pool object before operation `n`: its state, a right cache, and an empty one before any query. */
  ghost predicate At(ops: seq<Op>, n: nat, pool: T.Pool)
    requires Proper(ops) && n <= |ops|
    reads pool
  {
    pool.Valid() && pool.CacheValid() && pool.Current() == Before(ops, n).value &&
    ((forall i :: 0 <= i < n ==> !ops[i].QueryOp?) ==> pool.layoutCache == map[])
  }

  method RunOp(ops: seq<Op>, n: nat, pool: T.Pool) returns (answer: Option<Layout>)
    requires Proper(ops) && DefinitionsFirst(ops) && n < |ops| && At(ops, n, pool)
    modifies pool
    ensures At(ops, n + 1, pool) && answer == Expected(ops, n)
  {
    assert Before(ops, n).Some? && Before(ops, n + 1).Some? && WellFormed(Before(ops, n + 1).value.types);
    answer := None;
    match ops[n] {
      case InternOp(d) =>
        var id, isNew := pool.InternType(d);
      case ReserveOp =>
        var slot := pool.ReserveStructId();
      case CompleteOp(slot, name, def) =>
        pool.CompleteStructRegistration(slot, name, def);
      case UpdateOp(slot, d) =>
        pool.UpdateDef(slot, d);
      case QueryOp(t) =>
        var l := pool.LayoutOf(t);
        answer := Some(l);
    }
  }

  method Run(ops: seq<Op>) returns (answers: seq<Option<Layout>>)
    requires Proper(ops) && DefinitionsFirst(ops)
    ensures |answers| == |ops| && forall n :: 0 <= n < |ops| ==> answers[n] == Expected(ops, n)
  {
    var pool := new T.Pool();
    assert Before(ops, 0) == Some(EMPTY);
    answers := [];
    for n := 0 to |ops|
      invariant fresh(pool) && At(ops, n, pool)
      invariant |answers| == n && forall i :: 0 <= i < n ==> answers[i] == Expected(ops, i)
    {
      var answer := RunOp(ops, n, pool);
      answers := answers + [answer];
    }
  }
}
