/** What dropping a value should do, what the synthesized glue does, and the difference: elements of
    arrays of enums or vectors, for which the glue emits nothing. */
module DropTrace {
  import opened Bytes
  import opened Types
  import opened Layout
  import opened Storage
  import opened DropNames
  import A = Air

  function Destructor(p: Pool, t: Type): Option<string>
    requires ValidType(p, t)
  {
    match t
    case Struct(id) => p[id].structDef.destructor
    case Enum(id) => p[id].enumDef.destructor
    case _ => None
  }

  function DestructorCall(p: Pool, t: Type, v: Value): seq<A.Event>
    requires ValidType(p, t)
  {
    match Destructor(p, t) case Some(d) => [A.External(d, [v])] case None => []
  }

  // ---- Which types need dropping ------------------------------------------------------------------------

  /** A type that is itself dropped: a vector, or one with a user destructor. */
  predicate Owns(p: Pool, t: Type)
    requires ValidType(p, t)
  {
    t.Vec? || Destructor(p, t).Some?
  }

  /** What field `step.1` of variant `step.0` contains; any step into an array leads to its element. */
  function Inside(p: Pool, t: Type, step: (nat, nat)): (r: Option<Type>)
    requires WellFormed(p) && ValidType(p, t)
    ensures r.Some? ==> ValidType(p, r.value)
  {
    match t
    case Struct(_) => if step.1 < |Fields(p, t)| then FieldBelow(p, t, step.1); Some(Fields(p, t)[step.1]) else None
    case Enum(_) =>
      if step.0 < |Variants(p, t)| && step.1 < |Variants(p, t)[step.0]|
      then VariantFieldBelow(p, t, step.0, step.1); Some(Variants(p, t)[step.0][step.1]) else None
    case Array(id) => ElementBelow(p, t); Some(ElementType(p, id))
    case _ => None
  }

  /** Following `path` by value from `t` ends at a type that is itself dropped. */
  predicate LeadsToOwner(p: Pool, t: Type, path: seq<(nat, nat)>)
    requires WellFormed(p) && ValidType(p, t)
    decreases |path|
  {
    if path == [] then Owns(p, t)
    else Inside(p, t, path[0]).Some? && LeadsToOwner(p, Inside(p, t, path[0]).value, path[1..])
  }

  lemma {:induction false} OwnerNeedsDrop(p: Pool, t: Type, path: seq<(nat, nat)>)
    requires WellFormed(p) && ValidType(p, t) && LeadsToOwner(p, t, path)
    ensures NeedsDrop(p, t)
    decreases |path|
  {
    if path != [] {
      OwnerNeedsDrop(p, Inside(p, t, path[0]).value, path[1..]);
    }
  }

  lemma StepBelow(p: Pool, t: Type, step: (nat, nat))
    requires WellFormed(p) && ValidType(p, t) && Inside(p, t, step).Some?
    ensures Rank(p, Inside(p, t, step).value) < Rank(p, t)
  {
    if t.Struct? {
      FieldBelow(p, t, step.1);
    } else if t.Enum? {
      VariantFieldBelow(p, t, step.0, step.1);
    } else {
      ElementBelow(p, t);
    }
  }

  lemma NeedyStep(p: Pool, t: Type) returns (step: (nat, nat))
    requires WellFormed(p) && ValidType(p, t) && NeedsDrop(p, t) && !Owns(p, t)
    ensures Inside(p, t, step).Some? && NeedsDrop(p, Inside(p, t, step).value)
  {
    if t.Struct? {
      var j :| 0 <= j < |Fields(p, t)| && (FieldBelow(p, t, j); NeedsDrop(p, Fields(p, t)[j]));
      step := (0, j);
    } else if t.Enum? {
      var v, j :| 0 <= v < |Variants(p, t)| && 0 <= j < |Variants(p, t)[v]| &&
        (VariantFieldBelow(p, t, v, j); NeedsDrop(p, Variants(p, t)[v][j]));
      step := (v, j);
    } else {
      step := (0, 0);
    }
  }

  lemma {:induction false} NeedyPath(p: Pool, t: Type) returns (path: seq<(nat, nat)>)
    requires WellFormed(p) && ValidType(p, t) && NeedsDrop(p, t)
    ensures LeadsToOwner(p, t, path)
    decreases Rank(p, t)
  {
    if Owns(p, t) {
      path := [];
    } else {
      var step := NeedyStep(p, t);
      StepBelow(p, t, step);
      var rest := NeedyPath(p, Inside(p, t, step).value);
      path := [step] + rest;
      assert path[1..] == rest;
    }
  }

  ghost predicate ContainsOwner(p: Pool, t: Type)
    requires WellFormed(p) && ValidType(p, t)
  {
    exists path: seq<(nat, nat)> :: LeadsToOwner(p, t, path)
  }

  lemma PathShows(p: Pool, t: Type, path: seq<(nat, nat)>)
    requires WellFormed(p) && ValidType(p, t) && LeadsToOwner(p, t, path)
    ensures ContainsOwner(p, t)
  {}

  /** A type needs dropping exactly when it contains by value, at some depth, a vector or a type with
      a user destructor. */
  lemma NeedsDropExact(p: Pool, t: Type)
    requires WellFormed(p) && ValidType(p, t)
    ensures NeedsDrop(p, t) <==> ContainsOwner(p, t)
  {
    if NeedsDrop(p, t) {
      var path := NeedyPath(p, t);
      PathShows(p, t, path);
    } else if ContainsOwner(p, t) {
      var path: seq<(nat, nat)> :| LeadsToOwner(p, t, path);
      OwnerNeedsDrop(p, t, path);
    }
  }

  // ---- Traces -------------------------------------------------------------------------------------------

  function PartsOf(v: Value): seq<Value> {
    match v
    case Bits(_) => []
    case Aggregate(vs) => vs
    case Variant(_, vs) => vs
  }

  function VariantOf(v: Value): nat { if v.Variant? then v.index else 0 }

  /** The first `k` lists one after another. */
  function Flatten<T>(ss: seq<seq<T>>, k: nat): seq<T>
    requires k <= |ss|
  {
    if k == 0 then [] else Flatten(ss, k - 1) + ss[k - 1]
  }

  function Sum(ns: seq<nat>, k: nat): nat
    requires k <= |ns|
  {
    if k == 0 then 0 else Sum(ns, k - 1) + ns[k - 1]
  }

  /** The user destructor first, then every part once and in order: fields, elements, or the fields
      of the active variant. A vector is one event. */
  ghost function FullTrace(p: Pool, t: Type, v: Value): seq<A.Event>
    requires WellFormed(p) && ValidType(p, t) && HasType(p, t, v)
    decreases Rank(p, t), 1
  {
    if t.Vec? then [A.VecDrop(v)]
    else if IsLeaf(t) then []
    else DestructorCall(p, t, v) + Flatten(Traces(p, t, VariantOf(v), PartsOf(v)), |PartsOf(v)|)
  }

  ghost function Traces(p: Pool, t: Type, i: nat, vs: seq<Value>): (r: seq<seq<A.Event>>)
    requires HasParts(p, t, i) && PartsTyped(p, t, i, vs)
    ensures |r| == |vs|
    decreases Rank(p, t), 0
  {
    seq(|vs|, j requires 0 <= j < |vs| => FullTrace(p, PartType(p, t, i, j), vs[j]))
  }

  /** Array glue has a case for struct and array elements only. */
  predicate Skipped(p: Pool, t: Type)
    requires WellFormed(p) && ValidType(p, t)
  {
    t.Array? && (ElementBelow(p, t); !ElementType(p, t.id).Struct? && !ElementType(p, t.id).Array?)
  }

  /** What running the glue does. */
  ghost function GlueTrace(p: Pool, t: Type, v: Value): seq<A.Event>
    requires WellFormed(p) && ValidType(p, t) && HasType(p, t, v)
    decreases Rank(p, t), 2
  {
    if t.Vec? then [A.VecDrop(v)]
    else if IsLeaf(t) || Skipped(p, t) then []
    else DestructorCall(p, t, v) + GlueParts(p, t, VariantOf(v), PartsOf(v), |PartsOf(v)|)
  }

  ghost function Glues(p: Pool, t: Type, i: nat, vs: seq<Value>): (r: seq<seq<A.Event>>)
    requires HasParts(p, t, i) && PartsTyped(p, t, i, vs)
    ensures |r| == |vs|
    decreases Rank(p, t), 0
  {
    seq(|vs|, j requires 0 <= j < |vs| => GlueTrace(p, PartType(p, t, i, j), vs[j]))
  }

  /** The glue's events for the first `k` parts. */
  ghost function GlueParts(p: Pool, t: Type, i: nat, vs: seq<Value>, k: nat): seq<A.Event>
    requires HasParts(p, t, i) && PartsTyped(p, t, i, vs) && k <= |vs|
    decreases Rank(p, t), 1
  {
    Flatten(Glues(p, t, i, vs), k)
  }

  lemma GluePartsStep(p: Pool, t: Type, i: nat, vs: seq<Value>, k: nat)
    requires HasParts(p, t, i) && PartsTyped(p, t, i, vs) && 0 < k <= |vs|
    ensures GlueParts(p, t, i, vs, k) ==
      GlueParts(p, t, i, vs, k - 1) + GlueTrace(p, PartType(p, t, i, k - 1), vs[k - 1])
  {}

  /** How many drop events sit in elements of arrays of enums, vectors or other skipped types. */
  ghost function Lost(p: Pool, t: Type, v: Value): nat
    requires WellFormed(p) && ValidType(p, t) && HasType(p, t, v)
    decreases Rank(p, t), 1
  {
    if IsLeaf(t) then 0
    else if Skipped(p, t) then |FullTrace(p, t, v)|
    else Sum(Losses(p, t, VariantOf(v), PartsOf(v)), |PartsOf(v)|)
  }

  ghost function Losses(p: Pool, t: Type, i: nat, vs: seq<Value>): (r: seq<nat>)
    requires HasParts(p, t, i) && PartsTyped(p, t, i, vs)
    ensures |r| == |vs|
    decreases Rank(p, t), 0
  {
    seq(|vs|, j requires 0 <= j < |vs| => Lost(p, PartType(p, t, i, j), vs[j]))
  }

  // ---- Accounting -----------------------------------------------------------------------------------------

  /** `glue` and `lost` together make up `full`. */
  ghost predicate Accounts(glue: seq<A.Event>, lost: nat, full: seq<A.Event>) {
    |glue| + lost == |full| && (lost == 0 ==> glue == full)
  }

  lemma {:induction false} FlattenAccounts(gs: seq<seq<A.Event>>, ls: seq<nat>, fs: seq<seq<A.Event>>, k: nat)
    requires k <= |gs| == |ls| == |fs| && forall j :: 0 <= j < |gs| ==> Accounts(gs[j], ls[j], fs[j])
    ensures Accounts(Flatten(gs, k), Sum(ls, k), Flatten(fs, k))
  {
    if k > 0 {
      FlattenAccounts(gs, ls, fs, k - 1);
      assert Accounts(gs[k - 1], ls[k - 1], fs[k - 1]);
    }
  }

  lemma {:induction false} FlattenCovers<T>(ss: seq<seq<T>>, k: nat, j: nat)
    requires j < k <= |ss|
    ensures |ss[j]| <= |Flatten(ss, k)|
  {
    if j < k - 1 {
      FlattenCovers(ss, k - 1, j);
    }
  }

  lemma {:induction false} FlattenFinds<T>(ss: seq<seq<T>>, k: nat) returns (j: nat)
    requires k <= |ss| && |Flatten(ss, k)| > 0
    ensures j < k && |ss[j]| > 0
  {
    if |ss[k - 1]| > 0 {
      j := k - 1;
    } else {
      j := FlattenFinds(ss, k - 1);
    }
  }

  lemma {:induction false} SumCovers(ns: seq<nat>, k: nat, j: nat)
    requires j < k <= |ns|
    ensures ns[j] <= Sum(ns, k)
  {
    if j < k - 1 {
      SumCovers(ns, k - 1, j);
    }
  }

  lemma {:induction false} SumFinds(ns: seq<nat>, k: nat) returns (j: nat)
    requires k <= |ns| && Sum(ns, k) > 0
    ensures j < k && ns[j] > 0
  {
    if ns[k - 1] > 0 {
      j := k - 1;
    } else {
      j := SumFinds(ns, k - 1);
    }
  }

  /** The glue's events and the lost ones make up the full trace. */
  lemma {:induction false} LostAccounts(p: Pool, t: Type, v: Value)
    requires WellFormed(p) && ValidType(p, t) && HasType(p, t, v)
    ensures Accounts(GlueTrace(p, t, v), Lost(p, t, v), FullTrace(p, t, v))
    decreases Rank(p, t)
  {
    if !IsLeaf(t) && !Skipped(p, t) {
      var i, vs := VariantOf(v), PartsOf(v);
      var gs, ls, fs := Glues(p, t, i, vs), Losses(p, t, i, vs), Traces(p, t, i, vs);
      forall j | 0 <= j < |vs| ensures Accounts(gs[j], ls[j], fs[j]) {
        LostAccounts(p, PartType(p, t, i, j), vs[j]);
      }
      FlattenAccounts(gs, ls, fs, |vs|);
    }
  }

  /** The glue drops everything exactly when the value has nothing droppable in a skipped array. */
  lemma GlueCompleteExactly(p: Pool, t: Type, v: Value)
    requires WellFormed(p) && ValidType(p, t) && HasType(p, t, v)
    ensures GlueTrace(p, t, v) == FullTrace(p, t, v) <==> Lost(p, t, v) == 0
  {
    LostAccounts(p, t, v);
  }

  lemma PartNeedsDrop(p: Pool, t: Type, i: nat, k: nat)
    requires HasParts(p, t, i) && k < PartCount(p, t, i) && !NeedsDrop(p, t)
    ensures !NeedsDrop(p, PartType(p, t, i, k))
  {}

  /** A type that does not need dropping has nothing to drop. */
  lemma {:induction false} NothingToDrop(p: Pool, t: Type, v: Value)
    requires WellFormed(p) && ValidType(p, t) && HasType(p, t, v) && !NeedsDrop(p, t)
    ensures |FullTrace(p, t, v)| == 0
    decreases Rank(p, t)
  {
    if !IsLeaf(t) {
      var i, vs := VariantOf(v), PartsOf(v);
      var fs := Traces(p, t, i, vs);
      forall j | 0 <= j < |vs| ensures |fs[j]| == 0 {
        PartNeedsDrop(p, t, i, j);
        NothingToDrop(p, PartType(p, t, i, j), vs[j]);
      }
      if |Flatten(fs, |vs|)| > 0 {
        var j := FlattenFinds(fs, |vs|);
      }
    }
  }

  /** Arrays of droppable enums or vectors are nowhere inside `t`. */
  ghost predicate NoSkippedArrays(p: Pool, t: Type)
    requires WellFormed(p) && ValidType(p, t)
    decreases Rank(p, t)
  {
    IsLeaf(t) ||
    if t.Array? then
      (Skipped(p, t) ==> !NeedsDrop(p, t)) && (ElementBelow(p, t); NoSkippedArrays(p, ElementType(p, t.id)))
    else if t.Struct? then
      forall j :: 0 <= j < |Fields(p, t)| ==> (FieldBelow(p, t, j); NoSkippedArrays(p, Fields(p, t)[j]))
    else
      forall v, j :: 0 <= v < |Variants(p, t)| && 0 <= j < |Variants(p, t)[v]| ==>
        (VariantFieldBelow(p, t, v, j); NoSkippedArrays(p, Variants(p, t)[v][j]))
  }

  lemma PartSkipsNothing(p: Pool, t: Type, i: nat, k: nat)
    requires HasParts(p, t, i) && k < PartCount(p, t, i) && NoSkippedArrays(p, t)
    ensures NoSkippedArrays(p, PartType(p, t, i, k))
  {}

  /** For such types the glue is complete on every value. */
  lemma {:induction false} NothingLost(p: Pool, t: Type, v: Value)
    requires WellFormed(p) && ValidType(p, t) && HasType(p, t, v) && NoSkippedArrays(p, t)
    ensures Lost(p, t, v) == 0
    decreases Rank(p, t)
  {
    if IsLeaf(t) {
    } else if Skipped(p, t) {
      NothingToDrop(p, t, v);
    } else {
      var i, vs := VariantOf(v), PartsOf(v);
      var ls := Losses(p, t, i, vs);
      forall j | 0 <= j < |vs| ensures ls[j] == 0 {
        PartSkipsNothing(p, t, i, j);
        NothingLost(p, PartType(p, t, i, j), vs[j]);
      }
      if Sum(ls, |vs|) > 0 {
        var j := SumFinds(ls, |vs|);
      }
    }
  }
}
