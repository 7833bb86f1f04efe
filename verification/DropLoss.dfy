/** Which types have a value that its glue does not drop completely: exactly those from which a
    non-empty array that the glue skips, with something to drop in it, can be reached by value. */
module DropLoss {
  import opened Bytes
  import opened Types
  import opened Layout
  import opened Storage
  import opened DropNames
  import opened DropTrace

  // ---- Building values -----------------------------------------------------------------------------

  ghost predicate Inhabited(p: Pool, t: Type)
    requires WellFormed(p) && ValidType(p, t)
  {
    exists v :: HasType(p, t, v)
  }

  ghost function AnyValue(p: Pool, t: Type): (v: Value)
    requires WellFormed(p) && ValidType(p, t) && Inhabited(p, t)
    ensures HasType(p, t, v)
  {
    var v :| HasType(p, t, v);
    v
  }

  /** Variant `i` can occur and every part of it has a value. */
  ghost predicate Fillable(p: Pool, t: Type, i: nat)
    requires HasParts(p, t, i)
  {
    (t.Enum? ==> i < U32_LIMIT) && (!t.Enum? ==> i == 0) &&
    forall j :: 0 <= j < PartCount(p, t, i) ==> Inhabited(p, PartType(p, t, i, j))
  }

  ghost function FilledParts(p: Pool, t: Type, i: nat, j: nat, x: Value): (vs: seq<Value>)
    requires HasParts(p, t, i) && Fillable(p, t, i) && j < PartCount(p, t, i) && HasType(p, PartType(p, t, i, j), x)
    ensures |vs| == PartCount(p, t, i) && vs[j] == x && PartsTyped(p, t, i, vs)
  {
    seq(PartCount(p, t, i), k requires 0 <= k < PartCount(p, t, i) =>
      if k == j then x else AnyValue(p, PartType(p, t, i, k)))
  }

  /** A value of `t` with `x` as part `j` of variant `i`. */
  ghost function Filled(p: Pool, t: Type, i: nat, j: nat, x: Value): (v: Value)
    requires HasParts(p, t, i) && Fillable(p, t, i) && j < PartCount(p, t, i) && HasType(p, PartType(p, t, i, j), x)
    ensures HasType(p, t, v) && VariantOf(v) == i && |PartsOf(v)| == PartCount(p, t, i) && PartsOf(v)[j] == x
  {
    var vs := FilledParts(p, t, i, j, x);
    if t.Enum? then Variant(i, vs) else Aggregate(vs)
  }

  /** The parts of a value show that its variant can be filled. */
  lemma ValueFills(p: Pool, t: Type, v: Value)
    requires WellFormed(p) && ValidType(p, t) && HasType(p, t, v) && !IsLeaf(t)
    ensures HasParts(p, t, VariantOf(v)) && PartsTyped(p, t, VariantOf(v), PartsOf(v)) && Fillable(p, t, VariantOf(v))
  {
    forall j | 0 <= j < PartCount(p, t, VariantOf(v)) ensures Inhabited(p, PartType(p, t, VariantOf(v), j)) {
      assert HasType(p, PartType(p, t, VariantOf(v), j), PartsOf(v)[j]);
    }
  }

  /** A value loses at least what one of its parts loses. */
  lemma PartLossShows(p: Pool, t: Type, v: Value, i: nat, vs: seq<Value>, j: nat)
    requires HasParts(p, t, i) && PartsTyped(p, t, i, vs) && j < |vs| && HasType(p, t, v)
    requires i == VariantOf(v) && vs == PartsOf(v) && Lost(p, PartType(p, t, i, j), vs[j]) > 0
    ensures Lost(p, t, v) > 0
  {
    if Skipped(p, t) {
      LostAccounts(p, PartType(p, t, i, j), vs[j]);
      FlattenCovers(Traces(p, t, i, vs), |vs|, j);
    } else {
      SumCovers(Losses(p, t, i, vs), |vs|, j);
    }
  }

  // ---- The exact condition ------------------------------------------------------------------------------

  /** Some value of `t` has something to drop. */
  ghost predicate Loud(p: Pool, t: Type)
    requires WellFormed(p) && ValidType(p, t)
  {
    exists v :: HasType(p, t, v) && |FullTrace(p, t, v)| > 0
  }

  /** A non-empty array that the glue skips, of elements with something to drop. */
  ghost predicate LosesHere(p: Pool, t: Type)
    requires WellFormed(p) && ValidType(p, t)
  {
    Skipped(p, t) && p[t.id].len > 0 && (ElementBelow(p, t); Loud(p, ElementType(p, t.id)))
  }

  /** Following `path`, through variants that can occur, ends at such an array. */
  ghost predicate LeadsToLoss(p: Pool, t: Type, path: seq<(nat, nat)>)
    requires WellFormed(p) && ValidType(p, t)
    decreases |path|
  {
    if path == [] then LosesHere(p, t)
    else
      var (i, j) := path[0];
      HasParts(p, t, i) && Fillable(p, t, i) && j < PartCount(p, t, i) &&
        LeadsToLoss(p, PartType(p, t, i, j), path[1..])
  }

  ghost predicate CanLose(p: Pool, t: Type)
    requires WellFormed(p) && ValidType(p, t)
  {
    exists path: seq<(nat, nat)> :: LeadsToLoss(p, t, path)
  }

  lemma {:induction false} LossyValue(p: Pool, t: Type, path: seq<(nat, nat)>) returns (v: Value)
    requires WellFormed(p) && ValidType(p, t) && LeadsToLoss(p, t, path)
    ensures HasType(p, t, v) && Lost(p, t, v) > 0
    decreases |path|
  {
    if path == [] {
      v := LossyArray(p, t);
    } else {
      var (i, j) := path[0];
      var x := LossyValue(p, PartType(p, t, i, j), path[1..]);
      v := Filled(p, t, i, j, x);
      ValueFills(p, t, v);
      PartLossShows(p, t, v, i, PartsOf(v), j);
    }
  }

  lemma LossyArray(p: Pool, t: Type) returns (v: Value)
    requires WellFormed(p) && ValidType(p, t) && LosesHere(p, t)
    ensures HasType(p, t, v) && Lost(p, t, v) > 0
  {
    ElementBelow(p, t);
    var e := ElementType(p, t.id);
    var x :| HasType(p, e, x) && |FullTrace(p, e, x)| > 0;
    forall j | 0 <= j < PartCount(p, t, 0) ensures Inhabited(p, PartType(p, t, 0, j)) {
      assert PartType(p, t, 0, j) == e && HasType(p, e, x);
    }
    v := Filled(p, t, 0, 0, x);
    ValueFills(p, t, v);
    FlattenCovers(Traces(p, t, 0, PartsOf(v)), |PartsOf(v)|, 0);
  }

  lemma {:induction false} LossPath(p: Pool, t: Type, v: Value) returns (path: seq<(nat, nat)>)
    requires WellFormed(p) && ValidType(p, t) && HasType(p, t, v) && Lost(p, t, v) > 0
    ensures LeadsToLoss(p, t, path)
    decreases Rank(p, t)
  {
    var i, vs := VariantOf(v), PartsOf(v);
    ValueFills(p, t, v);
    if Skipped(p, t) {
      var j := FlattenFinds(Traces(p, t, i, vs), |vs|);
      ElementBelow(p, t);
      assert PartType(p, t, i, j) == ElementType(p, t.id) && HasType(p, ElementType(p, t.id), vs[j]);
      path := [];
    } else {
      var j := SumFinds(Losses(p, t, i, vs), |vs|);
      var rest := LossPath(p, PartType(p, t, i, j), vs[j]);
      path := [(i, j)] + rest;
      assert path[1..] == rest;
    }
  }

  lemma PathShowsLoss(p: Pool, t: Type, path: seq<(nat, nat)>)
    requires WellFormed(p) && ValidType(p, t) && LeadsToLoss(p, t, path)
    ensures CanLose(p, t)
  {}

  /** The glue of a type is complete on all its values exactly when no non-empty skipped array of
      elements with something to drop can be reached by value. */
  lemma LossExact(p: Pool, t: Type)
    requires WellFormed(p) && ValidType(p, t)
    ensures (forall v :: HasType(p, t, v) ==> Lost(p, t, v) == 0) <==> !CanLose(p, t)
  {
    if CanLose(p, t) {
      var path: seq<(nat, nat)> :| LeadsToLoss(p, t, path);
      var v := LossyValue(p, t, path);
    } else {
      forall v | HasType(p, t, v) ensures Lost(p, t, v) == 0 {
        if Lost(p, t, v) > 0 {
          var path := LossPath(p, t, v);
          PathShowsLoss(p, t, path);
        }
      }
    }
  }
}
