/** What the interpreter does, instruction by instruction: operands from left to right, each kind of
    construction undone by the matching access, one branch taken. */
module AirLaws {
  import opened Bytes
  import opened Storage
  import opened Air
  import P = Patterns

  lemma OperandPair(w: World, b: Body, args: seq<Value>, x: AirRef, y: AirRef, limit: nat, vx: Value, vy: Value,
                    st: State, st1: State, st2: State, fuel: nat)
    requires x < limit && Eval(w, b, args, x, st, fuel) == Val(vx, st1)
    requires y < limit && Eval(w, b, args, y, st1, fuel) == Val(vy, st2)
    ensures EvalAll(w, b, args, [x, y], limit, st, fuel) == Vals([vx, vy], st2)
  {
    assert [x, y][1..] == [y] && [y][1..] == [];
    assert EvalAll(w, b, args, [], limit, st2, fuel) == Vals([], st2);
    assert EvalAll(w, b, args, [y], limit, st1, fuel) == Vals([vy], st2);
  }

  /** The left operand first, then the right, and the operator on the values in that order. */
  lemma BinaryRuns(w: World, b: Body, args: seq<Value>, r: AirRef, op: nat, x: AirRef, y: AirRef, vx: Value,
                   vy: Value, st: State, st1: State, st2: State, fuel: nat)
    requires r < |b.insts| && b.insts[r].data == Bin(op, x, y)
    requires x < r && Eval(w, b, args, x, st, fuel) == Val(vx, st1)
    requires y < r && Eval(w, b, args, y, st1, fuel) == Val(vy, st2)
    ensures Eval(w, b, args, r, st, fuel) == Val(w.binary(op, vx, vy), st2)
  {
    OperandPair(w, b, args, x, y, r, vx, vy, st, st1, st2, fuel);
  }

  /** A branch runs its condition and then one side. */
  lemma BranchRuns(w: World, b: Body, args: seq<Value>, r: AirRef, c: AirRef, yes: AirRef, no: AirRef, n: nat,
                   st: State, st1: State, fuel: nat)
    requires r < |b.insts| && b.insts[r].data == Branch(c, yes, Some(no)) && c < r && yes < r && no < r
    requires Eval(w, b, args, c, st, fuel) == Val(Bits(n), st1)
    ensures Eval(w, b, args, r, st, fuel) == Eval(w, b, args, if n != 0 then yes else no, st1, fuel)
  {
    assert EvalAll(w, b, args, [c][1..], r, st1, fuel) == Vals([], st1);
    assert EvalAll(w, b, args, [c], r, st, fuel) == Vals([Bits(n)], st1);
  }

  /** Reading field `k` of a struct just built gives its operand `k`. */
  lemma FieldOfStruct(w: World, b: Body, args: seq<Value>, r: AirRef, g: AirRef, vs: seq<Value>, st: State, fuel: nat)
    requires r < |b.insts| && b.insts[r].data.StructInit? && Operands(b, b.insts[r].data).Some?
    requires g < |b.insts| && b.insts[g].data.FieldGet? && b.insts[g].data.fieldIndex < |vs|
    requires |vs| == |Operands(b, b.insts[r].data).value|
    ensures var made := Finish(w, b, args, r, vs, st, fuel);
      made.Val? && Finish(w, b, args, g, [made.value], made.st, fuel) == Val(vs[b.insts[g].data.fieldIndex], st)
  {}

  /** Reading field `k` of a variant just built gives its operand `k`; any other variant is an error. */
  lemma FieldOfVariant(w: World, b: Body, args: seq<Value>, r: AirRef, g: AirRef, vs: seq<Value>, st: State, fuel: nat)
    requires r < |b.insts| && b.insts[r].data.EnumCreate? && Operands(b, b.insts[r].data).Some?
    requires g < |b.insts| && b.insts[g].data.EnumPayloadGet? && b.insts[g].data.fieldIndex < |vs|
    requires |vs| == |Operands(b, b.insts[r].data).value|
    ensures var made := Finish(w, b, args, r, vs, st, fuel);
      made.Val? && Finish(w, b, args, g, [made.value], made.st, fuel) ==
        if b.insts[g].data.variantIndex == b.insts[r].data.variantIndex
        then Val(vs[b.insts[g].data.fieldIndex], st) else Stuck
  {}

  /** A load gives what was last stored in its slot, and stores to other slots do not matter. */
  lemma LoadAfterStore(w: World, b: Body, args: seq<Value>, r: AirRef, l: AirRef, v: Value, st: State, fuel: nat)
    requires r < |b.insts| && (b.insts[r].data.Store? || b.insts[r].data.Alloc?)
    requires l < |b.insts| && b.insts[l].data.Load?
    ensures var stored := Finish(w, b, args, r, [v], st, fuel);
      stored.Val? && stored.st.trace == st.trace &&
      Finish(w, b, args, l, [], stored.st, fuel) ==
        if b.insts[l].data.slot == b.insts[r].data.slot then Val(v, stored.st)
        else if b.insts[l].data.slot in st.locals then Val(st.locals[b.insts[l].data.slot], stored.st) else Stuck
  {}

  // ---- Patterns ------------------------------------------------------------------------------------------

  /** Values that a pattern can spell out. */
  predicate Literal(v: Value) {
    match v
    case Bits(n) => n < 0x8000_0000_0000_0000
    case Aggregate(vs) => |vs| < 0x1_0000_0000 && forall k :: 0 <= k < |vs| ==> Literal(vs[k])
    case Variant(i, vs) => i < 0x1_0000_0000 && |vs| < 0x1_0000_0000 && forall k :: 0 <= k < |vs| ==> Literal(vs[k])
  }

  /** The pattern that spells `v` out. */
  function Spelled(v: Value): P.AirPattern
    requires Literal(v)
  {
    match v
    case Bits(n) => P.Int(n)
    case Aggregate(vs) => P.Tuple(seq(|vs|, k requires 0 <= k < |vs| => Spelled(vs[k])))
    case Variant(i, vs) => P.EnumDataVariant(0, i, seq(|vs|, k requires 0 <= k < |vs| => Spelled(vs[k])))
  }

  /** It accepts that value and no other. */
  lemma {:induction false} SpelledAccepts(v: Value, x: Value)
    requires Literal(v)
    ensures Accepts(Spelled(v), x) <==> x == v
    decreases v
  {
    if v.Aggregate? && x.Aggregate? && |x.elems| == |v.elems| {
      forall k | 0 <= k < |v.elems| ensures Accepts(Spelled(v.elems[k]), x.elems[k]) <==> x.elems[k] == v.elems[k] {
        SpelledAccepts(v.elems[k], x.elems[k]);
      }
      assert Accepts(Spelled(v), x) ==> forall k :: 0 <= k < |v.elems| ==> x.elems[k] == v.elems[k];
    } else if v.Variant? && x.Variant? && |x.payload| == |v.payload| {
      forall k | 0 <= k < |v.payload|
        ensures Accepts(Spelled(v.payload[k]), x.payload[k]) <==> x.payload[k] == v.payload[k]
      {
        SpelledAccepts(v.payload[k], x.payload[k]);
      }
      assert Accepts(Spelled(v), x) ==> forall k :: 0 <= k < |v.payload| ==> x.payload[k] == v.payload[k];
    }
  }
}
