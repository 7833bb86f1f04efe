/** Running the synthesized drop functions gives the glue trace. */
module DropProof {
  import opened Bytes
  import opened Types
  import opened Layout
  import opened Storage
  import opened DropNames
  import opened DropTrace
  import opened Air
  import opened Abi
  import opened DropGlue
  import P = Patterns

  /** `c` is `b` with more instructions and words appended. */
  predicate Grows(b: Body, c: Body) {
    b.insts <= c.insts && b.extra <= c.extra && b.paramSlots == c.paramSlots
  }

  /** Finishes normally, having added `tr` to the trace and touched nothing else. */
  ghost predicate Ends(o: Outcome, st: State, tr: seq<Event>) {
    o.Val? && o.st == st.(trace := st.trace + tr)
  }

  /** In every continuation of `b`, instruction `r` does exactly `tr`. */
  ghost predicate Performs(w: World, b: Body, args: seq<Value>, r: AirRef, tr: seq<Event>, fuel: nat) {
    r < |b.insts| &&
    forall c, st {:trigger Eval(w, c, args, r, st, fuel)} :: Grows(b, c) ==> Ends(Eval(w, c, args, r, st, fuel), st, tr)
  }

  /** In every continuation of `b`, instruction `r` gives `v` and does nothing. */
  ghost predicate Yields(w: World, b: Body, args: seq<Value>, r: AirRef, v: Value, fuel: nat) {
    r < |b.insts| &&
    forall c, st {:trigger Eval(w, c, args, r, st, fuel)} :: Grows(b, c) ==> Eval(w, c, args, r, st, fuel) == Val(v, st)
  }

  ghost predicate EndsAll(o: ListOutcome, st: State, tr: seq<Event>) {
    o.Vals? && o.st == st.(trace := st.trace + tr)
  }

  ghost predicate PerformsAll(w: World, b: Body, args: seq<Value>, rs: seq<AirRef>, tr: seq<Event>, fuel: nat) {
    (forall k :: 0 <= k < |rs| ==> rs[k] < |b.insts|) &&
    forall c, st, limit {:trigger EvalAll(w, c, args, rs, limit, st, fuel)} ::
      Grows(b, c) && |b.insts| <= limit ==> EndsAll(EvalAll(w, c, args, rs, limit, st, fuel), st, tr)
  }

  /** Dropping `v` does exactly `tr`. */
  ghost predicate Drops(w: World, t: Type, v: Value, tr: seq<Event>, fuel: nat) {
    forall st {:trigger DropValue(w, t, v, st, fuel)} :: Ends(DropValue(w, t, v, st, fuel), st, tr)
  }

  // ---- Evaluation steps -------------------------------------------------------------------------

  lemma {:induction false} EvalAllSnoc(w: World, c: Body, args: seq<Value>, rs: seq<AirRef>, r: AirRef, limit: nat,
                                       st: State, fuel: nat)
    ensures EvalAll(w, c, args, rs + [r], limit, st, fuel) ==
      match EvalAll(w, c, args, rs, limit, st, fuel)
      case Exits(o) => Exits(o)
      case Vals(vs, st1) =>
        match EvalBelow(w, c, args, r, limit, st1, fuel)
        case Val(v, st2) => Vals(vs + [v], st2)
        case o => Exits(o)
    decreases |rs|
  {
    if rs == [] {
      assert [] + [r] == [r] && [r][1..] == [];
      assert EvalAll(w, c, args, [r][1..], limit, st, fuel) == Vals([], st);
    } else {
      assert (rs + [r])[1..] == rs[1..] + [r];
      var o := EvalBelow(w, c, args, rs[0], limit, st, fuel);
      if o.Val? {
        EvalAllSnoc(w, c, args, rs[1..], r, limit, o.st, fuel);
      }
    }
  }

  /** An instruction with one operand runs the operand first. */
  lemma StrictOne(w: World, c: Body, args: seq<Value>, r: AirRef, x: AirRef, v: Value, st: State, st': State, fuel: nat)
    requires r < |c.insts| && Operands(c, c.insts[r].data) == Some([x]) && x < r
    requires Eval(w, c, args, x, st, fuel) == Val(v, st')
    ensures Eval(w, c, args, r, st, fuel) == Finish(w, c, args, r, [v], st', fuel)
  {
    assert EvalAll(w, c, args, [x][1..], r, st', fuel) == Vals([], st');
    assert EvalAll(w, c, args, [x], r, st, fuel) == Vals([v], st');
  }

  lemma GrowsAdd(b: Body, data: InstData, ty: Type, c: Body)
    requires Grows(Add(b, data, ty), c)
    ensures Grows(b, c) && |b.insts| < |c.insts| && c.insts[|b.insts|] == Inst(data, ty)
  {
    assert Add(b, data, ty).insts[|b.insts|] == Inst(data, ty);
  }

  lemma GrowsWords(b: Body, ws: seq<P.u32>, c: Body)
    requires Grows(AddWords(b, ws), c)
    ensures Grows(b, c) && |b.extra| + |ws| <= |c.extra| && c.extra[|b.extra|..][..|ws|] == ws
  {
    var e := AddWords(b, ws).extra;
    assert e[|b.extra|..] == ws;
    assert c.extra[..|e|] == e;
    assert c.extra[|b.extra|..][..|ws|] == c.extra[..|e|][|b.extra|..];
  }

  lemma PerformsGrows(w: World, b: Body, c: Body, args: seq<Value>, rs: seq<AirRef>, tr: seq<Event>, fuel: nat)
    requires Grows(b, c) && PerformsAll(w, b, args, rs, tr, fuel)
    ensures PerformsAll(w, c, args, rs, tr, fuel)
  {
    forall e, st, limit | Grows(c, e) && |c.insts| <= limit
      ensures EndsAll(EvalAll(w, e, args, rs, limit, st, fuel), st, tr)
    {
      GrowsTransitive(b, c, e);
    }
  }

  lemma GrowsTransitive(b: Body, c: Body, e: Body)
    requires Grows(b, c) && Grows(c, e)
    ensures Grows(b, e)
  {}

  /** One more statement. */
  lemma PerformsSnoc(w: World, b: Body, args: seq<Value>, rs: seq<AirRef>, r: AirRef, tr: seq<Event>,
                     tr': seq<Event>, fuel: nat)
    requires PerformsAll(w, b, args, rs, tr, fuel) && Performs(w, b, args, r, tr', fuel)
    ensures PerformsAll(w, b, args, rs + [r], tr + tr', fuel)
  {
    forall c, st, limit | Grows(b, c) && |b.insts| <= limit
      ensures EndsAll(EvalAll(w, c, args, rs + [r], limit, st, fuel), st, tr + tr')
    {
      EvalAllSnoc(w, c, args, rs, r, limit, st, fuel);
      var st1 := EvalAll(w, c, args, rs, limit, st, fuel).st;
      assert EvalBelow(w, c, args, r, limit, st1, fuel) == Eval(w, c, args, r, st1, fuel);
      assert st.trace + tr + tr' == st.trace + (tr + tr');
    }
  }

  /** Fetching a part and dropping it does what dropping its value does. */
  lemma DropPartPerforms(w: World, d: Draft, fetch: InstData, ty: Type, args: seq<Value>, v: Value, tr: seq<Event>,
                         fuel: nat)
    requires Yields(w, Add(d.code, fetch, ty), args, |d.code.insts|, v, fuel) && Drops(w, ty, v, tr, fuel)
    ensures Performs(w, DropPart(d, fetch, ty).code, args, |d.code.insts| + 1, tr, fuel)
  {
    var r := |d.code.insts|;
    var b1 := Add(d.code, fetch, ty);
    var s := r + 1;
    forall c, st | Grows(DropPart(d, fetch, ty).code, c) ensures Ends(Eval(w, c, args, s, st, fuel), st, tr) {
      GrowsAdd(b1, Drop(r), UNIT_TYPE, c);
      GrowsAdd(d.code, fetch, ty, c);
      assert Eval(w, c, args, r, st, fuel) == Val(v, st);
      StrictOne(w, c, args, r + 1, r, v, st, st, fuel);
      assert Ends(DropValue(w, ty, v, st, fuel), st, tr);
    }
  }

  /** A statement list extended by one dropped part. */
  lemma DraftStep(w: World, d: Draft, fetch: InstData, ty: Type, args: seq<Value>, v: Value, tr: seq<Event>,
                  tr': seq<Event>, fuel: nat)
    requires PerformsAll(w, d.code, args, d.stmts, tr, fuel)
    requires Yields(w, Add(d.code, fetch, ty), args, |d.code.insts|, v, fuel) && Drops(w, ty, v, tr', fuel)
    ensures var d' := DropPart(d, fetch, ty); PerformsAll(w, d'.code, args, d'.stmts, tr + tr', fuel)
  {
    var d' := DropPart(d, fetch, ty);
    DropPartPerforms(w, d, fetch, ty, args, v, tr', fuel);
    assert Grows(d.code, d'.code);
    PerformsGrows(w, d.code, d'.code, args, d.stmts, tr, fuel);
    PerformsSnoc(w, d'.code, args, d.stmts, |d.code.insts| + 1, tr, tr', fuel);
  }

  /** `fetch` reads the part `v` out of the value `from` of instruction `x`. */
  predicate Fetches(fetch: InstData, x: AirRef, from: Value, v: Value) {
    match fetch
    case FieldGet(y, _, k) => y == x && from.Aggregate? && k < |from.elems| && v == from.elems[k]
    case EnumPayloadGet(y, i, k) => y == x && from.Variant? && from.index == i && k < |from.payload| &&
      v == from.payload[k]
    case _ => false
  }

  /** An instruction that reads one yielded operand and gives a value. */
  lemma FetchYields(w: World, b: Body, fetch: InstData, ty: Type, args: seq<Value>, x: AirRef, from: Value,
                    v: Value, fuel: nat)
    requires Yields(w, b, args, x, from, fuel)
    requires Fetches(fetch, x, from, v)
    ensures Yields(w, Add(b, fetch, ty), args, |b.insts|, v, fuel)
  {
    forall c, st | Grows(Add(b, fetch, ty), c) ensures Eval(w, c, args, |b.insts|, st, fuel) == Val(v, st) {
      GrowsAdd(b, fetch, ty, c);
      StrictOne(w, c, args, |b.insts|, x, from, st, st, fuel);
    }
  }

  // ---- Blocks and returns -----------------------------------------------------------------------

  lemma UnitYields(w: World, b: Body, args: seq<Value>, fuel: nat)
    ensures Yields(w, Add(b, UnitConst, UNIT_TYPE), args, |b.insts|, UNIT_VALUE, fuel)
  {
    var r := |b.insts|;
    forall c, st | Grows(Add(b, UnitConst, UNIT_TYPE), c) ensures Eval(w, c, args, r, st, fuel) == Val(UNIT_VALUE, st) {
      GrowsAdd(b, UnitConst, UNIT_TYPE, c);
      assert EvalAll(w, c, args, [], r, st, fuel) == Vals([], st);
    }
  }

  lemma YieldPerforms(w: World, b: Body, args: seq<Value>, r: AirRef, v: Value, fuel: nat)
    requires Yields(w, b, args, r, v, fuel)
    ensures Performs(w, b, args, r, [], fuel)
  {
    forall c, st | Grows(b, c) ensures Ends(Eval(w, c, args, r, st, fuel), st, []) {
      assert st.trace + [] == st.trace;
      assert Eval(w, c, args, r, st, fuel) == Val(v, st);
    }
  }

  lemma WordsExact(refs: seq<AirRef>, n: nat)
    requires n <= 0x1_0000_0000 && forall k :: 0 <= k < |refs| ==> refs[k] < n
    ensures WordsOf(refs) == refs
  {}

  /** A block runs its statements and gives its value. */
  lemma BlockPerforms(w: World, code: Body, stmts: seq<AirRef>, unit: AirRef, args: seq<Value>, tr: seq<Event>,
                      fuel: nat)
    requires PerformsAll(w, code, args, stmts, tr, fuel) && Yields(w, code, args, unit, UNIT_VALUE, fuel)
    requires |code.insts| <= 0x1_0000_0000
    ensures var b := Add(AddWords(code, WordsOf(stmts)), Block(|code.extra|, |stmts|, unit), UNIT_TYPE);
      Performs(w, b, args, |code.insts|, tr, fuel)
  {
    var r := |code.insts|;
    var b1 := AddWords(code, WordsOf(stmts));
    var block := Block(|code.extra|, |stmts|, unit);
    WordsExact(stmts, r);
    forall c, st | Grows(Add(b1, block, UNIT_TYPE), c) ensures Ends(Eval(w, c, args, r, st, fuel), st, tr) {
      GrowsAdd(b1, block, UNIT_TYPE, c);
      GrowsWords(code, WordsOf(stmts), c);
      assert c.extra[|code.extra|..|code.extra| + |stmts|] == stmts;
      assert Operands(c, block) == Some(stmts + [unit]);
      EvalAllSnoc(w, c, args, stmts, unit, r, st, fuel);
      var st1 := EvalAll(w, c, args, stmts, r, st, fuel).st;
      assert EvalBelow(w, c, args, unit, r, st1, fuel) == Eval(w, c, args, unit, st1, fuel) == Val(UNIT_VALUE, st1);
    }
  }

  lemma EmptyIsSilent(w: World, b: Body, args: seq<Value>, tr: seq<Event>, fuel: nat)
    requires PerformsAll(w, b, args, [], tr, fuel)
    ensures tr == []
  {
    var st := State(map[], []);
    assert EndsAll(EvalAll(w, b, args, [], |b.insts|, st, fuel), st, tr);
    assert [] + tr == tr;
  }

  lemma UnitBlockPerforms(w: World, d: Draft, args: seq<Value>, tr: seq<Event>, fuel: nat)
    requires PerformsAll(w, d.code, args, d.stmts, tr, fuel)
    requires |UnitBlock(d).0.insts| <= 0x1_0000_0000
    ensures Performs(w, UnitBlock(d).0, args, UnitBlock(d).1, tr, fuel) && Grows(d.code, UnitBlock(d).0)
  {
    var code := Add(d.code, UnitConst, UNIT_TYPE);
    UnitYields(w, d.code, args, fuel);
    if d.stmts == [] {
      EmptyIsSilent(w, d.code, args, tr, fuel);
      YieldPerforms(w, code, args, |d.code.insts|, UNIT_VALUE, fuel);
    } else {
      PerformsGrows(w, d.code, code, args, d.stmts, tr, fuel);
      BlockPerforms(w, code, d.stmts, |d.code.insts|, args, tr, fuel);
    }
  }

  /** A sealed body, entered with one more unit of fuel, does what its result instruction does. */
  lemma SealRuns(w: World, b: Body, r: AirRef, args: seq<Value>, tr: seq<Event>, st: State, fuel: nat)
    requires Performs(w, b, args, r, tr, fuel)
    ensures Ends(Enter(w, Seal(b, r), args, st, fuel + 1), st, tr)
  {
    var c := Seal(b, r);
    var st0 := State(map[], st.trace);
    assert Grows(b, c);
    var o := Eval(w, c, args, r, st0, fuel);
    assert Ends(o, st0, tr);
    assert c.insts[|b.insts|].data == Ret(Some(r));
    StrictOne(w, c, args, |b.insts|, r, o.value, st0, o.st, fuel);
  }

  /** A draft wrapped up as a function body runs its statements. */
  lemma DraftRuns(w: World, d: Draft, args: seq<Value>, tr: seq<Event>, st: State, fuel: nat)
    requires PerformsAll(w, d.code, args, d.stmts, tr, fuel) && |UnitBlock(d).0.insts| <= 0x1_0000_0000
    ensures Ends(Enter(w, Seal(UnitBlock(d).0, UnitBlock(d).1), args, st, fuel + 1), st, tr)
  {
    UnitBlockPerforms(w, d, args, tr, fuel);
    SealRuns(w, UnitBlock(d).0, UnitBlock(d).1, args, tr, st, fuel);
  }

  lemma YieldsGrows(w: World, b: Body, c: Body, args: seq<Value>, r: AirRef, v: Value, fuel: nat)
    requires Grows(b, c) && Yields(w, b, args, r, v, fuel)
    ensures Yields(w, c, args, r, v, fuel)
  {
    forall e, st | Grows(c, e) ensures Eval(w, e, args, r, st, fuel) == Val(v, st) {
      GrowsTransitive(b, c, e);
    }
  }

  // ---- The parameter and the user destructor ----------------------------------------------------

  lemma StartYields(w: World, t: Type, v: Value, fuel: nat)
    ensures Yields(w, StartWith(t).code, [v], 0, v, fuel)
    ensures PerformsAll(w, StartWith(t).code, [v], [], [], fuel)
  {
    var b := StartWith(t).code;
    forall c, st | Grows(b, c) ensures Eval(w, c, [v], 0, st, fuel) == Val(v, st) {
      assert c.insts[0] == b.insts[0];
      assert EvalAll(w, c, [v], [], 0, st, fuel) == Vals([], st);
    }
    NonePerform(w, b, [v], fuel);
  }

  lemma NonePerform(w: World, b: Body, args: seq<Value>, fuel: nat)
    ensures PerformsAll(w, b, args, [], [], fuel)
  {
    forall c, st, limit | Grows(b, c) && |b.insts| <= limit
      ensures EndsAll(EvalAll(w, c, args, [], limit, st, fuel), st, [])
    {
      assert st.trace + [] == st.trace;
    }
  }

  /** The destructor call that a draft starts with. */
  lemma DestructorPerforms(w: World, t: Type, destructor: Option<Name>, v: Value, fuel: nat)
    requires destructor.Some? ==> destructor.value !in w.functions
    ensures var d := CallDestructor(StartWith(t), destructor);
      Yields(w, d.code, [v], 0, v, fuel) &&
      PerformsAll(w, d.code, [v], d.stmts, if destructor.Some? then [External(destructor.value, [v])] else [], fuel)
  {
    StartYields(w, t, v, fuel);
    if destructor.Some? {
      var b := StartWith(t).code;
      var d := CallDestructor(StartWith(t), destructor);
      var call := Call(destructor.value, 0, 1);
      var tr := [External(destructor.value, [v])];
      YieldsGrows(w, b, d.code, [v], 0, v, fuel);
      forall c, st | Grows(d.code, c) ensures Ends(Eval(w, c, [v], 1, st, fuel), st, tr) {
        GrowsAdd(AddWords(b, [0, 0]), call, UNIT_TYPE, c);
        GrowsWords(b, [0, 0], c);
        assert c.extra[0..2] == c.extra[0..][..2] == [0, 0];
        assert GetExtra(c, 0, 2) == Some([0, 0]);
        assert CallArgs(c, 0, 1).value == [0];
        assert Eval(w, c, [v], 0, st, fuel) == Val(v, st);
        StrictOne(w, c, [v], 1, 0, v, st, st, fuel);
      }
      NonePerform(w, d.code, [v], fuel);
      PerformsSnoc(w, d.code, [v], [], 1, [], tr, fuel);
      assert [] + tr == tr && [] + [1] == [1];
    }
  }

  // ---- The program: every droppable type's glue under its name -------------------------------------

  /** A user destructor is not itself a drop function. */
  ghost predicate DestructorOutside(p: Pool, w: World, t: Type)
    requires ValidType(p, t)
  {
    Destructor(p, t).Some? ==> Destructor(p, t).value !in w.functions
  }

  /** The program has the glue of `t` under the name that drops of `t` call. */
  ghost predicate HasGlue(p: Pool, w: World, t: Type)
    requires DropsNameable(p) && ValidType(p, t) && !IsLeaf(t)
  {
    DropFnName(p, t).Some? && DropFnName(p, t).value in w.functions && w.functions[DropFnName(p, t).value] == Glue(p, t)
  }

  /** References and ids fit the words they are stored in. */
  predicate GlueFits(p: Pool, t: Type)
    requires WellFormed(p) && ValidType(p, t) && !IsLeaf(t)
  {
    |Glue(p, t).insts| <= 0x1_0000_0000 && t.id < 0x1_0000_0000
  }

  /** Arrays are passed in the words of their elements, one after another. */
  ghost predicate PassesWords(p: Pool, w: World)
    requires WellFormed(p)
  {
    forall t, v {:trigger w.starts(t, v)} ::
      ValidType(p, t) && t.Array? && HasType(p, t, v) ==> w.starts(t, v) == WordStarts(p, t, v)
  }

  ghost predicate GlueWorld(p: Pool, w: World) {
    DropsNameable(p) && PassesWords(p, w) &&
    (forall t {:trigger w.dropName(t)} ::
      ValidType(p, t) ==> DropNameable(p, t) && w.dropName(t) == DropFnName(p, t)) &&
    (forall t {:trigger HasGlue(p, w, t)} :: ValidType(p, t) && !IsLeaf(t) && NeedsDrop(p, t) ==> HasGlue(p, w, t)) &&
    (forall t {:trigger DestructorOutside(p, w, t)} :: ValidType(p, t) ==> DestructorOutside(p, w, t)) &&
    (forall t {:trigger GlueFits(p, t)} :: ValidType(p, t) && !IsLeaf(t) ==> GlueFits(p, t))
  }

  /** Dropping each part does what the trace says. */
  ghost predicate PartsDrop(p: Pool, w: World, t: Type, i: nat, vs: seq<Value>, fuel: nat)
    requires HasParts(p, t, i) && PartsTyped(p, t, i, vs)
  {
    forall j :: 0 <= j < |vs| ==> Drops(w, PartType(p, t, i, j), vs[j], GlueTrace(p, PartType(p, t, i, j), vs[j]), fuel)
  }

  lemma UndroppedIsSilent(p: Pool, t: Type, v: Value)
    requires WellFormed(p) && ValidType(p, t) && HasType(p, t, v) && !NeedsDrop(p, t)
    ensures GlueTrace(p, t, v) == []
  {
    NothingToDrop(p, t, v);
    LostAccounts(p, t, v);
  }

  /** Draft `d` extended by part `j` if that needs dropping. */
  function DropIfNeeded(p: Pool, d: Draft, fetch: InstData, f: Type): Draft
    requires WellFormed(p) && ValidType(p, f)
  {
    if NeedsDrop(p, f) then DropPart(d, fetch, f) else d
  }

  lemma {:induction false} PartStep(p: Pool, w: World, f: Type, x: Value, d: Draft, fetch: InstData, whole: Value,
                                    done: seq<Event>, fuel: nat)
    requires WellFormed(p) && ValidType(p, f) && HasType(p, f, x) && Drops(w, f, x, GlueTrace(p, f, x), fuel)
    requires Yields(w, d.code, [whole], 0, whole, fuel) && Fetches(fetch, 0, whole, x)
    requires PerformsAll(w, d.code, [whole], d.stmts, done, fuel)
    ensures var d' := DropIfNeeded(p, d, fetch, f);
      Yields(w, d'.code, [whole], 0, whole, fuel) &&
      PerformsAll(w, d'.code, [whole], d'.stmts, done + GlueTrace(p, f, x), fuel)
  {
    if NeedsDrop(p, f) {
      FetchYields(w, d.code, fetch, f, [whole], 0, whole, x, fuel);
      DraftStep(w, d, fetch, f, [whole], x, done, GlueTrace(p, f, x), fuel);
      YieldsGrows(w, d.code, DropPart(d, fetch, f).code, [whole], 0, whole, fuel);
    } else {
      UndroppedIsSilent(p, f, x);
      assert done + [] == done;
    }
  }

  // ---- Structs ---------------------------------------------------------------------------------------

  /** The destructor call and the first `k` fields' drops do what the trace says. */
  ghost predicate StructDone(p: Pool, w: World, t: Type, v: Value, k: nat, fuel: nat)
    requires WellFormed(p) && t.Struct? && ValidType(p, t) && HasType(p, t, v) && k <= |v.elems|
  {
    assert PartsTyped(p, t, 0, v.elems);
    var d := StructDraft(p, t, k);
    Yields(w, d.code, [v], 0, v, fuel) &&
    PerformsAll(w, d.code, [v], d.stmts, DestructorCall(p, t, v) + GlueParts(p, t, 0, v.elems, k), fuel)
  }

  lemma StructDraftStep(p: Pool, w: World, t: Type, v: Value, k: nat, fuel: nat)
    requires WellFormed(p) && t.Struct? && ValidType(p, t) && HasType(p, t, v) && 0 < k <= |v.elems|
    requires PartsDrop(p, w, t, 0, v.elems, fuel) && StructDone(p, w, t, v, k - 1, fuel)
    ensures StructDone(p, w, t, v, k, fuel)
  {
    var d, f, x := StructDraft(p, t, k - 1), PartType(p, t, 0, k - 1), v.elems[k - 1];
    var done := GlueParts(p, t, 0, v.elems, k - 1);
    PartStep(p, w, f, x, d, FieldGet(0, t.id, k - 1), v, DestructorCall(p, t, v) + done, fuel);
    assert StructDraft(p, t, k) == DropIfNeeded(p, d, FieldGet(0, t.id, k - 1), f);
    GluePartsStep(p, t, 0, v.elems, k);
    Assoc(DestructorCall(p, t, v), done, GlueTrace(p, f, x));
  }

  lemma {:induction false} StructDraftPerforms(p: Pool, w: World, t: Type, v: Value, k: nat, fuel: nat)
    requires WellFormed(p) && t.Struct? && ValidType(p, t) && HasType(p, t, v) && k <= |v.elems|
    requires DestructorOutside(p, w, t) && PartsDrop(p, w, t, 0, v.elems, fuel)
    ensures StructDone(p, w, t, v, k, fuel)
  {
    if k == 0 {
      assert Destructor(p, t) == p[t.id].structDef.destructor;
      DestructorPerforms(w, t, Destructor(p, t), v, fuel);
      assert DestructorCall(p, t, v) + [] == DestructorCall(p, t, v);
    } else {
      StructDraftPerforms(p, w, t, v, k - 1, fuel);
      StructDraftStep(p, w, t, v, k, fuel);
    }
  }

  lemma {:induction false} StructGlueRuns(p: Pool, w: World, t: Type, v: Value, st: State, fuel: nat)
    requires WellFormed(p) && t.Struct? && ValidType(p, t) && HasType(p, t, v) && |Glue(p, t).insts| <= 0x1_0000_0000
    requires DestructorOutside(p, w, t) && PartsDrop(p, w, t, 0, v.elems, fuel)
    ensures Ends(Enter(w, Glue(p, t), [v], st, fuel + 1), st, GlueTrace(p, t, v))
  {
    var d := StructDraft(p, t, |v.elems|);
    var tr := GlueTrace(p, t, v);
    StructDraftPerforms(p, w, t, v, |v.elems|, fuel);
    DraftRuns(w, d, [v], tr, st, fuel);
  }

  // ---- Arrays ----------------------------------------------------------------------------------------

  /** Looking a parameter up by its slot finds the first one that starts there. */
  lemma {:induction false} FindParamAt(slots: seq<nat>, args: seq<Value>, j: nat)
    requires j < |slots| == |args|
    requires forall i :: 0 <= i < j && slots[i] == slots[j] ==> args[i] == args[j]
    ensures FindParam(slots, args, slots[j]) == Some(args[j])
    decreases slots
  {
    if slots[0] != slots[j] {
      FindParamAt(slots[1..], args[1..], j - 1);
    }
  }

  lemma SlotStartsDistinct(i: nat, j: nat, slots: nat)
    requires i < j && SlotStart(i, slots) == SlotStart(j, slots)
    ensures slots == 0
  {
    ElementInBounds(i, j, slots);
  }

  /** The slot of element `j` holds element `j`. */
  lemma ElementParam(p: Pool, e: Type, args: seq<Value>, j: nat)
    requires WellFormed(p) && ValidType(p, e) && j < |args|
    requires forall i :: 0 <= i < |args| ==> HasType(p, e, args[i])
    ensures FindParam(SlotStarts(|args|, AbiSlots(p, e)), args, SlotStart(j, AbiSlots(p, e))) == Some(args[j])
  {
    var slots := AbiSlots(p, e);
    forall i | 0 <= i < j && SlotStarts(|args|, slots)[i] == SlotStarts(|args|, slots)[j] ensures args[i] == args[j] {
      SlotStartsDistinct(i, j, slots);
      WordCount(p, e, args[i]);
      WordCount(p, e, args[j]);
      WordsInjective(p, e, args[i], args[j]);
    }
    FindParamAt(SlotStarts(|args|, slots), args, j);
  }

  lemma ParamYields(w: World, b: Body, index: nat, ty: Type, args: seq<Value>, v: Value, fuel: nat)
    requires FindParam(b.paramSlots, args, index) == Some(v)
    ensures Yields(w, Add(b, Param(index), ty), args, |b.insts|, v, fuel)
  {
    var r := |b.insts|;
    forall c, st | Grows(Add(b, Param(index), ty), c) ensures Eval(w, c, args, r, st, fuel) == Val(v, st) {
      GrowsAdd(b, Param(index), ty, c);
      assert EvalAll(w, c, args, [], r, st, fuel) == Vals([], st);
    }
  }

  lemma {:induction false} ElementStep(p: Pool, w: World, e: Type, args: seq<Value>, d: Draft, k: nat,
                                       done: seq<Event>, tr: seq<Event>, fuel: nat)
    requires WellFormed(p) && ValidType(p, e) && k < |args| && forall i :: 0 <= i < |args| ==> HasType(p, e, args[i])
    requires d.code.paramSlots == SlotStarts(|args|, AbiSlots(p, e))
    requires PerformsAll(w, d.code, args, d.stmts, done, fuel)
    requires Drops(w, e, args[k], tr, fuel)
    ensures var d' := DropPart(d, Param(SlotStart(k, AbiSlots(p, e))), e);
      PerformsAll(w, d'.code, args, d'.stmts, done + tr, fuel)
  {
    ElementParam(p, e, args, k);
    var index := SlotStart(k, AbiSlots(p, e));
    ParamYields(w, d.code, index, e, args, args[k], fuel);
    DraftStep(w, d, Param(index), e, args, args[k], done, tr, fuel);
  }

  lemma ElementsTyped(p: Pool, t: Type, v: Value)
    requires WellFormed(p) && t.Array? && ValidType(p, t) && HasType(p, t, v)
    ensures InternedToType(p, p[t.id].element).Some? && |v.elems| == PartCount(p, t, 0)
    ensures forall i :: 0 <= i < |v.elems| ==>
      PartType(p, t, 0, i) == ElementType(p, t.id) && HasType(p, ElementType(p, t.id), v.elems[i])
  {
    ElementBelow(p, t);
    forall i | 0 <= i < |v.elems| ensures HasType(p, ElementType(p, t.id), v.elems[i]) {
      assert PartType(p, t, 0, i) == ElementType(p, t.id);
    }
  }

  /** The first `k` elements' drops do what the trace says. */
  ghost predicate ArrayDone(p: Pool, w: World, t: Type, v: Value, k: nat, fuel: nat)
    requires WellFormed(p) && t.Array? && ValidType(p, t) && HasType(p, t, v) && k <= |v.elems|
  {
    ElementBelow(p, t);
    var e := ElementType(p, t.id);
    var d := ArrayDraft(p, e, |v.elems|, k);
    d.code.paramSlots == SlotStarts(|v.elems|, AbiSlots(p, e)) &&
    PerformsAll(w, d.code, v.elems, d.stmts, GlueParts(p, t, 0, v.elems, k), fuel)
  }

  lemma ElementDrops(p: Pool, w: World, t: Type, v: Value, k: nat, fuel: nat)
    requires WellFormed(p) && t.Array? && ValidType(p, t) && HasType(p, t, v) && 0 < k <= |v.elems|
    requires PartsDrop(p, w, t, 0, v.elems, fuel)
    requires InternedToType(p, p[t.id].element).Some? && HasType(p, ElementType(p, t.id), v.elems[k - 1])
    ensures var e, x := ElementType(p, t.id), v.elems[k - 1];
      Drops(w, e, x, GlueTrace(p, e, x), fuel) &&
      GlueParts(p, t, 0, v.elems, k) == GlueParts(p, t, 0, v.elems, k - 1) + GlueTrace(p, e, x)
  {
    assert PartType(p, t, 0, k - 1) == ElementType(p, t.id);
    GluePartsStep(p, t, 0, v.elems, k);
  }

  lemma {:induction false} ArrayDraftStep(p: Pool, w: World, t: Type, v: Value, k: nat, fuel: nat)
    requires WellFormed(p) && t.Array? && ValidType(p, t) && HasType(p, t, v) && 0 < k <= |v.elems|
    requires !Skipped(p, t) && PartsDrop(p, w, t, 0, v.elems, fuel) && ArrayDone(p, w, t, v, k - 1, fuel)
    ensures ArrayDone(p, w, t, v, k, fuel)
  {
    ElementBelow(p, t);
    var e := ElementType(p, t.id);
    var d, x := ArrayDraft(p, e, |v.elems|, k - 1), v.elems[k - 1];
    ElementsTyped(p, t, v);
    ElementDrops(p, w, t, v, k, fuel);
    ElementStep(p, w, e, v.elems, d, k - 1, GlueParts(p, t, 0, v.elems, k - 1), GlueTrace(p, e, x), fuel);
    ArrayDraftNext(p, e, |v.elems|, k);
  }

  lemma ArrayDraftNext(p: Pool, e: Type, len: nat, k: nat)
    requires WellFormed(p) && ValidType(p, e) && (e.Struct? || e.Array?) && k > 0
    ensures ArrayDraft(p, e, len, k) ==
            DropPart(ArrayDraft(p, e, len, k - 1), Param(SlotStart(k - 1, AbiSlots(p, e))), e)
    ensures ArrayDraft(p, e, len, k).code.paramSlots == ArrayDraft(p, e, len, k - 1).code.paramSlots
  {}

  lemma {:induction false} ArrayDraftPerforms(p: Pool, w: World, t: Type, v: Value, k: nat, fuel: nat)
    requires WellFormed(p) && t.Array? && ValidType(p, t) && HasType(p, t, v) && k <= |v.elems| && !Skipped(p, t)
    requires PartsDrop(p, w, t, 0, v.elems, fuel)
    ensures ArrayDone(p, w, t, v, k, fuel)
  {
    if k == 0 {
      ElementBelow(p, t);
      NonePerform(w, ArrayDraft(p, ElementType(p, t.id), |v.elems|, 0).code, v.elems, fuel);
    } else {
      ArrayDraftPerforms(p, w, t, v, k - 1, fuel);
      ArrayDraftStep(p, w, t, v, k, fuel);
    }
  }

  lemma {:induction false} ArraySlots(p: Pool, e: Type, len: nat, k: nat)
    requires WellFormed(p) && ValidType(p, e)
    ensures ArrayDraft(p, e, len, k).code.paramSlots == SlotStarts(len, AbiSlots(p, e))
  {
    if k > 0 {
      ArraySlots(p, e, len, k - 1);
    }
  }

  /** The glue's parameter for element `i` is the slot of that element's first word. */
  lemma ArrayParameters(p: Pool, t: Type, v: Value)
    requires WellFormed(p) && t.Array? && ValidType(p, t) && HasType(p, t, v)
    ensures ArrayGlue(p, t).paramSlots == WordStarts(p, t, v)
  {
    WordStartsAreSlots(p, t, v);
    ArraySlots(p, ElementType(p, t.id), p[t.id].len, p[t.id].len);
  }

  lemma ArrayGlueIs(p: Pool, t: Type)
    requires WellFormed(p) && t.Array? && ValidType(p, t)
    ensures var d := ArrayDraft(p, (ElementBelow(p, t); ElementType(p, t.id)), p[t.id].len, p[t.id].len);
      Glue(p, t) == Seal(UnitBlock(d).0, UnitBlock(d).1) && |UnitBlock(d).0.insts| < |Glue(p, t).insts|
  {}

  lemma {:induction false} ArrayGlueRuns(p: Pool, w: World, t: Type, v: Value, st: State, fuel: nat)
    requires WellFormed(p) && t.Array? && ValidType(p, t) && HasType(p, t, v) && |Glue(p, t).insts| <= 0x1_0000_0000
    requires PartsDrop(p, w, t, 0, v.elems, fuel)
    ensures Ends(Enter(w, Glue(p, t), v.elems, st, fuel + 1), st, GlueTrace(p, t, v))
  {
    ElementBelow(p, t);
    ArrayGlueIs(p, t);
    var n := |v.elems|;
    var d := ArrayDraft(p, ElementType(p, t.id), n, n);
    ArrayStatements(p, w, t, v, fuel);
    DraftRuns(w, d, v.elems, GlueTrace(p, t, v), st, fuel);
  }

  lemma {:induction false} ArrayStatements(p: Pool, w: World, t: Type, v: Value, fuel: nat)
    requires WellFormed(p) && t.Array? && ValidType(p, t) && HasType(p, t, v) && PartsDrop(p, w, t, 0, v.elems, fuel)
    ensures var d := ArrayDraft(p, (ElementBelow(p, t); ElementType(p, t.id)), |v.elems|, |v.elems|);
      PerformsAll(w, d.code, v.elems, d.stmts, GlueTrace(p, t, v), fuel)
  {
    ElementBelow(p, t);
    var n := |v.elems|;
    if Skipped(p, t) {
      SkippedDraft(p, ElementType(p, t.id), n, n);
      NonePerform(w, ArrayDraft(p, ElementType(p, t.id), n, n).code, v.elems, fuel);
    } else {
      ArrayDraftPerforms(p, w, t, v, n, fuel);
      assert [] + GlueParts(p, t, 0, v.elems, n) == GlueTrace(p, t, v);
    }
  }

  lemma {:induction false} SkippedDraft(p: Pool, e: Type, len: nat, k: nat)
    requires WellFormed(p) && ValidType(p, e) && !e.Struct? && !e.Array?
    ensures ArrayDraft(p, e, len, k).stmts == []
  {
    if k > 0 {
      SkippedDraft(p, e, len, k - 1);
    }
  }

  // ---- Enums -----------------------------------------------------------------------------------------

  lemma {:induction false} VariantDraftPerforms(p: Pool, w: World, t: Type, v: Value, code: Body, k: nat, fuel: nat)
    requires WellFormed(p) && t.Enum? && ValidType(p, t) && HasType(p, t, v) && k <= |v.payload|
    requires PartsDrop(p, w, t, v.index, v.payload, fuel) && Yields(w, code, [v], 0, v, fuel)
    ensures var d := VariantDraft(p, t, code, v.index, k);
      Yields(w, d.code, [v], 0, v, fuel) &&
      PerformsAll(w, d.code, [v], d.stmts, GlueParts(p, t, v.index, v.payload, k), fuel)
  {
    if k == 0 {
      NonePerform(w, code, [v], fuel);
    } else {
      VariantDraftPerforms(p, w, t, v, code, k - 1, fuel);
      GluePartsStep(p, t, v.index, v.payload, k);
      var d := VariantDraft(p, t, code, v.index, k - 1);
      var f, x := PartType(p, t, v.index, k - 1), v.payload[k - 1];
      PartStep(p, w, f, x, d, EnumPayloadGet(0, v.index, k - 1), v, GlueParts(p, t, v.index, v.payload, k - 1), fuel);
      assert VariantDraft(p, t, code, v.index, k) == DropIfNeeded(p, d, EnumPayloadGet(0, v.index, k - 1), f);
    }
  }

  lemma {:induction false} VariantDraftGrows(p: Pool, t: Type, code: Body, i: nat, k: nat)
    requires WellFormed(p) && t.Enum? && ValidType(p, t) && i < |Variants(p, t)| && k <= |Variants(p, t)[i]|
    ensures Grows(code, VariantDraft(p, t, code, i, k).code)
  {
    if k > 0 {
      VariantFieldBelow(p, t, i, k - 1);
      VariantDraftGrows(p, t, code, i, k - 1);
    }
  }

  /** The code of variant `i`'s arm, appended to `code`. */
  function ArmBlock(p: Pool, t: Type, code: Body, i: nat): (Body, AirRef)
    requires WellFormed(p) && t.Enum? && ValidType(p, t) && i < |Variants(p, t)|
  {
    UnitBlock(VariantDraft(p, t, code, i, |Variants(p, t)[i]|))
  }

  lemma ArmBlockGrows(p: Pool, t: Type, code: Body, i: nat)
    requires WellFormed(p) && t.Enum? && ValidType(p, t) && i < |Variants(p, t)|
    ensures Grows(code, ArmBlock(p, t, code, i).0)
    ensures |code.insts| < |ArmBlock(p, t, code, i).0.insts|
    ensures ArmBlock(p, t, code, i).1 < |ArmBlock(p, t, code, i).0.insts|
  {
    VariantDraftGrows(p, t, code, i, |Variants(p, t)[i]|);
  }

  lemma PerformsOneGrows(w: World, b: Body, c: Body, args: seq<Value>, r: AirRef, tr: seq<Event>, fuel: nat)
    requires Grows(b, c) && Performs(w, b, args, r, tr, fuel)
    ensures Performs(w, c, args, r, tr, fuel)
  {
    forall e, st | Grows(c, e) ensures Ends(Eval(w, e, args, r, st, fuel), st, tr) {
      GrowsTransitive(b, c, e);
    }
  }

  /** After the first `n` variants: the parameter and the destructor call are still there, there is one
      arm per variant, and the arm of the active variant drops its fields. */
  ghost predicate ArmsReady(p: Pool, w: World, t: Type, v: Value, n: nat, fuel: nat)
    requires WellFormed(p) && t.Enum? && ValidType(p, t) && HasType(p, t, v) && n <= |Variants(p, t)|
  {
    var (code, arms) := ArmsDraft(p, t, n);
    var stmts := CallDestructor(StartWith(t), Destructor(p, t)).stmts;
    n <= |code.insts| && |arms| == n &&
    Yields(w, code, [v], 0, v, fuel) &&
    PerformsAll(w, code, [v], stmts, DestructorCall(p, t, v), fuel) &&
    (forall k :: 0 <= k < n ==> arms[k].pattern == P.EnumVariant(Word(t.id), Word(k))) &&
    (v.index < n ==> Performs(w, code, [v], arms[v.index].body, GlueParts(p, t, v.index, v.payload, |v.payload|), fuel))
  }

  lemma {:induction false} ArmsPerform(p: Pool, w: World, t: Type, v: Value, n: nat, fuel: nat)
    requires WellFormed(p) && t.Enum? && ValidType(p, t) && HasType(p, t, v) && n <= |Variants(p, t)|
    requires DestructorOutside(p, w, t) && PartsDrop(p, w, t, v.index, v.payload, fuel)
    requires |ArmsDraft(p, t, n).0.insts| <= 0x1_0000_0000
    ensures ArmsReady(p, w, t, v, n, fuel)
  {
    if n == 0 {
      DestructorPerforms(w, t, Destructor(p, t), v, fuel);
    } else {
      var code := ArmsDraft(p, t, n - 1).0;
      ArmBlockGrows(p, t, code, n - 1);
      ArmsPerform(p, w, t, v, n - 1, fuel);
      ArmsStep(p, w, t, v, n, fuel);
    }
  }

  lemma {:induction false} ArmsStep(p: Pool, w: World, t: Type, v: Value, n: nat, fuel: nat)
    requires WellFormed(p) && t.Enum? && ValidType(p, t) && HasType(p, t, v) && 0 < n <= |Variants(p, t)|
    requires PartsDrop(p, w, t, v.index, v.payload, fuel) && ArmsReady(p, w, t, v, n - 1, fuel)
    requires |ArmsDraft(p, t, n).0.insts| <= 0x1_0000_0000
    ensures ArmsReady(p, w, t, v, n, fuel)
  {
    var (code, arms) := ArmsDraft(p, t, n - 1);
    var (b, body) := ArmBlock(p, t, code, n - 1);
    ArmBlockGrows(p, t, code, n - 1);
    assert ArmsDraft(p, t, n) == (b, arms + [P.Arm(P.EnumVariant(Word(t.id), Word(n - 1)), Word(body))]);
    YieldsGrows(w, code, b, [v], 0, v, fuel);
    PerformsGrows(w, code, b, [v], CallDestructor(StartWith(t), Destructor(p, t)).stmts, DestructorCall(p, t, v), fuel);
    if v.index < n - 1 {
      PerformsOneGrows(w, code, b, [v], arms[v.index].body, GlueParts(p, t, v.index, v.payload, |v.payload|), fuel);
    } else if v.index == n - 1 {
      ActiveArmPerforms(p, w, t, v, code, fuel);
    }
  }

  lemma {:induction false} ActiveArmPerforms(p: Pool, w: World, t: Type, v: Value, code: Body, fuel: nat)
    requires WellFormed(p) && t.Enum? && ValidType(p, t) && HasType(p, t, v)
    requires PartsDrop(p, w, t, v.index, v.payload, fuel) && Yields(w, code, [v], 0, v, fuel)
    requires |ArmBlock(p, t, code, v.index).0.insts| <= 0x1_0000_0000
    ensures var (b, body) := ArmBlock(p, t, code, v.index);
      Word(body) == body && Performs(w, b, [v], body, GlueParts(p, t, v.index, v.payload, |v.payload|), fuel)
  {
    ArmBlockGrows(p, t, code, v.index);
    VariantDraftPerforms(p, w, t, v, code, |v.payload|, fuel);
    UnitBlockPerforms(w, VariantDraft(p, t, code, v.index, |v.payload|), [v],
                      GlueParts(p, t, v.index, v.payload, |v.payload|), fuel);
  }

  lemma {:induction false} DecodeArmsStep(words: seq<P.u32>, n: nat, arm: P.Arm, c: nat, arms: seq<P.Arm>)
    requires words != [] && words[0] == arm.body && 1 + c <= |words|
    requires P.Decode(words[1..]) == Some((arm.pattern, c)) && DecodeArms(words[1 + c..], n) == Some(arms)
    ensures DecodeArms(words, n + 1) == Some([arm] + arms)
  {}

  lemma {:induction false} ArmWords(arms: seq<P.Arm>, later: seq<P.u32>)
    requires arms != []
    ensures var words, code := P.EncodeArms(arms) + later, P.Encode(arms[0].pattern);
      1 + |code| <= |words| && words[0] == arms[0].body &&
      P.Decode(words[1..]) == Some((arms[0].pattern, |code|)) &&
      words[1 + |code|..] == P.EncodeArms(arms[1..]) + later
  {
    var code, rest := P.Encode(arms[0].pattern), P.EncodeArms(arms[1..]);
    var words := P.EncodeArms(arms) + later;
    P.SplitArm(words, arms[0].body, code, rest, later);
    P.DecodeEncode(arms[0].pattern, rest + later);
  }

  /** The stored arms decode to themselves. */
  lemma {:induction false} DecodeArmsOf(arms: seq<P.Arm>, later: seq<P.u32>)
    ensures DecodeArms(P.EncodeArms(arms) + later, |arms|) == Some(arms)
  {
    if arms != [] {
      var words, c := P.EncodeArms(arms) + later, |P.Encode(arms[0].pattern)|;
      ArmWords(arms, later);
      DecodeArmsOf(arms[1..], later);
      DecodeArmsStep(words, |arms| - 1, arms[0], c, arms[1..]);
      assert [arms[0]] + arms[1..] == arms;
    }
  }

  /** The arm of the active variant is the first that accepts. */
  lemma {:induction false} SelectVariantArm(arms: seq<P.Arm>, id: P.u32, from: nat, v: Value)
    requires v.Variant? && from <= v.index < from + |arms| <= 0x1_0000_0000
    requires forall k :: 0 <= k < |arms| ==> arms[k].pattern == P.EnumVariant(id, Word(from + k))
    ensures SelectArm(arms, v) == Some(arms[v.index - from].body)
  {
    assert arms[0].pattern == P.EnumVariant(id, Word(from + 0));
    if v.index != from {
      forall k | 0 <= k < |arms[1..]| ensures arms[1..][k].pattern == P.EnumVariant(id, Word(from + 1 + k)) {
        assert arms[1..][k] == arms[k + 1];
      }
      SelectVariantArm(arms[1..], id, from + 1, v);
    }
  }

  /** In any continuation, the match stored over `arms` chooses the arm of the active variant. */
  lemma {:induction false} MatchChooses(b: Body, arms: seq<P.Arm>, id: P.u32, v: Value, c: Body)
    requires v.Variant? && v.index < |arms| <= 0x1_0000_0000
    requires forall k :: 0 <= k < |arms| ==> arms[k].pattern == P.EnumVariant(id, Word(k))
    requires Grows(AddWords(b, P.EncodeArms(arms)), c)
    ensures ChooseArm(c, |b.extra|, |arms|, v) == Some(arms[v.index].body)
  {
    var words := P.EncodeArms(arms);
    GrowsWords(b, words, c);
    var later := c.extra[|b.extra|..][|words|..];
    assert c.extra[|b.extra|..] == words + later;
    DecodeArmsOf(arms, later);
    SelectVariantArm(arms, id, 0, v);
  }

  /** A match over `arms`, added to code whose parameter and active arm are known. */
  lemma {:induction false} MatchRuns(w: World, b: Body, arms: seq<P.Arm>, id: P.u32, v: Value, tr: seq<Event>,
                                     fuel: nat)
    requires v.Variant? && v.index < |arms| <= 0x1_0000_0000
    requires forall k :: 0 <= k < |arms| ==> arms[k].pattern == P.EnumVariant(id, Word(k))
    requires Yields(w, b, [v], 0, v, fuel) && Performs(w, b, [v], arms[v.index].body, tr, fuel)
    ensures Performs(w, Add(AddWords(b, P.EncodeArms(arms)), Match(0, |b.extra|, |arms|), UNIT_TYPE), [v],
      |b.insts|, tr, fuel)
  {
    var words := P.EncodeArms(arms);
    var b1, m, r := AddWords(b, words), Match(0, |b.extra|, |arms|), |b.insts|;
    forall c, st | Grows(Add(b1, m, UNIT_TYPE), c) ensures Ends(Eval(w, c, [v], r, st, fuel), st, tr) {
      GrowsAdd(b1, m, UNIT_TYPE, c);
      GrowsWords(b, words, c);
      MatchChooses(b, arms, id, v, c);
      MatchEval(w, c, [v], r, |b.extra|, |arms|, v, arms[v.index].body, st, fuel);
    }
  }

  lemma {:induction false} MatchPerforms(p: Pool, w: World, t: Type, v: Value, fuel: nat)
    requires WellFormed(p) && t.Enum? && ValidType(p, t) && HasType(p, t, v)
    requires ArmsReady(p, w, t, v, |Variants(p, t)|, fuel) && |MatchDraft(p, t).insts| <= 0x1_0000_0000
    ensures Performs(w, MatchDraft(p, t), [v], |MatchDraft(p, t).insts| - 1,
      GlueParts(p, t, v.index, v.payload, |v.payload|), fuel)
    ensures Grows(ArmsDraft(p, t, |Variants(p, t)|).0, MatchDraft(p, t))
  {
    var (b, arms) := ArmsDraft(p, t, |Variants(p, t)|);
    MatchRuns(w, b, arms, Word(t.id), v, GlueParts(p, t, v.index, v.payload, |v.payload|), fuel);
  }

  /** A match on a value with a known arm runs that arm. */
  lemma MatchEval(w: World, c: Body, args: seq<Value>, r: AirRef, start: nat, len: nat, v: Value, arm: AirRef,
                  st: State, fuel: nat)
    requires 0 < r < |c.insts| && c.insts[r].data == Match(0, start, len) && arm < r
    requires Eval(w, c, args, 0, st, fuel) == Val(v, st) && ChooseArm(c, start, len, v) == Some(arm)
    ensures Eval(w, c, args, r, st, fuel) == Eval(w, c, args, arm, st, fuel)
  {
    assert EvalAll(w, c, args, [0][1..], r, st, fuel) == Vals([], st);
    assert EvalAll(w, c, args, [0], r, st, fuel) == Vals([v], st);
  }

  /** The statements of an enum's glue: the destructor call, if any, and the match. */
  lemma {:induction false} EnumStatements(p: Pool, w: World, t: Type, v: Value, fuel: nat)
    requires WellFormed(p) && t.Enum? && ValidType(p, t) && HasType(p, t, v)
    requires |MatchDraft(p, t).insts| <= 0x1_0000_0000
    requires DestructorOutside(p, w, t) && PartsDrop(p, w, t, v.index, v.payload, fuel)
    ensures var b := MatchDraft(p, t);
      var m := |b.insts| - 1;
      Performs(w, b, [v], m, GlueParts(p, t, v.index, v.payload, |v.payload|), fuel) &&
      PerformsAll(w, b, [v], CallDestructor(StartWith(t), Destructor(p, t)).stmts + [m], GlueTrace(p, t, v), fuel)
  {
    var b := MatchDraft(p, t);
    var m := |b.insts| - 1;
    var stmts := CallDestructor(StartWith(t), Destructor(p, t)).stmts;
    ArmsPerform(p, w, t, v, |Variants(p, t)|, fuel);
    MatchPerforms(p, w, t, v, fuel);
    PerformsGrows(w, ArmsDraft(p, t, |Variants(p, t)|).0, b, [v], stmts, DestructorCall(p, t, v), fuel);
    PerformsSnoc(w, b, [v], stmts, m, DestructorCall(p, t, v), GlueParts(p, t, v.index, v.payload, |v.payload|), fuel);
  }

  lemma EnumGlueIs(p: Pool, t: Type)
    requires WellFormed(p) && t.Enum? && ValidType(p, t)
    ensures var b := MatchDraft(p, t);
      var d := Draft(b, [1, |b.insts| - 1]);
      |b.insts| < |Glue(p, t).insts| &&
      if Destructor(p, t).None? then Glue(p, t) == Seal(b, |b.insts| - 1)
      else Glue(p, t) == Seal(UnitBlock(d).0, UnitBlock(d).1) && |UnitBlock(d).0.insts| < |Glue(p, t).insts|
  {}

  lemma {:induction false} EnumGlueRuns(p: Pool, w: World, t: Type, v: Value, st: State, fuel: nat)
    requires WellFormed(p) && t.Enum? && ValidType(p, t) && HasType(p, t, v) && |Glue(p, t).insts| <= 0x1_0000_0000
    requires DestructorOutside(p, w, t) && PartsDrop(p, w, t, v.index, v.payload, fuel)
    ensures Ends(Enter(w, Glue(p, t), [v], st, fuel + 1), st, GlueTrace(p, t, v))
  {
    EnumGlueIs(p, t);
    EnumStatements(p, w, t, v, fuel);
    var b := MatchDraft(p, t);
    var m := |b.insts| - 1;
    if Destructor(p, t).None? {
      var tr := GlueParts(p, t, v.index, v.payload, |v.payload|);
      SealRuns(w, b, m, [v], tr, st, fuel);
      assert [] + tr == tr;
    } else {
      assert CallDestructor(StartWith(t), Destructor(p, t)).stmts + [m] == [1, m];
      DraftRuns(w, Draft(b, [1, m]), [v], GlueTrace(p, t, v), st, fuel);
    }
  }

  // ---- All types --------------------------------------------------------------------------------------

  /** In a program that has every droppable type's glue under its name, dropping a value of any type
      does exactly what its glue trace says, given fuel for the nesting depth of the type. */
  lemma {:induction false} DroppingFollowsTrace(p: Pool, w: World, t: Type, v: Value, fuel: nat)
    requires GlueWorld(p, w) && ValidType(p, t) && HasType(p, t, v) && fuel >= Rank(p, t)
    ensures Drops(w, t, v, GlueTrace(p, t, v), fuel)
    decreases Rank(p, t)
  {
    if IsLeaf(t) || !NeedsDrop(p, t) {
      SilentDrop(p, w, t, v, fuel);
    } else {
      var i, vs, n := VariantOf(v), PartsOf(v), fuel - 1;
      forall j | 0 <= j < |vs|
        ensures Drops(w, PartType(p, t, i, j), vs[j], GlueTrace(p, PartType(p, t, i, j), vs[j]), n)
      {
        DroppingFollowsTrace(p, w, PartType(p, t, i, j), vs[j], n);
      }
      NeedyDrop(p, w, t, v, n);
    }
  }

  /** A droppable value, given that its parts are dropped with one unit of fuel less. */
  lemma {:induction false} NeedyDrop(p: Pool, w: World, t: Type, v: Value, n: nat)
    requires GlueWorld(p, w) && ValidType(p, t) && HasType(p, t, v) && !IsLeaf(t) && NeedsDrop(p, t)
    requires PartsDrop(p, w, t, VariantOf(v), PartsOf(v), n)
    ensures Drops(w, t, v, GlueTrace(p, t, v), n + 1)
  {
    DropEnters(p, w, t, v, n + 1);
    GlueDrops(p, w, t, v, n);
  }

  lemma SilentDrop(p: Pool, w: World, t: Type, v: Value, fuel: nat)
    requires GlueWorld(p, w) && ValidType(p, t) && HasType(p, t, v) && (IsLeaf(t) || !NeedsDrop(p, t))
    ensures Drops(w, t, v, GlueTrace(p, t, v), fuel)
  {
    if !t.Vec? {
      UndroppedIsSilent(p, t, v);
      assert w.dropName(t) == DropFnName(p, t) == None;
      UnnamedDrop(w, t, v, fuel);
    }
  }

  lemma UnnamedDrop(w: World, t: Type, v: Value, fuel: nat)
    requires !t.Vec? && w.dropName(t).None?
    ensures Drops(w, t, v, [], fuel)
  {
    forall st ensures Ends(DropValue(w, t, v, st, fuel), st, []) {
      assert st.trace + [] == st.trace;
    }
  }

  /** Dropping a droppable struct, enum or array enters its glue. */
  lemma DropEnters(p: Pool, w: World, t: Type, v: Value, fuel: nat)
    requires GlueWorld(p, w) && ValidType(p, t) && HasType(p, t, v) && !IsLeaf(t) && NeedsDrop(p, t)
    ensures Enters(w, t, v, Glue(p, t), GlueArgs(t, v), fuel) && GlueFits(p, t) && DestructorOutside(p, w, t)
  {
    assert HasGlue(p, w, t) && GlueFits(p, t) && DestructorOutside(p, w, t);
    assert w.dropName(t) == DropFnName(p, t);
    if t.Array? {
      ArrayParameters(p, t, v);
      assert TakesElements(w, DropFnName(p, t).value, w.starts(t, v));
    }
  }

  ghost function GlueArgs(t: Type, v: Value): seq<Value> {
    if t.Array? && v.Aggregate? then v.elems else [v]
  }

  /** A call of `b` does exactly `tr`. */
  ghost predicate Runs(w: World, b: Body, args: seq<Value>, tr: seq<Event>, fuel: nat) {
    forall st {:trigger Enter(w, b, args, st, fuel)} :: Ends(Enter(w, b, args, st, fuel), st, tr)
  }

  lemma {:induction false} GlueRuns(p: Pool, w: World, t: Type, v: Value, fuel: nat)
    requires WellFormed(p) && ValidType(p, t) && HasType(p, t, v) && !IsLeaf(t)
    requires GlueFits(p, t) && DestructorOutside(p, w, t)
    requires PartsDrop(p, w, t, VariantOf(v), PartsOf(v), fuel)
    ensures Runs(w, Glue(p, t), GlueArgs(t, v), GlueTrace(p, t, v), fuel + 1)
  {
    var b, args, tr := Glue(p, t), GlueArgs(t, v), GlueTrace(p, t, v);
    var next := fuel + 1;
    forall st ensures Ends(Enter(w, b, args, st, next), st, tr) {
      if t.Struct? {
        StructGlueRuns(p, w, t, v, st, fuel);
      } else if t.Array? {
        ArrayGlueRuns(p, w, t, v, st, fuel);
      } else {
        EnumGlueRuns(p, w, t, v, st, fuel);
      }
    }
  }

  /** Dropping the value is calling `b`. */
  ghost predicate Enters(w: World, t: Type, v: Value, b: Body, args: seq<Value>, fuel: nat) {
    forall st {:trigger DropValue(w, t, v, st, fuel)} :: DropValue(w, t, v, st, fuel) == Enter(w, b, args, st, fuel)
  }

  lemma EnteringDrops(w: World, t: Type, v: Value, b: Body, args: seq<Value>, tr: seq<Event>, fuel: nat)
    requires Enters(w, t, v, b, args, fuel) && Runs(w, b, args, tr, fuel)
    ensures Drops(w, t, v, tr, fuel)
  {
    forall st ensures Ends(DropValue(w, t, v, st, fuel), st, tr) {
      assert Ends(Enter(w, b, args, st, fuel), st, tr);
    }
  }

  lemma {:induction false} GlueDrops(p: Pool, w: World, t: Type, v: Value, fuel: nat)
    requires WellFormed(p) && ValidType(p, t) && HasType(p, t, v) && !IsLeaf(t)
    requires Enters(w, t, v, Glue(p, t), GlueArgs(t, v), fuel + 1) && GlueFits(p, t) && DestructorOutside(p, w, t)
    requires PartsDrop(p, w, t, VariantOf(v), PartsOf(v), fuel)
    ensures Drops(w, t, v, GlueTrace(p, t, v), fuel + 1)
  {
    GlueRuns(p, w, t, v, fuel);
    EnteringDrops(w, t, v, Glue(p, t), GlueArgs(t, v), GlueTrace(p, t, v), fuel + 1);
  }
}
