/** The builders of the drop functions, and the loop that synthesizes one for every droppable type. */
module DropSynthesis {
  import opened Bytes
  import opened Types
  import opened Layout
  import opened Storage
  import opened DropNames
  import opened DropNaming
  import opened DropTrace
  import opened DropLoss
  import opened Abi
  import opened DropGlue
  import opened DropProof
  import opened A = Air
  import P = Patterns
  import I = InternPool

  /** `air` holds the instructions and words of `b`. */
  ghost predicate Builds(air: A.Air, b: Body)
    reads air
  {
    air.insts == b.insts && air.extra == b.extra && air.valueArgs == b.valueArgs
  }

  method BlockOrValue(air: A.Air, statements: seq<AirRef>, value: AirRef) returns (r: AirRef)
    modifies air
    ensures air.valueArgs == old(air.valueArgs)
    ensures statements == [] ==> r == value && air.insts == old(air.insts) && air.extra == old(air.extra)
    ensures statements != [] ==>
      r == |old(air.insts)| && air.extra == old(air.extra) + WordsOf(statements) &&
      air.insts == old(air.insts) + [Inst(Block(|old(air.extra)|, |statements|, value), UNIT_TYPE)]
  {
    if statements == [] {
      return value;
    }
    var start := air.AddExtra(WordsOf(statements));
    r := air.AddInst(Block(start, |statements|, value), UNIT_TYPE);
  }

  method UnitOrBlock(air: A.Air, statements: seq<AirRef>, ghost d: Draft) returns (r: AirRef)
    requires Builds(air, d.code) && statements == d.stmts
    modifies air
    ensures Builds(air, UnitBlock(d).0) && r == UnitBlock(d).1
  {
    var unit := air.AddInst(UnitConst, UNIT_TYPE);
    r := BlockOrValue(air, statements, unit);
  }

  /** The parameter and, if there is one, the call of the user destructor on it. */
  method StartGlue(air: A.Air, t: Type, destructor: Option<Name>) returns (statements: seq<AirRef>)
    requires Builds(air, Body([], [], map[], []))
    modifies air
    ensures Builds(air, CallDestructor(StartWith(t), destructor).code)
    ensures statements == CallDestructor(StartWith(t), destructor).stmts
  {
    var param := air.AddInst(Param(0), t);
    statements := [];
    if destructor.Some? {
      var start := air.AddExtra([Word(param), 0]);
      var call := air.AddInst(Call(destructor.value, start, 1), UNIT_TYPE);
      statements := statements + [call];
    }
  }

  method EmitDrop(air: A.Air, fetch: InstData, ty: Type, statements: seq<AirRef>,
                  ghost d: Draft) returns (longer: seq<AirRef>)
    requires Builds(air, d.code) && statements == d.stmts
    modifies air
    ensures Builds(air, DropPart(d, fetch, ty).code) && longer == DropPart(d, fetch, ty).stmts
  {
    var value := air.AddInst(fetch, ty);
    var drop := air.AddInst(Drop(value), UNIT_TYPE);
    longer := statements + [drop];
  }

  /** `slots` machine words hold any value of `t`. */
  ghost predicate Declares(p: Pool, t: Type, slots: nat)
    requires WellFormed(p) && ValidType(p, t)
  {
    forall v :: HasType(p, t, v) ==> |Words(p, t, v)| == slots
  }

  lemma SlotsDeclared(p: Pool, t: Type)
    requires WellFormed(p) && ValidType(p, t)
    ensures Declares(p, t, AbiSlots(p, t))
  {
    forall v | HasType(p, t, v) ensures |Words(p, t, v)| == AbiSlots(p, t) {
      WordCount(p, t, v);
    }
  }

  /** The function and the parameter slots it declares. */
  method CreateStructGlue(p: Pool, t: Type) returns (f: Function, slots: nat)
    requires WellFormed(p) && t.Struct? && ValidType(p, t)
    ensures f == Function(DROP_PREFIX + p[t.id].structDef.name, StructGlue(p, t))
    ensures Declares(p, t, slots)
  {
    slots := AbiSlots(p, t);
    SlotsDeclared(p, t);
    var def := p[t.id].structDef;
    var air := new A.Air();
    var statements := StartGlue(air, t, def.destructor);
    for k := 0 to |def.fields|
      invariant fresh(air) && k <= |Fields(p, t)|
      invariant Builds(air, StructDraft(p, t, k).code) && statements == StructDraft(p, t, k).stmts
    {
      FieldBelow(p, t, k);
      if NeedsDrop(p, def.fields[k]) {
        statements := EmitDrop(air, FieldGet(0, t.id, k), def.fields[k], statements, StructDraft(p, t, k));
      }
    }
    StructSlots(p, t, |def.fields|);
    var value := UnitOrBlock(air, statements, StructDraft(p, t, |def.fields|));
    var ret := air.AddInst(Ret(Some(value)), UNIT_TYPE);
    f := Function(DROP_PREFIX + def.name, Body(air.insts, air.extra, air.valueArgs, [0]));
  }

  lemma {:induction false} StructSlots(p: Pool, t: Type, k: nat)
    requires WellFormed(p) && t.Struct? && ValidType(p, t) && k <= |Fields(p, t)|
    ensures StructDraft(p, t, k).code.paramSlots == [0]
  {
    if k > 0 {
      FieldBelow(p, t, k - 1);
      StructSlots(p, t, k - 1);
    }
  }

  method CreateArrayGlue(p: Pool, t: Type) returns (f: Function, slots: nat)
    requires WellFormed(p) && Backward(p) && t.Array? && ValidType(p, t) && NeedsDrop(p, t) && Nameable(p, t)
    ensures DropFnName(p, t) == Some(f.name) && f.body == ArrayGlue(p, t)
    ensures Declares(p, t, slots) && forall v :: HasType(p, t, v) ==> f.body.paramSlots == WordStarts(p, t, v)
  {
    ElementBelow(p, t);
    var element, len := ElementType(p, t.id), p[t.id].len;
    var air := new A.Air();
    var each := AbiSlots(p, element);
    slots := each * len;
    SlotsDeclared(p, t);
    var statements: seq<AirRef> := [];
    for k := 0 to len
      invariant fresh(air)
      invariant Builds(air, ArrayDraft(p, element, len, k).code) && statements == ArrayDraft(p, element, len, k).stmts
    {
      if element.Struct? || element.Array? {
        statements := EmitDrop(air, Param(SlotStart(k, each)), element, statements, ArrayDraft(p, element, len, k));
      }
    }
    ArraySlots(p, element, len, len);
    var value := UnitOrBlock(air, statements, ArrayDraft(p, element, len, len));
    var ret := air.AddInst(Ret(Some(value)), UNIT_TYPE);
    f := Function(DropFnName(p, t).value, Body(air.insts, air.extra, air.valueArgs, SlotStarts(len, each)));
    forall v | HasType(p, t, v) ensures f.body.paramSlots == WordStarts(p, t, v) {
      ArrayParameters(p, t, v);
    }
  }

  /** The drops of one variant's fields, as the value of its arm. */
  method EmitArm(p: Pool, t: Type, i: nat, air: A.Air, ghost code: Body) returns (body: AirRef)
    requires WellFormed(p) && t.Enum? && ValidType(p, t) && i < |Variants(p, t)| && Builds(air, code)
    modifies air
    ensures Builds(air, ArmBlock(p, t, code, i).0) && body == ArmBlock(p, t, code, i).1
  {
    var fields := p[t.id].enumDef.variants[i];
    var statements: seq<AirRef> := [];
    for k := 0 to |fields|
      invariant k <= |Variants(p, t)[i]|
      invariant Builds(air, VariantDraft(p, t, code, i, k).code) && statements == VariantDraft(p, t, code, i, k).stmts
    {
      VariantFieldBelow(p, t, i, k);
      if NeedsDrop(p, fields[k]) {
        statements := EmitDrop(air, EnumPayloadGet(0, i, k), fields[k], statements, VariantDraft(p, t, code, i, k));
      }
    }
    body := UnitOrBlock(air, statements, VariantDraft(p, t, code, i, |fields|));
  }

  lemma {:induction false} EncodeArmsSnoc(arms: seq<P.Arm>, arm: P.Arm)
    ensures P.EncodeArms(arms + [arm]) == P.EncodeArms(arms) + ([arm.body] + P.Encode(arm.pattern))
  {
    var one := [arm.body] + P.Encode(arm.pattern);
    if arms == [] {
      assert [] + [arm] == [arm] && [arm][1..] == [] && one + [] == one && [] + one == one;
      assert P.EncodeArms([arm]) == one + P.EncodeArms([arm][1..]);
    } else {
      var head, tail := [arms[0].body] + P.Encode(arms[0].pattern), P.EncodeArms(arms[1..]);
      EncodeArmsSnoc(arms[1..], arm);
      assert (arms + [arm])[1..] == arms[1..] + [arm];
      Assoc(head, tail, one);
    }
  }

  /** `AirPattern::encode`: the body, then the pattern tree. */
  method EncodeArm(arm: P.Arm, out: P.Words, ghost arms: seq<P.Arm>)
    requires out.words == P.EncodeArms(arms)
    modifies out
    ensures out.words == P.EncodeArms(arms + [arm])
  {
    EncodeArmsSnoc(arms, arm);
    out.Push(arm.body);
    P.EncodePatternTree(arm.pattern, out);
    Assoc(P.EncodeArms(arms), [arm.body], P.Encode(arm.pattern));
  }

  ghost predicate ArmsBuilt(p: Pool, t: Type, n: nat, air: A.Air, out: P.Words)
    requires WellFormed(p) && t.Enum? && ValidType(p, t) && n <= |Variants(p, t)|
    reads air, out
  {
    var (code, arms) := ArmsDraft(p, t, n);
    Builds(air, code) && out.words == P.EncodeArms(arms) && |arms| == n
  }

  method EmitNextArm(p: Pool, t: Type, n: nat, air: A.Air, out: P.Words)
    requires WellFormed(p) && t.Enum? && ValidType(p, t) && n < |Variants(p, t)| && ArmsBuilt(p, t, n, air, out)
    modifies air, out
    ensures ArmsBuilt(p, t, n + 1, air, out)
  {
    ghost var (code, arms) := ArmsDraft(p, t, n);
    var body := EmitArm(p, t, n, air, code);
    EncodeArm(P.Arm(P.EnumVariant(Word(t.id), Word(n)), Word(body)), out, arms);
  }

  lemma {:induction false} EnumSlots(p: Pool, t: Type)
    requires WellFormed(p) && t.Enum? && ValidType(p, t)
    ensures EnumGlue(p, t).paramSlots == [0]
  {
    ArmsSlots(p, t, |Variants(p, t)|);
  }

  lemma {:induction false} ArmsSlots(p: Pool, t: Type, n: nat)
    requires WellFormed(p) && t.Enum? && ValidType(p, t) && n <= |Variants(p, t)|
    ensures ArmsDraft(p, t, n).0.paramSlots == [0]
  {
    if n > 0 {
      ArmsSlots(p, t, n - 1);
      VariantDraftGrows(p, t, ArmsDraft(p, t, n - 1).0, n - 1, |Variants(p, t)[n - 1]|);
    }
  }

  method EmitMatch(p: Pool, t: Type, air: A.Air, arms: P.Words) returns (value: AirRef)
    requires WellFormed(p) && t.Enum? && ValidType(p, t) && ArmsBuilt(p, t, |Variants(p, t)|, air, arms)
    modifies air
    ensures Builds(air, MatchDraft(p, t)) && value == |MatchDraft(p, t).insts| - 1
  {
    var start := air.AddExtra(arms.words);
    value := air.AddInst(Match(0, start, |p[t.id].enumDef.variants|), UNIT_TYPE);
  }

  method CreateEnumGlue(p: Pool, t: Type) returns (f: Function, slots: nat)
    requires WellFormed(p) && t.Enum? && ValidType(p, t)
    ensures f == Function(DROP_PREFIX + p[t.id].enumDef.name, EnumGlue(p, t))
    ensures Declares(p, t, slots)
  {
    slots := 1;
    SlotsDeclared(p, t);
    var def := p[t.id].enumDef;
    var air := new A.Air();
    var arms := new P.Words();
    var statements := StartGlue(air, t, def.destructor);
    for n := 0 to |def.variants|
      invariant fresh(air) && fresh(arms) && n <= |Variants(p, t)|
      invariant ArmsBuilt(p, t, n, air, arms)
    {
      EmitNextArm(p, t, n, air, arms);
    }
    var value := EmitMatch(p, t, air, arms);
    if statements != [] {
      value := UnitOrBlock(air, statements + [value], Draft(MatchDraft(p, t), [1, value]));
    }
    var ret := air.AddInst(Ret(Some(value)), UNIT_TYPE);
    EnumSlots(p, t);
    f := Function(DROP_PREFIX + def.name, Body(air.insts, air.extra, air.valueArgs, [0]));
  }

  // ---- The whole synthesis --------------------------------------------------------------------------

  /** The droppable structs, enums and arrays, except builtin structs with a runtime destructor. */
  ghost predicate Synthesized(p: Pool, t: Type)
    requires WellFormed(p)
  {
    ValidType(p, t) && !IsLeaf(t) && NeedsDrop(p, t) && !(t.Struct? && RuntimeDropped(p[t.id].structDef))
  }

  predicate RuntimeDropped(def: StructDef) { def.isBuiltin && def.destructor.Some? }

  ghost function GlueFunction(p: Pool, t: Type): Function
    requires DropsNameable(p) && Synthesized(p, t)
  {
    DropFnNameExact(p, t);
    Function(DropFnName(p, t).value, Glue(p, t))
  }

  ghost predicate MadeFor(p: Pool, f: Function, t: Type)
    requires DropsNameable(p)
  {
    Synthesized(p, t) && f == GlueFunction(p, t)
  }

  ghost predicate Distinct<T(!new)>(s: seq<T>) {
    forall i, j :: 0 <= i < j < |s| ==> s[i] != s[j]
  }

  lemma DistinctJoin<T(!new)>(s: seq<T>, t: seq<T>)
    requires Distinct(s) && Distinct(t) && forall x :: x in s ==> x !in t
    ensures Distinct(s + t)
  {
    forall i, j | 0 <= i < j < |s + t| ensures (s + t)[i] != (s + t)[j] {
      assert i < |s| ==> s[i] in s;
      assert j >= |s| ==> t[j - |s|] in t;
    }
  }

  /** `fs` are the drop functions of `types`, one each. */
  ghost predicate Made(p: Pool, fs: seq<Function>, types: seq<Type>)
    requires DropsNameable(p)
  {
    |fs| == |types| && Distinct(types) &&
    forall i {:trigger MadeFor(p, fs[i], types[i])} :: 0 <= i < |types| ==> MadeFor(p, fs[i], types[i])
  }

  lemma MadeJoin(p: Pool, fs: seq<Function>, types: seq<Type>, gs: seq<Function>, more: seq<Type>)
    requires DropsNameable(p) && Made(p, fs, types) && Made(p, gs, more)
    requires forall t :: t in types ==> t !in more
    ensures Made(p, fs + gs, types + more)
  {
    DistinctJoin(types, more);
    forall i | 0 <= i < |types + more| ensures MadeFor(p, (fs + gs)[i], (types + more)[i]) {
      assert i < |types| ==> MadeFor(p, fs[i], types[i]);
      assert i >= |types| ==> MadeFor(p, gs[i - |types|], more[i - |types|]);
    }
  }

  lemma MadeSnoc(p: Pool, fs: seq<Function>, types: seq<Type>, f: Function, t: Type)
    requires DropsNameable(p) && Made(p, fs, types) && MadeFor(p, f, t) && t !in types
    ensures Made(p, fs + [f], types + [t])
  {
    assert Distinct([t]) && Made(p, [f], [t]);
    MadeJoin(p, fs, types, [f], [t]);
  }

  /** Everything synthesized so far comes from the keys already visited. */
  ghost predicate Visited(s: I.State, types: seq<Type>, seen: set<I.Key>)
    requires WellFormed(s.types) && I.Inv(s) && s.reserved == {}
  {
    forall t {:trigger t in types} ::
      t in types <==> Synthesized(s.types, t) && I.KeyOf(s.types[t.id]) in seen
  }

  lemma VisitOne(s: I.State, types: seq<Type>, seen: set<I.Key>, k: I.Key)
    requires WellFormed(s.types) && I.Inv(s) && s.reserved == {} && Visited(s, types, seen)
    requires k in s.dedup && k !in seen
    ensures var id := s.dedup[k] - PRIMITIVE_COUNT;
      0 <= id < |s.types| && I.KeyOf(s.types[id]) == k && EntryType(s.types, id) !in types &&
      Visited(s, if Synthesized(s.types, EntryType(s.types, id)) then types + [EntryType(s.types, id)] else types,
        seen + {k})
  {
    assert I.KeyOk(s, k);
    var id := s.dedup[k] - PRIMITIVE_COUNT;
    var e := EntryType(s.types, id);
    var types' := if Synthesized(s.types, e) then types + [e] else types;
    forall t ensures t in types' <==> Synthesized(s.types, t) && I.KeyOf(s.types[t.id]) in seen + {k} {
      if Synthesized(s.types, t) && I.KeyOf(s.types[t.id]) == k {
        assert I.EntryOk(s, t.id);
      }
    }
  }

  /** The function for a struct or enum, unless it needs none. */
  method GlueFor(p: Pool, t: Type) returns (f: Option<Function>)
    requires DropsNameable(p) && ValidType(p, t) && (t.Struct? || t.Enum?)
    ensures f.Some? <==> Synthesized(p, t)
    ensures f.Some? ==> MadeFor(p, f.value, t)
  {
    if !NeedsDrop(p, t) {
      return None;
    }
    if t.Struct? {
      if RuntimeDropped(p[t.id].structDef) {
        return None;
      }
      var g, _ := CreateStructGlue(p, t);
      f := Some(g);
    } else {
      var g, _ := CreateEnumGlue(p, t);
      f := Some(g);
    }
  }

  method NominalGlue(s: I.State, names: set<I.Key>) returns (fs: seq<Function>)
    requires I.Inv(s) && s.reserved == {} && DropsNameable(s.types)
    requires forall k :: k in names ==> k in s.dedup && (k.StructKey? || k.EnumKey?)
    ensures exists types {:trigger Made(s.types, fs, types)} :: Made(s.types, fs, types) && Visited(s, types, names)
  {
    var todo := names;
    fs := [];
    ghost var types: seq<Type> := [];
    ghost var seen: set<I.Key> := {};
    while todo != {}
      invariant todo <= names && seen == names - todo
      invariant Made(s.types, fs, types) && Visited(s, types, seen)
    {
      var k :| k in todo;
      VisitOne(s, types, seen, k);
      var t := EntryType(s.types, s.dedup[k] - PRIMITIVE_COUNT);
      var f := GlueFor(s.types, t);
      if f.Some? {
        MadeSnoc(s.types, fs, types, f.value, t);
        fs, types := fs + [f.value], types + [t];
      }
      todo, seen := todo - {k}, seen + {k};
    }
    assert seen == names;
  }

  /** The array entries below `n`. */
  ghost predicate ArraysBelow(p: Pool, types: seq<Type>, n: nat)
    requires WellFormed(p)
  {
    forall t {:trigger t in types} :: t in types <==> Synthesized(p, t) && t.Array? && t.id < n
  }

  lemma NextArray(p: Pool, types: seq<Type>, n: nat)
    requires WellFormed(p) && ArraysBelow(p, types, n) && n < |p|
    ensures var t := EntryType(p, n);
      t !in types &&
      (if t.Array? && NeedsDrop(p, t) then Synthesized(p, t) &&
        ArraysBelow(p, types + [t], n + 1) else ArraysBelow(p, types, n + 1))
  {}

  method ArrayGlueFunctions(p: Pool) returns (fs: seq<Function>)
    requires DropsNameable(p)
    ensures exists types {:trigger Made(p, fs, types)} :: Made(p, fs, types) && ArraysBelow(p, types, |p|)
  {
    fs := [];
    ghost var types: seq<Type> := [];
    for n := 0 to |p|
      invariant Made(p, fs, types) && ArraysBelow(p, types, n)
    {
      var t := EntryType(p, n);
      NextArray(p, types, n);
      if t.Array? && NeedsDrop(p, t) {
        assert DropNameable(p, t);
        var f, _ := CreateArrayGlue(p, t);
        assert MadeFor(p, f, t);
        MadeSnoc(p, fs, types, f, t);
        fs, types := fs + [f], types + [t];
      }
    }
  }

  /** Exactly one function, with the right name and body, for every type that needs one. */
  ghost predicate Complete(p: Pool, fs: seq<Function>, types: seq<Type>)
    requires DropsNameable(p)
  {
    Made(p, fs, types) && forall t {:trigger t in types} :: t in types <==> Synthesized(p, t)
  }

  lemma KindsCover(s: I.State, structNames: set<I.Key>, enumNames: set<I.Key>, structs: seq<Type>,
                   enums: seq<Type>, arrays: seq<Type>)
    requires I.Inv(s) && s.reserved == {} && WellFormed(s.types)
    requires structNames == (set k | k in s.dedup && k.StructKey?) && enumNames == set k | k in s.dedup && k.EnumKey?
    requires Visited(s, structs, structNames) && Visited(s, enums, enumNames) && ArraysBelow(s.types, arrays, |s.types|)
    ensures forall t {:trigger t in structs} :: t in structs ==> t !in enums && t !in arrays
    ensures forall t {:trigger t in enums} :: t in enums ==> t !in arrays
    ensures forall t :: t in structs + enums + arrays <==> Synthesized(s.types, t)
  {
    forall t ensures t in structs + enums + arrays <==> Synthesized(s.types, t) {
      if Synthesized(s.types, t) {
        assert I.EntryOk(s, t.id);
      }
    }
  }

  method SynthesizeDropGlue(s: I.State) returns (fs: seq<Function>)
    requires I.Inv(s) && s.reserved == {} && DropsNameable(s.types)
    ensures exists types :: Complete(s.types, fs, types)
  {
    var structNames := set k | k in s.dedup && k.StructKey?;
    var enumNames := set k | k in s.dedup && k.EnumKey?;
    var fs0 := NominalGlue(s, structNames);
    var fs1 := NominalGlue(s, enumNames);
    var fs2 := ArrayGlueFunctions(s.types);
    ghost var structs :| Made(s.types, fs0, structs) && Visited(s, structs, structNames);
    ghost var enums :| Made(s.types, fs1, enums) && Visited(s, enums, enumNames);
    ghost var arrays :| Made(s.types, fs2, arrays) && ArraysBelow(s.types, arrays, |s.types|);
    KindsCover(s, structNames, enumNames, structs, enums, arrays);
    MadeJoin(s.types, fs0, structs, fs1, enums);
    MadeJoin(s.types, fs0 + fs1, structs + enums, fs2, arrays);
    fs := fs0 + fs1 + fs2;
    assert Complete(s.types, fs, structs + enums + arrays);
  }

  // ---- The program with the synthesized functions in it ---------------------------------------------

  /** Drops in `w` call the function named by the pool, and pass arrays in the words of their elements. */
  ghost predicate TakesNames(p: Pool, w: World)
    requires DropsNameable(p)
  {
    PassesWords(p, w) &&
    forall t {:trigger w.dropName(t)} :: ValidType(p, t) ==> DropNameable(p, t) && w.dropName(t) == DropFnName(p, t)
  }

  /** `w` runs the functions `fs` and takes drop names from the pool. */
  ghost predicate Links(p: Pool, w: World, fs: seq<Function>)
    requires DropsNameable(p)
  {
    TakesNames(p, w) &&
    (forall i :: 0 <= i < |fs| ==> fs[i].name in w.functions && w.functions[fs[i].name] == fs[i].body) &&
    (forall name :: name in w.functions ==> exists i :: 0 <= i < |fs| && fs[i].name == name)
  }

  /** No builtin is dropped by the runtime, no user destructor is named like a drop function, and no
      body outgrows 32-bit references. */
  ghost predicate Linkable(p: Pool)
    requires DropsNameable(p)
  {
    (forall t :: ValidType(p, t) && t.Struct? ==>
      !(p[t.id].structDef.isBuiltin && p[t.id].structDef.destructor.Some?)) &&
    (forall t :: ValidType(p, t) && Destructor(p, t).Some? ==> !(DROP_PREFIX <= Destructor(p, t).value)) &&
    (forall t {:trigger GlueFits(p, t)} :: ValidType(p, t) && !IsLeaf(t) ==> GlueFits(p, t))
  }

  /** When drop names are distinct, the synthesized functions link without loss. */
  lemma DistinctNamesLink(p: Pool, w: World, fs: seq<Function>, types: seq<Type>)
    requires DropsNameable(p) && Complete(p, fs, types) && NamesDistinct(p)
    requires w.functions == Link(fs)
    requires TakesNames(p, w)
    ensures Links(p, w, fs)
  {
    forall i, j | 0 <= i < j < |fs| ensures fs[i].name != fs[j].name {
      assert MadeFor(p, fs[i], types[i]) && MadeFor(p, fs[j], types[j]);
      assert DropNameable(p, types[i]) && DropNameable(p, types[j]);
      assert !SameDropName(p, types[i], types[j]);
    }
    LinkKeeps(fs);
  }

  lemma LinkedGlue(p: Pool, w: World, fs: seq<Function>, types: seq<Type>, t: Type)
    requires DropsNameable(p) && Complete(p, fs, types) && Links(p, w, fs) && Synthesized(p, t)
    ensures HasGlue(p, w, t)
  {
    assert t in types;
    var i :| 0 <= i < |types| && types[i] == t;
    assert MadeFor(p, fs[i], types[i]);
  }

  lemma LinkedName(p: Pool, w: World, fs: seq<Function>, types: seq<Type>, name: Name)
    requires DropsNameable(p) && Complete(p, fs, types) && Links(p, w, fs) && name in w.functions
    ensures DROP_PREFIX <= name
  {
    var i :| 0 <= i < |fs| && fs[i].name == name;
    assert MadeFor(p, fs[i], types[i]);
    assert DropNameable(p, types[i]) && DropFnName(p, types[i]) == Some(name);
  }

  lemma DestructorUnlinked(p: Pool, w: World, fs: seq<Function>, types: seq<Type>, t: Type)
    requires DropsNameable(p) && Complete(p, fs, types) && Links(p, w, fs) && Linkable(p) && ValidType(p, t)
    ensures DestructorOutside(p, w, t)
  {
    if Destructor(p, t).Some? && Destructor(p, t).value in w.functions {
      LinkedName(p, w, fs, types, Destructor(p, t).value);
    }
  }

  /** Linking what was synthesized gives a program that has every drop function it calls. */
  lemma SynthesisIsClosed(p: Pool, w: World, fs: seq<Function>, types: seq<Type>)
    requires DropsNameable(p) && Complete(p, fs, types) && Links(p, w, fs) && Linkable(p)
    ensures GlueWorld(p, w)
  {
    forall t {:trigger HasGlue(p, w, t)} | ValidType(p, t) && !IsLeaf(t) && NeedsDrop(p, t) ensures HasGlue(p, w, t) {
      LinkedGlue(p, w, fs, types, t);
    }
    forall t | ValidType(p, t) ensures DestructorOutside(p, w, t) {
      DestructorUnlinked(p, w, fs, types, t);
    }
  }

  /** Running the synthesized functions drops a value completely, each destructor once and in order,
      exactly when nothing droppable sits in an array of enums or vectors; otherwise `Lost` events
      are missing. */
  lemma DropsCompletelyExactly(p: Pool, w: World, fs: seq<Function>, types: seq<Type>, t: Type, v: Value, fuel: nat)
    requires DropsNameable(p) && Complete(p, fs, types) && Links(p, w, fs) && Linkable(p)
    requires ValidType(p, t) && HasType(p, t, v) && fuel >= Rank(p, t)
    ensures Drops(w, t, v, FullTrace(p, t, v), fuel) <==> Lost(p, t, v) == 0
    ensures NoSkippedArrays(p, t) ==> Drops(w, t, v, FullTrace(p, t, v), fuel)
  {
    SynthesisIsClosed(p, w, fs, types);
    DroppingFollowsTrace(p, w, t, v, fuel);
    GlueCompleteExactly(p, t, v);
    var st := State(map[], []);
    var o := DropValue(w, t, v, st, fuel);
    assert Ends(o, st, GlueTrace(p, t, v));
    assert Ends(o, st, FullTrace(p, t, v)) ==>
      GlueTrace(p, t, v) == [] + GlueTrace(p, t, v) == [] + FullTrace(p, t, v) == FullTrace(p, t, v);
    if NoSkippedArrays(p, t) {
      NothingLost(p, t, v);
    }
  }

  /** The same for the program as it is linked, from a consistent pool with plain names. */
  lemma SynthesizedDropsExactly(s: I.State, w: World, fs: seq<Function>, types: seq<Type>, t: Type, v: Value, fuel: nat)
    requires I.Inv(s) && s.reserved == {} && DropsNameable(s.types) && PlainNames(s.types) && Linkable(s.types)
    requires Complete(s.types, fs, types) && w.functions == Link(fs) && TakesNames(s.types, w)
    requires ValidType(s.types, t) && HasType(s.types, t, v) && fuel >= Rank(s.types, t)
    ensures Drops(w, t, v, FullTrace(s.types, t, v), fuel) <==> Lost(s.types, t, v) == 0
    ensures NoSkippedArrays(s.types, t) ==> Drops(w, t, v, FullTrace(s.types, t, v), fuel)
  {
    InvCanonical(s);
    PlainNamesDistinct(s.types);
    DistinctNamesLink(s.types, w, fs, types);
    DropsCompletelyExactly(s.types, w, fs, types, t, v, fuel);
  }

  /** Over all values: the synthesized functions drop every value of a type completely exactly when no
      non-empty array that the glue skips, with something to drop in it, can be reached by value. */
  lemma TypeDropsExactly(p: Pool, w: World, fs: seq<Function>, types: seq<Type>, t: Type, fuel: nat)
    requires DropsNameable(p) && Complete(p, fs, types) && Links(p, w, fs) && Linkable(p)
    requires ValidType(p, t) && fuel >= Rank(p, t)
    ensures (forall v :: HasType(p, t, v) ==> Drops(w, t, v, FullTrace(p, t, v), fuel)) <==> !CanLose(p, t)
  {
    forall v | HasType(p, t, v) ensures Drops(w, t, v, FullTrace(p, t, v), fuel) <==> Lost(p, t, v) == 0 {
      DropsCompletelyExactly(p, w, fs, types, t, v, fuel);
    }
    LossExact(p, t);
  }

  // ---- Where it fails ---------------------------------------------------------------------------------

  /** The pool of `[Vec(i32); 1]`. */
  const VEC_ARRAY_POOL: Pool := [VecData(2), ArrayData(PRIMITIVE_COUNT, 1)]

  lemma VecArrayTyped()
    ensures WellFormed(VEC_ARRAY_POOL) && ValidType(VEC_ARRAY_POOL, Type.Array(1))
    ensures HasType(VEC_ARRAY_POOL, Type.Array(1), Aggregate([Bits(0)])) && NeedsDrop(VEC_ARRAY_POOL, Type.Array(1))
    ensures PartType(VEC_ARRAY_POOL, Type.Array(1), 0, 0) == Vec(0) && Skipped(VEC_ARRAY_POOL, Type.Array(1))
  {
    var p, t := VEC_ARRAY_POOL, Type.Array(1);
    assert Ranks(p, [0, 0]);
    ElementBelow(p, t);
    assert ElementType(p, 1) == Vec(0) && HasType(p, Vec(0), Bits(0));
  }

  /** `[Vec(i32); 1]`: the type needs dropping and its glue drops nothing. */
  lemma VecArrayExample()
    ensures var p, t, v := VEC_ARRAY_POOL, Type.Array(1), Aggregate([Bits(0)]);
      WellFormed(p) && ValidType(p, t) && HasType(p, t, v) && NeedsDrop(p, t) &&
      FullTrace(p, t, v) == [VecDrop(Bits(0))] && GlueTrace(p, t, v) == [] && Lost(p, t, v) == 1
  {
    VecArrayTyped();
    var p, t, v := VEC_ARRAY_POOL, Type.Array(1), Aggregate([Bits(0)]);
    var fs := Traces(p, t, 0, [Bits(0)]);
    assert fs[0] == FullTrace(p, Vec(0), Bits(0)) == [VecDrop(Bits(0))];
    assert Flatten(fs, 1) == Flatten(fs, 0) + fs[0] == [VecDrop(Bits(0))];
  }
}
