/** Running a rewritten program, with plain calls by mangled name, is running the original one, with
    generic calls dispatched by key: same values, same effects, at every amount of fuel. */
module SpecializeMeaning {
  import opened Bytes
  import opened Types
  import opened Storage
  import opened Mangling
  import opened Specialize
  import opened SpecializePasses
  import opened A = Air

  ghost predicate CoveredAt(b: Body, names: map<Key, Name>, i: AirRef)
    requires i < |b.insts|
  {
    (IsGeneric(b, i) ==> KeyAt(b, i).Some? && KeyAt(b, i).value in names) &&
    (b.insts[i].data.Call? ==> b.insts[i].data.name !in names.Values)
  }

  /** Every generic call in `b` has a name, and no plain call uses one of those names. */
  ghost predicate Covered(b: Body, names: map<Key, Name>) {
    forall i {:trigger CoveredAt(b, names, i)} :: 0 <= i < |b.insts| ==> CoveredAt(b, names, i)
  }

  /** A function keeps its name and has its generic calls rewritten. */
  ghost predicate FunctionKept(w: World, names: map<Key, Name>, functions: map<Name, Body>, f: Name)
    requires f in w.functions
  {
    f !in names.Values && f in functions && functions[f] == Rewrite(w.functions[f], names) &&
      Covered(w.functions[f], names)
  }

  /** The body of a key is a function under the key's name. */
  ghost predicate KeyMade(w: World, names: map<Key, Name>, functions: map<Name, Body>, k: Key)
    requires k in names
  {
    w.generic(k).Some? && Covered(w.generic(k).value, names) &&
    names[k] in functions && functions[names[k]] == Rewrite(w.generic(k).value, names)
  }

  /** `w'` is `w` after specialization. */
  ghost predicate Translated(w: World, names: map<Key, Name>, w': World) {
    w' == w.(functions := w'.functions) &&
    (forall f {:trigger FunctionKept(w, names, w'.functions, f)} :: f in w.functions ==>
      FunctionKept(w, names, w'.functions, f)) &&
    (forall f :: f in w'.functions ==> f in w.functions || f in names.Values) &&
    (forall k {:trigger KeyMade(w, names, w'.functions, k)} :: k in names ==> KeyMade(w, names, w'.functions, k)) &&
    (forall t {:trigger w.dropName(t)} :: w.dropName(t).Some? ==> w.dropName(t).value !in names.Values)
  }

  lemma SameOperands(b: Body, names: map<Key, Name>, r: AirRef)
    requires r < |b.insts|
    ensures Operands(Rewrite(b, names), Rewrite(b, names).insts[r].data) == Operands(b, b.insts[r].data)
  {
    assert Rewrite(b, names).insts[r] == RewriteAt(b, r, names);
  }

  /** One instruction, given that its parts behave alike. */
  lemma {:induction false} EvalSame(w: World, names: map<Key, Name>, w': World, b: Body, args: seq<Value>,
                                    r: AirRef, st: State, fuel: nat)
    requires Translated(w, names, w') && Covered(b, names)
    ensures Eval(w', Rewrite(b, names), args, r, st, fuel) == Eval(w, b, args, r, st, fuel)
    decreases fuel, 2 * r + 1, 0
  {
    var c := Rewrite(b, names);
    if r < |b.insts| {
      assert c.insts[r] == RewriteAt(b, r, names);
      var data := b.insts[r].data;
      if data.Branch? {
        BranchSame(w, names, w', b, args, r, st, fuel);
      } else if data.Loop? {
        LoopSame(w, names, w', b, args, r, st, fuel);
      } else if data.Match? {
        MatchSame(w, names, w', b, args, r, st, fuel);
      } else {
        StrictSame(w, names, w', b, args, r, st, fuel);
      }
    }
  }

  lemma {:induction false} BranchSame(w: World, names: map<Key, Name>, w': World, b: Body, args: seq<Value>,
                                      r: AirRef, st: State, fuel: nat)
    requires Translated(w, names, w') && Covered(b, names) && r < |b.insts| && b.insts[r].data.Branch?
    ensures Eval(w', Rewrite(b, names), args, r, st, fuel) == Eval(w, b, args, r, st, fuel)
    decreases fuel, 2 * r, 9
  {
    var c := Rewrite(b, names);
    assert c.insts[r] == RewriteAt(b, r, names) == b.insts[r];
    var data := b.insts[r].data;
    EvalAllSame(w, names, w', b, args, [data.cond], r, st, fuel);
    var o := EvalAll(w, b, args, [data.cond], r, st, fuel);
    if o.Vals? {
      EvalBelowSame(w, names, w', b, args, data.thenValue, r, o.st, fuel);
      if data.elseValue.Some? {
        EvalBelowSame(w, names, w', b, args, data.elseValue.value, r, o.st, fuel);
      }
    }
  }

  lemma {:induction false} LoopSame(w: World, names: map<Key, Name>, w': World, b: Body, args: seq<Value>,
                                    r: AirRef, st: State, fuel: nat)
    requires Translated(w, names, w') && Covered(b, names) && r < |b.insts| && b.insts[r].data.Loop?
    ensures Eval(w', Rewrite(b, names), args, r, st, fuel) == Eval(w, b, args, r, st, fuel)
    decreases fuel, 2 * r, 9
  {
    var c := Rewrite(b, names);
    assert c.insts[r] == RewriteAt(b, r, names) == b.insts[r];
    var data := b.insts[r].data;
    EvalAllSame(w, names, w', b, args, [data.cond], r, st, fuel);
    var o := EvalAll(w, b, args, [data.cond], r, st, fuel);
    if o.Vals? {
      EvalBelowSame(w, names, w', b, args, data.body, r, o.st, fuel);
      var q := EvalBelow(w, b, args, data.body, r, o.st, fuel);
      if (q.Val? || q.Continued?) && fuel > 0 {
        EvalSame(w, names, w', b, args, r, q.st, fuel - 1);
      }
    }
  }

  lemma {:induction false} MatchSame(w: World, names: map<Key, Name>, w': World, b: Body, args: seq<Value>,
                                     r: AirRef, st: State, fuel: nat)
    requires Translated(w, names, w') && Covered(b, names) && r < |b.insts| && b.insts[r].data.Match?
    ensures Eval(w', Rewrite(b, names), args, r, st, fuel) == Eval(w, b, args, r, st, fuel)
    decreases fuel, 2 * r, 9
  {
    var c := Rewrite(b, names);
    assert c.insts[r] == RewriteAt(b, r, names) == b.insts[r];
    var data := b.insts[r].data;
    EvalAllSame(w, names, w', b, args, [data.scrutinee], r, st, fuel);
    var o := EvalAll(w, b, args, [data.scrutinee], r, st, fuel);
    if o.Vals? {
      var arm := ChooseArm(b, data.armsStart, data.armsLen, o.values[0]);
      assert ChooseArm(c, data.armsStart, data.armsLen, o.values[0]) == arm;
      if arm.Some? {
        EvalBelowSame(w, names, w', b, args, arm.value, r, o.st, fuel);
      }
    }
  }

  lemma {:induction false} StrictSame(w: World, names: map<Key, Name>, w': World, b: Body, args: seq<Value>,
                                      r: AirRef, st: State, fuel: nat)
    requires Translated(w, names, w') && Covered(b, names) && r < |b.insts|
    requires var data := b.insts[r].data; !data.Branch? && !data.Loop? && !data.Match?
    ensures Eval(w', Rewrite(b, names), args, r, st, fuel) == Eval(w, b, args, r, st, fuel)
    decreases fuel, 2 * r, 9
  {
    var c := Rewrite(b, names);
    assert c.insts[r] == RewriteAt(b, r, names);
    SameOperands(b, names, r);
    var refs := Operands(b, b.insts[r].data);
    if refs.Some? {
      EvalAllSame(w, names, w', b, args, refs.value, r, st, fuel);
      var o := EvalAll(w, b, args, refs.value, r, st, fuel);
      if o.Vals? {
        FinishSame(w, names, w', b, args, r, o.values, o.st, fuel);
      }
    }
  }

  lemma {:induction false} EvalBelowSame(w: World, names: map<Key, Name>, w': World, b: Body, args: seq<Value>,
                                         r: AirRef, limit: nat, st: State, fuel: nat)
    requires Translated(w, names, w') && Covered(b, names)
    ensures EvalBelow(w', Rewrite(b, names), args, r, limit, st, fuel) == EvalBelow(w, b, args, r, limit, st, fuel)
    decreases fuel, 2 * limit, 0
  {
    if r < limit {
      EvalSame(w, names, w', b, args, r, st, fuel);
    }
  }

  lemma {:induction false} EvalAllSame(w: World, names: map<Key, Name>, w': World, b: Body, args: seq<Value>,
                                       refs: seq<AirRef>, limit: nat, st: State, fuel: nat)
    requires Translated(w, names, w') && Covered(b, names)
    ensures EvalAll(w', Rewrite(b, names), args, refs, limit, st, fuel) == EvalAll(w, b, args, refs, limit, st, fuel)
    decreases fuel, 2 * limit, 1, |refs|
  {
    if refs != [] {
      EvalBelowSame(w, names, w', b, args, refs[0], limit, st, fuel);
      var o := EvalBelow(w, b, args, refs[0], limit, st, fuel);
      if o.Val? {
        EvalAllSame(w, names, w', b, args, refs[1..], limit, o.st, fuel);
      }
    }
  }

  lemma {:induction false} FinishSame(w: World, names: map<Key, Name>, w': World, b: Body, args: seq<Value>,
                                      r: AirRef, vs: seq<Value>, st: State, fuel: nat)
    requires Translated(w, names, w') && Covered(b, names)
    requires r < |b.insts| && Operands(b, b.insts[r].data).Some? && |vs| == |Operands(b, b.insts[r].data).value|
    requires Operands(Rewrite(b, names), Rewrite(b, names).insts[r].data) == Operands(b, b.insts[r].data)
    ensures Finish(w', Rewrite(b, names), args, r, vs, st, fuel) == Finish(w, b, args, r, vs, st, fuel)
    decreases fuel, 2 * r, 3
  {
    var data := b.insts[r].data;
    if data.CallGeneric? {
      GenericSame(w, names, w', b, args, r, vs, st, fuel);
    } else {
      assert Rewrite(b, names).insts[r] == RewriteAt(b, r, names) == b.insts[r];
      if data.Call? {
        assert CoveredAt(b, names, r);
        InvokeSame(w, names, w', data.name, vs, st, fuel);
      } else if data.Drop? {
        if data.value < |b.insts| {
          assert Rewrite(b, names).insts[data.value].ty == b.insts[data.value].ty;
          DropSame(w, names, w', b.insts[data.value].ty, vs[0], st, fuel);
        }
      } else {
        PlainSame(w, names, w'.functions, b, args, r, vs, st, fuel);
      }
    }
  }

  /** Instructions that leave the body alone do not look at the functions. */
  lemma {:induction false} PlainSame(w: World, names: map<Key, Name>, functions: map<Name, Body>, b: Body,
                                     args: seq<Value>, r: AirRef,
                                     vs: seq<Value>, st: State, fuel: nat)
    requires r < |b.insts| && Operands(b, b.insts[r].data).Some? && |vs| == |Operands(b, b.insts[r].data).value|
    requires Rewrite(b, names).insts[r] == b.insts[r]
    requires var c := Rewrite(b, names); Operands(c, c.insts[r].data) == Operands(b, b.insts[r].data)
    requires var data := b.insts[r].data; !data.CallGeneric? && !data.Call? && !data.Drop?
    ensures Finish(w.(functions := functions), Rewrite(b, names), args, r, vs, st, fuel) ==
      Finish(w, b, args, r, vs, st, fuel)
  {}

  lemma {:induction false} GenericSame(w: World, names: map<Key, Name>, w': World, b: Body, args: seq<Value>,
                                       r: AirRef, vs: seq<Value>, st: State, fuel: nat)
    requires Translated(w, names, w') && Covered(b, names)
    requires r < |b.insts| && Operands(b, b.insts[r].data).Some? && |vs| == |Operands(b, b.insts[r].data).value|
    requires Operands(Rewrite(b, names), Rewrite(b, names).insts[r].data) == Operands(b, b.insts[r].data)
    requires b.insts[r].data.CallGeneric?
    ensures Finish(w', Rewrite(b, names), args, r, vs, st, fuel) == Finish(w, b, args, r, vs, st, fuel)
    decreases fuel, 2 * r, 2
  {
    assert CoveredAt(b, names, r) && IsGeneric(b, r);
    var k := KeyAt(b, r).value;
    assert KeyMade(w, names, w'.functions, k);
    GenericBecomesCall(w', names, b, args, r, k, vs, st, fuel);
    EnterSame(w, names, w', w.generic(k).value, vs, st, fuel);
  }

  lemma {:induction false} GenericBecomesCall(w: World, names: map<Key, Name>, b: Body, args: seq<Value>,
                                              r: AirRef, k: Key, vs: seq<Value>,
                                              st: State, fuel: nat)
    requires r < |b.insts| && b.insts[r].data.CallGeneric? && KeyAt(b, r) == Some(k) && k in names
    requires Operands(Rewrite(b, names), Rewrite(b, names).insts[r].data).Some?
    requires var c := Rewrite(b, names); |vs| == |Operands(c, c.insts[r].data).value|
    ensures Finish(w, Rewrite(b, names), args, r, vs, st, fuel) == Invoke(w, names[k], vs, st, fuel)
  {
    assert IsGeneric(b, r) && Rewrite(b, names).insts[r] == RewriteAt(b, r, names);
  }

  lemma {:induction false} DropSame(w: World, names: map<Key, Name>, w': World, t: Type, v: Value, st: State, fuel: nat)
    requires Translated(w, names, w')
    ensures DropValue(w', t, v, st, fuel) == DropValue(w, t, v, st, fuel)
    decreases fuel, 0, 2
  {
    var name := w.dropName(t);
    if !t.Vec? && name.Some? {
      ParametersKept(w, names, w', name.value, w.starts(t, v));
      if t.Array? && v.Aggregate? {
        InvokeSame(w, names, w', name.value, v.elems, st, fuel);
      } else {
        InvokeSame(w, names, w', name.value, [v], st, fuel);
      }
    }
  }

  lemma ParametersKept(w: World, names: map<Key, Name>, w': World, name: Name, starts: seq<nat>)
    requires Translated(w, names, w') && name !in names.Values
    ensures TakesElements(w', name, starts) <==> TakesElements(w, name, starts)
  {
    if name in w.functions {
      assert FunctionKept(w, names, w'.functions, name);
    }
  }

  lemma {:induction false} InvokeSame(w: World, names: map<Key, Name>, w': World, name: Name, args: seq<Value>,
                                      st: State, fuel: nat)
    requires Translated(w, names, w') && name !in names.Values
    ensures Invoke(w', name, args, st, fuel) == Invoke(w, name, args, st, fuel)
    decreases fuel, 0, 1
  {
    if name in w.functions {
      assert FunctionKept(w, names, w'.functions, name);
      EnterSame(w, names, w', w.functions[name], args, st, fuel);
    }
  }

  lemma {:induction false} EnterSame(w: World, names: map<Key, Name>, w': World, b: Body, args: seq<Value>,
                                     st: State, fuel: nat)
    requires Translated(w, names, w') && Covered(b, names)
    ensures Enter(w', Rewrite(b, names), args, st, fuel) == Enter(w, b, args, st, fuel)
    decreases fuel, 0, 0
  {
    if fuel > 0 && b.insts != [] {
      EvalSame(w, names, w', b, args, |b.insts| - 1, State(map[], st.trace), fuel - 1);
    }
  }

  // ---- From the passes to the program -------------------------------------------------------------------

  /** `name` belongs to no specialization. */
  predicate NotMangled(name: Name, es: seq<Entry>) {
    forall i :: 0 <= i < |es| && es[i].Made? ==> name != Mangle(es[i].k)
  }

  predicate CallsAvoid(b: Body, es: seq<Entry>) {
    forall i :: 0 <= i < |b.insts| && b.insts[i].data.Call? ==> NotMangled(b.insts[i].data.name, es)
  }

  predicate DistinctEntries(es: seq<Entry>) {
    forall i, j :: 0 <= i < j < |es| ==> EntryName(es[i]) != EntryName(es[j])
  }

  /** Every name is used once, by a function or by a key, and no plain call or drop reaches for the
      name of a specialization. */
  ghost predicate NamesApart(es: seq<Entry>, w: World) {
    DistinctEntries(es) &&
    (forall i :: 0 <= i < |es| && Makeable(w.generic, es[i]) ==> CallsAvoid(Original(w.generic, es[i]).body, es)) &&
    (forall t {:trigger w.dropName(t)} :: w.dropName(t).Some? ==> NotMangled(w.dropName(t).value, es))
  }

  /** The functions ever added, under their names. */
  ghost predicate SourceProgram(functions: map<Name, Body>, es: seq<Entry>) {
    (forall i :: 0 <= i < |es| && es[i].Added? ==>
      es[i].f.name in functions && functions[es[i].f.name] == es[i].f.body) &&
    (forall name :: name in functions ==> exists i :: 0 <= i < |es| && es[i].Added? && es[i].f.name == name)
  }

  lemma NamesOf(create: Synthesizer, es: seq<Entry>, fs: seq<Function>, names: map<Key, Name>, f: Name)
    requires Reached(create, es, fs, names)
    ensures f in names.Values <==> !NotMangled(f, es)
  {
    if f in names.Values {
      var k :| k in names && names[k] == f;
      var i :| 0 <= i < |es| && es[i] == Made(k);
      assert f == Mangle(es[i].k);
    }
    if !NotMangled(f, es) {
      var i :| 0 <= i < |es| && es[i].Made? && f == Mangle(es[i].k);
      assert es[i] == Made(es[i].k) && es[i].k in names && names[es[i].k] == f;
    }
  }

  /** A body whose rewriting left no generic call is covered. */
  lemma ClearedIsCovered(create: Synthesizer, es: seq<Entry>, fs: seq<Function>, names: map<Key, Name>, b: Body)
    requires Reached(create, es, fs, names) && CallsAvoid(b, es) && NoGenericCalls(Rewrite(b, names))
    ensures Covered(b, names)
  {
    forall i | 0 <= i < |b.insts| ensures CoveredAt(b, names, i) {
      assert Rewrite(b, names).insts[i] == RewriteAt(b, i, names);
      if b.insts[i].data.Call? {
        NamesOf(create, es, fs, names, b.insts[i].data.name);
      }
    }
  }

  predicate DistinctNames(fs: seq<Function>) {
    forall i, j :: 0 <= i < j < |fs| ==> fs[i].name != fs[j].name
  }

  lemma LinkAt(fs: seq<Function>, i: nat)
    requires DistinctNames(fs) && i < |fs|
    ensures fs[i].name in Link(fs) && Link(fs)[fs[i].name] == fs[i].body
  {
    LinkKeeps(fs);
  }

  lemma OutputNames(w: World, es: seq<Entry>, fs: seq<Function>, names: map<Key, Name>)
    requires Reached(w.generic, es, fs, names) && DistinctEntries(es)
    ensures DistinctNames(fs)
  {
    forall i, j | 0 <= i < j < |fs| ensures fs[i].name != fs[j].name {
      assert EntryDone(w.generic, es[i], names, fs[i]) && EntryDone(w.generic, es[j], names, fs[j]);
    }
  }

  /** Entry `i` is in the linked program, covered and rewritten. */
  lemma EntryLinked(w: World, es: seq<Entry>, fs: seq<Function>, names: map<Key, Name>, i: nat)
    requires Reached(w.generic, es, fs, names) && NamesApart(es, w) && DistinctNames(fs) && i < |es|
    ensures Makeable(w.generic, es[i]) && EntryName(es[i]) in Link(fs)
    ensures Link(fs)[EntryName(es[i])] == Rewrite(Original(w.generic, es[i]).body, names)
    ensures Covered(Original(w.generic, es[i]).body, names)
  {
    assert EntryDone(w.generic, es[i], names, fs[i]);
    LinkAt(fs, i);
    ClearedIsCovered(w.generic, es, fs, names, Original(w.generic, es[i]).body);
  }

  lemma FunctionTranslated(w: World, es: seq<Entry>, fs: seq<Function>, names: map<Key, Name>, f: Name)
    requires Reached(w.generic, es, fs, names) && NamesApart(es, w) && DistinctNames(fs)
    requires SourceProgram(w.functions, es) && f in w.functions
    ensures FunctionKept(w, names, Link(fs), f)
  {
    var i :| 0 <= i < |es| && es[i].Added? && es[i].f.name == f;
    EntryLinked(w, es, fs, names, i);
    forall j | 0 <= j < |es| && es[j].Made? ensures f != Mangle(es[j].k) {
      assert EntryName(es[i]) == f && EntryName(es[j]) == Mangle(es[j].k);
    }
    NamesOf(w.generic, es, fs, names, f);
  }

  lemma KeyTranslated(w: World, es: seq<Entry>, fs: seq<Function>, names: map<Key, Name>, k: Key)
    requires Reached(w.generic, es, fs, names) && NamesApart(es, w) && DistinctNames(fs) && k in names
    ensures KeyMade(w, names, Link(fs), k)
  {
    var i :| 0 <= i < |es| && es[i] == Made(k);
    EntryLinked(w, es, fs, names, i);
  }

  lemma OnlyKnownNames(w: World, es: seq<Entry>, fs: seq<Function>, names: map<Key, Name>, f: Name)
    requires Reached(w.generic, es, fs, names) && DistinctNames(fs) && SourceProgram(w.functions, es) && f in Link(fs)
    ensures f in w.functions || f in names.Values
  {
    LinkKeeps(fs);
    var i :| 0 <= i < |fs| && fs[i].name == f;
    assert EntryDone(w.generic, es[i], names, fs[i]);
    if es[i].Made? {
      assert es[i] == Made(es[i].k) && names[es[i].k] == f;
    }
  }

  /** After any list of passes the program is a translation of the one over all functions ever added. */
  lemma PassesTranslate(w: World, es: seq<Entry>, fs: seq<Function>, names: map<Key, Name>)
    requires Reached(w.generic, es, fs, names) && NamesApart(es, w) && SourceProgram(w.functions, es)
    ensures Translated(w, names, w.(functions := Link(fs)))
  {
    var w' := w.(functions := Link(fs));
    OutputNames(w, es, fs, names);
    forall f | f in w.functions ensures FunctionKept(w, names, Link(fs), f) { FunctionTranslated(w, es, fs, names, f); }
    forall f | f in w'.functions ensures f in w.functions || f in names.Values { OnlyKnownNames(w, es, fs, names, f); }
    forall k | k in names ensures KeyMade(w, names, Link(fs), k) { KeyTranslated(w, es, fs, names, k); }
    forall t | w.dropName(t).Some? ensures w.dropName(t).value !in names.Values {
      NamesOf(w.generic, es, fs, names, w.dropName(t).value);
    }
  }

  /** After any list of passes sharing one name map, each over the previous output and new functions:
      calling any function, with any arguments, state and fuel, gives what the generic program over
      all functions ever added gives, in value and effects. */
  lemma SpecializationPreservesMeaning(w: World, ps: seq<Pass>, name: Name, args: seq<Value>, st: State, fuel: nat)
    requires Chained(w.generic, ps) && NamesApart(History(ps), w) && SourceProgram(w.functions, History(ps))
    requires NotMangled(name, History(ps))
    ensures Invoke(w.(functions := Link(LastFs(ps))), name, args, st, fuel) == Invoke(w, name, args, st, fuel)
  {
    var es, fs, names := History(ps), LastFs(ps), LastNames(ps);
    RunOfPasses(w.generic, ps);
    PassesTranslate(w, es, fs, names);
    NamesOf(w.generic, es, fs, names, name);
    InvokeSame(w, names, w.(functions := Link(fs)), name, args, st, fuel);
  }

  // ---- Names without `#` ----------------------------------------------------------------------------------

  /** Keys with type arguments, over base names without `#`, written in full. */
  predicate TypedKey(k: Key) { k.typeArgs != [] && NoHash(k.base) && Plain(k) }

  predicate HashFreeCalls(b: Body) {
    forall i :: 0 <= i < |b.insts| && b.insts[i].data.Call? ==> NoHash(b.insts[i].data.name)
  }

  /** A specialization that takes types has a `#` in its name. */
  lemma MangledHasHash(k: Key)
    requires k.typeArgs != []
    ensures !NoHash(Mangle(k))
  {
    MangleSplit(k);
    var t := k.typeArgs[0];
    assert '#' in MangleType(t);
  }

  lemma HashFreeIsNotMangled(name: Name, es: seq<Entry>)
    requires NoHash(name) && forall i :: 0 <= i < |es| && es[i].Made? ==> TypedKey(es[i].k)
    ensures NotMangled(name, es)
  {
    forall i | 0 <= i < |es| && es[i].Made? ensures name != Mangle(es[i].k) { MangledHasHash(es[i].k); }
  }

  /** What keeps names apart without looking at mangled names: every specialization takes types, added
      functions have distinct names, and no function, call or drop uses a `#`. */
  ghost predicate HashFree(es: seq<Entry>, w: World) {
    (forall i, j :: 0 <= i < j < |es| && es[i].Added? && es[j].Added? ==> es[i].f.name != es[j].f.name) &&
    (forall i :: 0 <= i < |es| && es[i].Added? ==> NoHash(es[i].f.name)) &&
    (forall i :: 0 <= i < |es| && es[i].Made? ==> TypedKey(es[i].k)) &&
    (forall i :: 0 <= i < |es| && Makeable(w.generic, es[i]) ==> HashFreeCalls(Original(w.generic, es[i]).body)) &&
    (forall t {:trigger w.dropName(t)} :: w.dropName(t).Some? ==> NoHash(w.dropName(t).value))
  }

  lemma EntryNamesDiffer(es: seq<Entry>, w: World, i: nat, j: nat)
    requires HashFree(es, w) && DistinctMade(es) && i < j < |es|
    ensures EntryName(es[i]) != EntryName(es[j])
  {
    if es[i].Made? && es[j].Made? {
      if Mangle(es[i].k) == Mangle(es[j].k) {
        MangleInjective(es[i].k, es[j].k);
      }
    } else if es[i].Made? {
      MangledHasHash(es[i].k);
    } else if es[j].Made? {
      MangledHasHash(es[j].k);
    }
  }

  /** Hash-free programs keep all names apart. */
  lemma HashFreeNamesApart(es: seq<Entry>, w: World)
    requires HashFree(es, w) && DistinctMade(es)
    ensures NamesApart(es, w)
  {
    forall i, j | 0 <= i < j < |es| ensures EntryName(es[i]) != EntryName(es[j]) { EntryNamesDiffer(es, w, i, j); }
    forall i | 0 <= i < |es| && Makeable(w.generic, es[i]) ensures CallsAvoid(Original(w.generic, es[i]).body, es) {
      var b := Original(w.generic, es[i]).body;
      forall j | 0 <= j < |b.insts| && b.insts[j].data.Call? ensures NotMangled(b.insts[j].data.name, es) {
        HashFreeIsNotMangled(b.insts[j].data.name, es);
      }
    }
    forall t | w.dropName(t).Some? ensures NotMangled(w.dropName(t).value, es) {
      HashFreeIsNotMangled(w.dropName(t).value, es);
    }
  }
}
