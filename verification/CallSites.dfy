/** Call sites from the side that emits them: what the analysis writes for a generic call, and that
    the specializer reads exactly that back, in whatever the body has grown into. */
module CallSites {
  import opened Bytes
  import opened Types
  import opened Specialize
  import opened A = Air
  import P = Patterns

  // ---- What a call site holds ----------------------------------------------------------------------

  datatype ArgMode = ByValue | ByMutRef | ByRef

  datatype CallArg = CallArg(value: P.u32, mode: ArgMode)

  function ModeWord(m: ArgMode): P.u32 {
    match m case ByValue => 0 case ByMutRef => 1 case ByRef => 2
  }

  /** `None` stands for the panic on an unknown mode. */
  function ModeOf(word: P.u32): Option<ArgMode> {
    match word case 0 => Some(ByValue) case 1 => Some(ByMutRef) case 2 => Some(ByRef) case _ => None
  }

  function TypeWords(ts: seq<Type>): (words: seq<P.u32>)
    ensures |words| == |ts|
  {
    if ts == [] then [] else [AsU32(ts[0])] + TypeWords(ts[1..])
  }

  function ArgWords(args: seq<CallArg>): (words: seq<P.u32>)
    ensures |words| == 2 * |args|
  {
    if args == [] then [] else [args[0].value, ModeWord(args[0].mode)] + ArgWords(args[1..])
  }

  /** The argument list read pair by pair. */
  function ReadArgs(words: seq<P.u32>): Option<seq<CallArg>> {
    if |words| < 2 then Some([])
    else match (ModeOf(words[1]), ReadArgs(words[2..]))
      case (Some(m), Some(args)) => Some([CallArg(words[0], m)] + args)
      case _ => None
  }

  predicate AllEncodable(ts: seq<Type>) { forall j :: 0 <= j < |ts| ==> Encodable(ts[j]) }

  /** Type arguments come back exactly when all their indices fit. */
  lemma {:induction false} TypeArgsRoundTrip(ts: seq<Type>)
    ensures TypeArgs(TypeWords(ts)) == Some(ts) <==> AllEncodable(ts)
  {
    if ts != [] {
      var words, rest := TypeWords(ts), TypeWords(ts[1..]);
      assert words[0] == AsU32(ts[0]) && words[1..] == rest;
      KindOfEncoding(ts[0]);
      TypeArgsRoundTrip(ts[1..]);
      AllButFirst(ts);
      TypeArgsCons(words, ts);
    }
  }

  lemma AllButFirst(ts: seq<Type>)
    requires ts != []
    ensures AllEncodable(ts) <==> Encodable(ts[0]) && AllEncodable(ts[1..])
  {
    if Encodable(ts[0]) && AllEncodable(ts[1..]) {
      forall j | 0 <= j < |ts| ensures Encodable(ts[j]) {
        assert j > 0 ==> ts[j] == ts[1..][j - 1];
      }
    }
  }

  lemma TypeArgsCons(words: seq<P.u32>, ts: seq<Type>)
    requires words != [] && ts != []
    ensures TypeArgs(words) == Some(ts) <==> TryKind(words[0]) == Some(ts[0]) && TypeArgs(words[1..]) == Some(ts[1..])
  {
    assert ts == [ts[0]] + ts[1..];
    match (TryKind(words[0]), TypeArgs(words[1..]))
    case (Some(t), Some(us)) =>
      assert ([t] + us)[0] == t && ([t] + us)[1..] == us;
    case _ =>
  }

  /** Arguments come back with their modes. */
  lemma {:induction false} ArgsRoundTrip(args: seq<CallArg>)
    ensures ReadArgs(ArgWords(args)) == Some(args)
  {
    if args != [] {
      ArgsRoundTrip(args[1..]);
      assert ArgWords(args)[2..] == ArgWords(args[1..]) && args == [args[0]] + args[1..];
    }
  }

  function Refs(args: seq<CallArg>): (refs: seq<AirRef>)
    ensures |refs| == |args|
  {
    if args == [] then [] else [args[0].value] + Refs(args[1..])
  }

  lemma {:induction false} ArgRef(args: seq<CallArg>, k: nat)
    requires k < |args|
    ensures ArgWords(args)[2 * k] == Refs(args)[k] == args[k].value
  {
    if k > 0 {
      ArgRef(args[1..], k - 1);
    }
  }

  // ---- Emitting ----------------------------------------------------------------------------------------

  /** The words of the type arguments, those of the arguments, the instruction, and, on the side, the
      value arguments if there are any. */
  function EmitGeneric(b: Body, name: Name, ts: seq<Type>, args: seq<CallArg>, vs: seq<ConstValue>, ty: Type): Body {
    Body(b.insts + [Inst(CallGeneric(name, |b.extra|, |ts|, |b.extra| + |ts|, |args|), ty)],
         b.extra + TypeWords(ts) + ArgWords(args),
         if vs == [] then b.valueArgs else b.valueArgs[|b.insts| := vs],
         b.paramSlots)
  }

  method PushTypes(ts: seq<Type>) returns (words: seq<P.u32>)
    ensures words == TypeWords(ts)
  {
    words := [];
    for i := 0 to |ts|
      invariant words == TypeWords(ts[..i])
    {
      TypeWordsSnoc(ts[..i], ts[i]);
      assert ts[..i + 1] == ts[..i] + [ts[i]];
      words := words + [AsU32(ts[i])];
    }
    assert ts[..|ts|] == ts;
  }

  lemma {:induction false} TypeWordsSnoc(ts: seq<Type>, t: Type)
    ensures TypeWords(ts + [t]) == TypeWords(ts) + [AsU32(t)]
  {
    if ts == [] {
      assert ts + [t] == [t];
    } else {
      TypeWordsSnoc(ts[1..], t);
      assert (ts + [t])[1..] == ts[1..] + [t];
    }
  }

  method PushArgs(args: seq<CallArg>) returns (words: seq<P.u32>)
    ensures words == ArgWords(args)
  {
    words := [];
    for i := 0 to |args|
      invariant words == ArgWords(args[..i])
    {
      ArgWordsSnoc(args[..i], args[i]);
      assert args[..i + 1] == args[..i] + [args[i]];
      words := words + [args[i].value] + [ModeWord(args[i].mode)];
    }
    assert args[..|args|] == args;
  }

  lemma {:induction false} ArgWordsSnoc(args: seq<CallArg>, a: CallArg)
    ensures ArgWords(args + [a]) == ArgWords(args) + [a.value] + [ModeWord(a.mode)]
  {
    if args == [] {
      assert args + [a] == [a];
    } else {
      ArgWordsSnoc(args[1..], a);
      assert (args + [a])[1..] == args[1..] + [a];
    }
  }

  method EmitCallGeneric(air: A.Air, name: Name, ts: seq<Type>, args: seq<CallArg>, vs: seq<ConstValue>, ty: Type)
    returns (r: AirRef)
    modifies air
    ensures r == |old(air.insts)|
    ensures air.Code() == EmitGeneric(old(air.Code()), name, ts, args, vs, ty)
  {
    var typeExtra := PushTypes(ts);
    var typeArgsStart := air.AddExtra(typeExtra);
    var argsExtra := PushArgs(args);
    var argsStart := air.AddExtra(argsExtra);
    r := air.AddInst(CallGeneric(name, typeArgsStart, |ts|, argsStart, |args|), ty);
    if vs != [] {
      air.SetComptimeValueArgs(r, vs);
    }
  }

  // ---- Reading back ------------------------------------------------------------------------------------

  /** Value arguments are recorded for instructions that exist. */
  predicate Recorded(b: Body) { forall i :: i in b.valueArgs ==> i < |b.insts| }

  /** `c` is `b` with instructions, words and value arguments for the new instructions added. */
  predicate Extends(b: Body, c: Body) {
    b.insts <= c.insts && b.extra <= c.extra &&
    forall i :: 0 <= i < |b.insts| ==> ValueArgsAt(b, i) == ValueArgsAt(c, i)
  }

  function ValueArgsAt(b: Body, i: AirRef): seq<ConstValue> {
    if i in b.valueArgs then b.valueArgs[i] else []
  }

  lemma WordsStay(c: Body, before: seq<P.u32>, words: seq<P.u32>)
    requires before + words <= c.extra
    ensures GetExtra(c, |before|, |words|) == Some(words)
  {
    assert c.extra[..|before + words|] == before + words;
    assert c.extra[|before|..|before| + |words|] == (before + words)[|before|..];
  }

  lemma EmittedWords(b: Body, name: Name, ts: seq<Type>, args: seq<CallArg>, vs: seq<ConstValue>, ty: Type, c: Body)
    requires EmitGeneric(b, name, ts, args, vs, ty).extra <= c.extra
    ensures GetExtra(c, |b.extra|, |ts|) == Some(TypeWords(ts))
    ensures GetExtra(c, |b.extra| + |ts|, |ArgWords(args)|) == Some(ArgWords(args))
  {
    var before := b.extra + TypeWords(ts);
    assert before <= c.extra;
    WordsStay(c, b.extra, TypeWords(ts));
    WordsStay(c, before, ArgWords(args));
  }

  /** The key read for an emitted call, in any body grown from there, is the callee's name with its
      type and value arguments, exactly when the type arguments can be encoded. */
  lemma KeyOfEmitted(b: Body, name: Name, ts: seq<Type>, args: seq<CallArg>, vs: seq<ConstValue>, ty: Type, c: Body)
    requires Recorded(b) && Extends(EmitGeneric(b, name, ts, args, vs, ty), c)
    ensures IsGeneric(c, |b.insts|)
    ensures KeyAt(c, |b.insts|) == Some(Key(name, ts, vs)) <==> AllEncodable(ts)
  {
    var e, i := EmitGeneric(b, name, ts, args, vs, ty), |b.insts|;
    assert c.insts[i] == e.insts[i];
    EmittedWords(b, name, ts, args, vs, ty, c);
    TypeArgsRoundTrip(ts);
    assert ValueArgsAt(c, i) == ValueArgsAt(e, i) == vs;
  }

  /** Words stored for arguments are read as their references in order. */
  lemma StoredArgs(c: Body, start: nat, args: seq<CallArg>)
    requires GetExtra(c, start, |ArgWords(args)|) == Some(ArgWords(args))
    ensures CallArgs(c, start, |args|) == Some(Refs(args))
  {
    var read := CallArgs(c, start, |args|).value;
    forall k | 0 <= k < |args| ensures read[k] == Refs(args)[k] {
      ArgRef(args, k);
    }
    assert read == Refs(args);
  }

  /** The words found for its arguments are those that were stored for them. */
  lemma ArgsOfEmitted(b: Body, name: Name, ts: seq<Type>, args: seq<CallArg>, vs: seq<ConstValue>, ty: Type, c: Body)
    requires Extends(EmitGeneric(b, name, ts, args, vs, ty), c)
    ensures IsGeneric(c, |b.insts|) && c.insts[|b.insts|].data.argsLen == |args|
    ensures GetExtra(c, c.insts[|b.insts|].data.argsStart, |ArgWords(args)|) == Some(ArgWords(args))
  {
    assert c.insts[|b.insts|] == EmitGeneric(b, name, ts, args, vs, ty).insts[|b.insts|];
    EmittedWords(b, name, ts, args, vs, ty, c);
  }

  /** The interpreter evaluates them in order. */
  lemma RefsOfEmitted(b: Body, name: Name, ts: seq<Type>, args: seq<CallArg>, vs: seq<ConstValue>, ty: Type, c: Body)
    requires Extends(EmitGeneric(b, name, ts, args, vs, ty), c)
    ensures IsGeneric(c, |b.insts|)
    ensures var d := c.insts[|b.insts|].data; CallArgs(c, d.argsStart, d.argsLen) == Some(Refs(args))
  {
    ArgsOfEmitted(b, name, ts, args, vs, ty, c);
    StoredArgs(c, c.insts[|b.insts|].data.argsStart, args);
  }

  // ---- Whole bodies ------------------------------------------------------------------------------------

  /** One instruction of a body under construction, with the words it needs. */
  datatype Emission =
    | Plain(data: InstData, words: seq<P.u32>, ty: Type)
    | Generic(name: Name, ts: seq<Type>, args: seq<CallArg>, vs: seq<ConstValue>, ty: Type)

  predicate Sound(es: seq<Emission>) {
    forall i :: 0 <= i < |es| ==>
      if es[i].Plain? then !es[i].data.CallGeneric? else AllEncodable(es[i].ts)
  }

  function Emit(b: Body, e: Emission): Body {
    match e
    case Plain(data, words, ty) => b.(insts := b.insts + [Inst(data, ty)], extra := b.extra + words)
    case Generic(name, ts, args, vs, ty) => EmitGeneric(b, name, ts, args, vs, ty)
  }

  function Build(es: seq<Emission>): Body {
    if es == [] then Body([], [], map[], []) else Emit(Build(es[..|es| - 1]), es[|es| - 1])
  }

  lemma EmitExtends(b: Body, e: Emission)
    requires Recorded(b)
    ensures Recorded(Emit(b, e)) && Extends(b, Emit(b, e)) && |Emit(b, e).insts| == |b.insts| + 1
  {}

  lemma ExtendsChain(b: Body, c: Body, d: Body)
    requires Extends(b, c) && Extends(c, d)
    ensures Extends(b, d)
  {}

  lemma {:induction false} BuildExtends(es: seq<Emission>, n: nat)
    requires n <= |es|
    ensures Recorded(Build(es)) && |Build(es).insts| == |es| && Extends(Build(es[..n]), Build(es))
  {
    if es != [] {
      var init := es[..|es| - 1];
      BuildExtends(init, if n < |es| then n else 0);
      EmitExtends(Build(init), es[|es| - 1]);
      if n < |es| {
        assert init[..n] == es[..n];
        ExtendsChain(Build(es[..n]), Build(init), Build(es));
      }
    }
    assert n == |es| ==> es[..n] == es;
  }

  ghost predicate Calls(es: seq<Emission>, i: nat, k: Key) {
    i < |es| && es[i].Generic? && k == Key(es[i].name, es[i].ts, es[i].vs)
  }

  /** Every generic call of a finished body has the key it was emitted with, and nothing else has one. */
  lemma KeysExact(es: seq<Emission>, i: nat)
    requires Sound(es) && i < |es|
    ensures |Build(es).insts| == |es|
    ensures IsGeneric(Build(es), i) <==> es[i].Generic?
    ensures es[i].Generic? ==> KeyAt(Build(es), i) == Some(Key(es[i].name, es[i].ts, es[i].vs))
  {
    var before := es[..i];
    BuildExtends(before, 0);
    BuildExtends(es, i + 1);
    assert es[..i + 1][..i] == before;
    var b, e, c := Build(before), es[i], Build(es);
    assert Build(es[..i + 1]) == Emit(b, e);
    assert c.insts[i] == Emit(b, e).insts[i];
    if e.Generic? {
      KeyOfEmitted(b, e.name, e.ts, e.args, e.vs, e.ty, c);
    }
  }

  /** Two call sites share a specialization exactly when they name the same function with the same
      type arguments and the same value arguments. */
  lemma SharedExactly(es: seq<Emission>, i: nat, j: nat)
    requires Sound(es) && i < |es| && j < |es| && es[i].Generic? && es[j].Generic?
    ensures IsGeneric(Build(es), i) && IsGeneric(Build(es), j)
    ensures KeyAt(Build(es), i) == KeyAt(Build(es), j) <==>
            es[i].name == es[j].name && es[i].ts == es[j].ts && es[i].vs == es[j].vs
  {
    KeysExact(es, i);
    KeysExact(es, j);
  }

  /** A finished body can be read, and asks for exactly the specializations it was built to call. */
  lemma AsksExactly(es: seq<Emission>, k: Key)
    requires Sound(es)
    ensures Readable(Build(es))
    ensures AsksFor(Build(es), k) <==> exists i :: Calls(es, i, k)
  {
    var c := Build(es);
    BuildExtends(es, 0);
    forall i | 0 <= i < |c.insts|
      ensures IsGeneric(c, i) ==> KeyAt(c, i).Some?
      ensures IsGeneric(c, i) && KeyAt(c, i) == Some(k) <==> Calls(es, i, k)
    {
      KeysExact(es, i);
    }
  }
}
