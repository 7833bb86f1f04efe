/** AIR: typed instructions with a side array of 32-bit words, the object that grows them, and an
    interpreter for the part of the instruction set that the specializer and the drop glue meet. */
module Air {
  import opened Bytes
  import opened Types
  import opened Storage
  import P = Patterns

  /** Index of an instruction. */
  type AirRef = nat

  /** Functions are called by name; the interner is injective, so names stand for symbols. */
  type Name = string

  /** Values of comptime parameters; `Opaque` covers the composite and signal variants. */
  datatype ConstValue =
    | Integer(n: P.i64) | Boolean(b: bool) | TypeValue(t: Type) | ComptimeStr(index: nat) | UnitValue
    | Opaque(debug: string)

  /** What a generic call asks for. */
  datatype Key = Key(base: Name, typeArgs: seq<Type>, valueArgs: seq<ConstValue>)

  datatype InstData =
    | Const(bits: nat) | UnitConst | StringConst(id: nat) | BytesConst(id: nat)
    | Param(index: nat)
    | Unary(op: nat, operand: AirRef) | Bin(op: nat, lhs: AirRef, rhs: AirRef)
    | Alloc(slot: nat, init: AirRef) | Load(slot: nat) | Store(slot: nat, value: AirRef)
    | StructInit(structId: nat, fieldsStart: nat, fieldsLen: nat)
    | EnumCreate(enumId: nat, variantIndex: nat, fieldsStart: nat, fieldsLen: nat)
    | FieldGet(base: AirRef, structId: nat, fieldIndex: nat)
    | EnumPayloadGet(base: AirRef, variantIndex: nat, fieldIndex: nat)
    | Block(stmtsStart: nat, stmtsLen: nat, value: AirRef)
    | Branch(cond: AirRef, thenValue: AirRef, elseValue: Option<AirRef>)
    | Loop(cond: AirRef, body: AirRef)
    | Match(scrutinee: AirRef, armsStart: nat, armsLen: nat)
    | Call(name: Name, argsStart: nat, argsLen: nat)
    | CallGeneric(name: Name, typeArgsStart: nat, typeArgsLen: nat, argsStart: nat, argsLen: nat)
    | Drop(value: AirRef)
    | Ret(result: Option<AirRef>) | Break | Continue

  datatype Inst = Inst(data: InstData, ty: Type)

  /** A function body. Parameter `k` is read with `Param(paramSlots[k])`. */
  datatype Body = Body(insts: seq<Inst>, extra: seq<P.u32>, valueArgs: map<AirRef, seq<ConstValue>>,
    paramSlots: seq<nat>)

  datatype Function = Function(name: Name, body: Body)

  /** The functions under their names, later ones first. */
  function Link(fs: seq<Function>): map<Name, Body> {
    if fs == [] then map[] else Link(fs[..|fs| - 1])[fs[|fs| - 1].name := fs[|fs| - 1].body]
  }

  lemma {:induction false} LinkFinds(fs: seq<Function>, i: nat)
    requires i < |fs| && forall j :: i < j < |fs| ==> fs[i].name != fs[j].name
    ensures fs[i].name in Link(fs) && Link(fs)[fs[i].name] == fs[i].body
  {
    if i < |fs| - 1 {
      LinkFinds(fs[..|fs| - 1], i);
    }
  }

  lemma {:induction false} LinkLeads(fs: seq<Function>, name: Name) returns (i: nat)
    requires name in Link(fs)
    ensures i < |fs| && fs[i].name == name
  {
    var n := |fs| - 1;
    if fs[n].name == name {
      i := n;
    } else {
      i := LinkLeads(fs[..n], name);
    }
  }

  lemma LinkKeeps(fs: seq<Function>)
    requires forall i, j :: 0 <= i < j < |fs| ==> fs[i].name != fs[j].name
    ensures forall i :: 0 <= i < |fs| ==> fs[i].name in Link(fs) && Link(fs)[fs[i].name] == fs[i].body
    ensures forall name :: name in Link(fs) ==> exists i :: 0 <= i < |fs| && fs[i].name == name
  {
    forall i | 0 <= i < |fs| ensures fs[i].name in Link(fs) && Link(fs)[fs[i].name] == fs[i].body { LinkFinds(fs, i); }
    forall name | name in Link(fs) ensures exists i :: 0 <= i < |fs| && fs[i].name == name {
      var i := LinkLeads(fs, name);
    }
  }

  function GetExtra(b: Body, start: nat, len: nat): Option<seq<P.u32>> {
    if start + len <= |b.extra| then Some(b.extra[start..start + len]) else None
  }

  // ---- The growing body ----------------------------------------------------------------------------

  class Air {
    var insts: seq<Inst>
    var extra: seq<P.u32>
    var valueArgs: map<AirRef, seq<ConstValue>>

    ghost function Code(): Body
      reads this
    {
      Body(insts, extra, valueArgs, [])
    }

    constructor ()
      ensures Code() == Body([], [], map[], [])
    {
      insts, extra, valueArgs := [], [], map[];
    }

    method AddInst(data: InstData, ty: Type) returns (r: AirRef)
      modifies this`insts
      ensures r == |old(insts)| && insts == old(insts) + [Inst(data, ty)]
    {
      r := |insts|;
      insts := insts + [Inst(data, ty)];
    }

    method AddExtra(data: seq<P.u32>) returns (start: nat)
      modifies this`extra
      ensures start == |old(extra)| && extra == old(extra) + data
    {
      start := |extra|;
      extra := extra + data;
    }

    /** An empty list is not recorded: looking it up gives an empty list anyway. */
    method SetComptimeValueArgs(index: AirRef, vs: seq<ConstValue>)
      modifies this`valueArgs
      ensures valueArgs == if vs == [] then old(valueArgs) else old(valueArgs)[index := vs]
    {
      if vs != [] {
        valueArgs := valueArgs[index := vs];
      }
    }

    method RewriteInstData(index: AirRef, data: InstData)
      requires index < |insts|
      modifies this`insts
      ensures insts == old(insts)[index := Inst(data, old(insts)[index].ty)]
    {
      insts := insts[index := Inst(data, insts[index].ty)];
    }
  }

  // ---- Meaning -----------------------------------------------------------------------------------------

  /** Effects in order: calls to functions without a body here, and dropped vectors. */
  datatype Event = External(name: Name, args: seq<Value>) | VecDrop(value: Value)

  datatype State = State(locals: map<nat, Value>, trace: seq<Event>)

  datatype Outcome =
    | Val(value: Value, st: State)
    | Returned(value: Value, st: State)
    | Broke(st: State)
    | Continued(st: State)
    | Stuck

  datatype ListOutcome = Vals(values: seq<Value>, st: State) | Exits(outcome: Outcome)

  const UNIT_VALUE: Value := Bits(0)

  /** The program around a body: functions by name, specializations by key, the drop function of a
      type, where each element's words start when an array is passed, and any meaning at all for
      operators, literals and outside functions. */
  datatype World = World(
    functions: map<Name, Body>,
    generic: Key -> Option<Body>,
    dropName: Type -> Option<Name>,
    starts: (Type, Value) -> seq<nat>,
    unary: (nat, Value) -> Value,
    binary: (nat, Value, Value) -> Value,
    literal: InstData -> Value,
    outside: (Name, seq<Value>) -> Value)

  /** The type-argument words of the generic call at `i`, decoded; `None` where the source panics. */
  function TypeArgs(words: seq<P.u32>): Option<seq<Type>> {
    if words == [] then Some([])
    else match (TryKind(words[0]), TypeArgs(words[1..]))
      case (Some(t), Some(ts)) => Some([t] + ts)
      case _ => None
  }

  function KeyAt(b: Body, i: AirRef): Option<Key>
    requires i < |b.insts| && b.insts[i].data.CallGeneric?
  {
    var d := b.insts[i].data;
    match GetExtra(b, d.typeArgsStart, d.typeArgsLen)
    case None => None
    case Some(words) =>
      match TypeArgs(words)
      case None => None
      case Some(ts) => Some(Key(d.name, ts, if i in b.valueArgs then b.valueArgs[i] else []))
  }

  /** Every other word of the argument list: an argument is a reference and a mode. */
  function CallArgs(b: Body, start: nat, len: nat): Option<seq<AirRef>> {
    match GetExtra(b, start, 2 * len)
    case None => None
    case Some(words) => Some(seq(len, k requires 0 <= k < len => words[2 * k]))
  }

  /** The instructions evaluated, left to right, before this one; `None` for control flow. */
  function Operands(b: Body, data: InstData): Option<seq<AirRef>> {
    match data
    case Const(_) | UnitConst | StringConst(_) | BytesConst(_) | Param(_) | Load(_) | Break | Continue | Ret(None) =>
      Some([])
    case Unary(_, x) => Some([x])
    case Bin(_, l, r) => Some([l, r])
    case Alloc(_, x) => Some([x])
    case Store(_, x) => Some([x])
    case FieldGet(x, _, _) => Some([x])
    case EnumPayloadGet(x, _, _) => Some([x])
    case Drop(x) => Some([x])
    case Ret(Some(x)) => Some([x])
    case StructInit(_, s, n) => GetExtra(b, s, n)
    case EnumCreate(_, _, s, n) => GetExtra(b, s, n)
    case Block(s, n, v) =>
      (match GetExtra(b, s, n) case None => None case Some(refs) => Some(refs + [v]))
    case Call(_, s, n) => CallArgs(b, s, n)
    case CallGeneric(_, _, _, s, n) => CallArgs(b, s, n)
    case Branch(_, _, _) | Loop(_, _) | Match(_, _, _) => None
  }

  /** Whether a pattern accepts a value; a binding accepts what its inner pattern accepts. */
  predicate Accepts(p: P.AirPattern, v: Value) {
    match p
    case Wildcard => true
    case Int(n) => v == Bits(n % 0x1_0000_0000_0000_0000)
    case Bool(flag) => v == Bits(if flag then 1 else 0)
    case EnumVariant(_, i) => v.Variant? && v.index == i
    case EnumUnitVariant(_, i) => v.Variant? && v.index == i
    case Bind(_, _, None) => true
    case Bind(_, _, Some(inner)) => Accepts(inner, v)
    case Tuple(ps) => v.Aggregate? && |v.elems| == |ps| && forall k :: 0 <= k < |ps| ==> Accepts(ps[k], v.elems[k])
    case EnumDataVariant(_, i, ps) =>
      v.Variant? && v.index == i && |v.payload| == |ps| && forall k :: 0 <= k < |ps| ==> Accepts(ps[k], v.payload[k])
    case Struct(_, fs) =>
      v.Aggregate? && forall k :: 0 <= k < |fs| ==> AcceptsField(fs[k], v.elems)
    case EnumStructVariant(_, i, fs) =>
      v.Variant? && v.index == i && forall k :: 0 <= k < |fs| ==> AcceptsField(fs[k], v.payload)
  }

  predicate AcceptsField(f: P.FieldPattern, vs: seq<Value>) {
    f.index < |vs| && Accepts(f.pattern, vs[f.index])
  }

  /** The arms stored in `words`, as the arm iterator reads them. */
  function DecodeArms(words: seq<P.u32>, n: nat): Option<seq<P.Arm>>
    decreases n
  {
    if n == 0 then Some([])
    else if words == [] then None
    else match P.Decode(words[1..])
      case None => None
      case Some((p, c)) =>
        match DecodeArms(words[1 + c..], n - 1)
        case None => None
        case Some(arms) => Some([P.Arm(p, words[0])] + arms)
  }

  /** The body of the first arm that accepts `v`. */
  function SelectArm(arms: seq<P.Arm>, v: Value): Option<AirRef> {
    if arms == [] then None
    else if Accepts(arms[0].pattern, v) then Some(arms[0].body)
    else SelectArm(arms[1..], v)
  }

  function FindParam(slots: seq<nat>, args: seq<Value>, index: nat): Option<Value>
    decreases slots
  {
    if slots == [] || args == [] then None
    else if slots[0] == index then Some(args[0])
    else FindParam(slots[1..], args[1..], index)
  }

  /** Runs instruction `r`. Operands come before their users, calls and iterations use up fuel. */
  ghost function Eval(w: World, b: Body, args: seq<Value>, r: AirRef, st: State, fuel: nat): Outcome
    decreases fuel, 2 * r + 1, 0
  {
    if r >= |b.insts| then Stuck
    else
      var data := b.insts[r].data;
      match data
      case Branch(c, t, e) =>
        (match EvalAll(w, b, args, [c], r, st, fuel)
         case Exits(o) => o
         case Vals(vs, st) =>
           if !vs[0].Bits? then Stuck
           else if vs[0].bits != 0 then EvalBelow(w, b, args, t, r, st, fuel)
           else if e.None? then Val(UNIT_VALUE, st)
           else EvalBelow(w, b, args, e.value, r, st, fuel))
      case Loop(c, body) =>
        (match EvalAll(w, b, args, [c], r, st, fuel)
         case Exits(o) => o
         case Vals(vs, st) =>
           if vs[0] == Bits(0) then Val(UNIT_VALUE, st)
           else
             match EvalBelow(w, b, args, body, r, st, fuel)
             case Val(_, st) => if fuel == 0 then Stuck else Eval(w, b, args, r, st, fuel - 1)
             case Continued(st) => if fuel == 0 then Stuck else Eval(w, b, args, r, st, fuel - 1)
             case Broke(st) => Val(UNIT_VALUE, st)
             case o => o)
      case Match(x, s, n) =>
        (match EvalAll(w, b, args, [x], r, st, fuel)
         case Exits(o) => o
         case Vals(vs, st) =>
           match ChooseArm(b, s, n, vs[0])
           case None => Stuck
           case Some(arm) => EvalBelow(w, b, args, arm, r, st, fuel))
      case _ =>
        match Operands(b, data)
        case None => Stuck
        case Some(refs) =>
          match EvalAll(w, b, args, refs, r, st, fuel)
          case Exits(o) => o
          case Vals(vs, st) => Finish(w, b, args, r, vs, st, fuel)
  }

  function ChooseArm(b: Body, start: nat, len: nat, v: Value): Option<AirRef> {
    if start > |b.extra| then None
    else match DecodeArms(b.extra[start..], len)
      case None => None
      case Some(arms) => SelectArm(arms, v)
  }

  /** An operand must precede the instruction `limit` that uses it. */
  ghost function EvalBelow(w: World, b: Body, args: seq<Value>, r: AirRef, limit: nat, st: State, fuel: nat): Outcome
    decreases fuel, 2 * limit, 0
  {
    if r < limit then Eval(w, b, args, r, st, fuel) else Stuck
  }

  ghost function EvalAll(w: World, b: Body, args: seq<Value>, refs: seq<AirRef>, limit: nat, st: State,
                         fuel: nat): (o: ListOutcome)
    ensures o.Vals? ==> |o.values| == |refs|
    decreases fuel, 2 * limit, 1 + |refs|
  {
    if refs == [] then Vals([], st)
    else match EvalBelow(w, b, args, refs[0], limit, st, fuel)
      case Val(v, st) =>
        (match EvalAll(w, b, args, refs[1..], limit, st, fuel)
         case Exits(o) => Exits(o)
         case Vals(vs, st) => Vals([v] + vs, st))
      case o => Exits(o)
  }

  /** What instruction `r` does with the values of its operands. */
  ghost function Finish(w: World, b: Body, args: seq<Value>, r: AirRef, vs: seq<Value>, st: State, fuel: nat): Outcome
    requires r < |b.insts| && Operands(b, b.insts[r].data).Some? && |vs| == |Operands(b, b.insts[r].data).value|
    decreases fuel, 2 * r, 3
  {
    match b.insts[r].data
    case Const(n) => Val(Bits(n), st)
    case UnitConst => Val(UNIT_VALUE, st)
    case StringConst(_) => Val(w.literal(b.insts[r].data), st)
    case BytesConst(_) => Val(w.literal(b.insts[r].data), st)
    case Param(i) => (match FindParam(b.paramSlots, args, i) case None => Stuck case Some(v) => Val(v, st))
    case Unary(op, _) => Val(w.unary(op, vs[0]), st)
    case Bin(op, _, _) => Val(w.binary(op, vs[0], vs[1]), st)
    case Alloc(slot, _) => Val(UNIT_VALUE, st.(locals := st.locals[slot := vs[0]]))
    case Store(slot, _) => Val(UNIT_VALUE, st.(locals := st.locals[slot := vs[0]]))
    case Load(slot) => if slot in st.locals then Val(st.locals[slot], st) else Stuck
    case StructInit(_, _, _) => Val(Aggregate(vs), st)
    case EnumCreate(_, i, _, _) => Val(Variant(i, vs), st)
    case FieldGet(_, _, k) =>
      if vs[0].Aggregate? && k < |vs[0].elems| then Val(vs[0].elems[k], st) else Stuck
    case EnumPayloadGet(_, i, k) =>
      if vs[0].Variant? && vs[0].index == i && k < |vs[0].payload| then Val(vs[0].payload[k], st) else Stuck
    case Block(_, _, _) => Val(vs[|vs| - 1], st)
    case Call(name, _, _) => Invoke(w, name, vs, st, fuel)
    case CallGeneric(_, _, _, _, _) =>
      (match KeyAt(b, r)
       case None => Stuck
       case Some(k) => match w.generic(k) case None => Stuck case Some(callee) => Enter(w, callee, vs, st, fuel))
    case Drop(x) => if x < |b.insts| then DropValue(w, b.insts[x].ty, vs[0], st, fuel) else Stuck
    case Ret(None) => Returned(UNIT_VALUE, st)
    case Ret(Some(_)) => Returned(vs[0], st)
    case Break => Broke(st)
    case Continue => Continued(st)
  }

  /** The function numbers its parameters as the words of the elements are. */
  predicate TakesElements(w: World, name: Name, starts: seq<nat>) {
    name in w.functions ==> w.functions[name].paramSlots == starts
  }

  /** A vector is freed in place; any other type goes to its drop function, an array in the words of
      its elements. */
  ghost function DropValue(w: World, t: Type, v: Value, st: State, fuel: nat): Outcome
    decreases fuel, 0, 2
  {
    if t.Vec? then Val(UNIT_VALUE, st.(trace := st.trace + [VecDrop(v)]))
    else match w.dropName(t)
      case None => Val(UNIT_VALUE, st)
      case Some(name) =>
        if !t.Array? then Invoke(w, name, [v], st, fuel)
        else if v.Aggregate? && TakesElements(w, name, w.starts(t, v)) then Invoke(w, name, v.elems, st, fuel)
        else Stuck
  }

  ghost function Invoke(w: World, name: Name, args: seq<Value>, st: State, fuel: nat): Outcome
    decreases fuel, 0, 1
  {
    if name in w.functions then Enter(w, w.functions[name], args, st, fuel)
    else Val(w.outside(name, args), st.(trace := st.trace + [External(name, args)]))
  }

  /** Runs a body from its last instruction, the root, with locals of its own. */
  ghost function Enter(w: World, b: Body, args: seq<Value>, st: State, fuel: nat): Outcome
    decreases fuel, 0, 0
  {
    if fuel == 0 || b.insts == [] then Stuck
    else match Eval(w, b, args, |b.insts| - 1, State(map[], st.trace), fuel - 1)
      case Val(v, st') => Val(v, State(st.locals, st'.trace))
      case Returned(v, st') => Val(v, State(st.locals, st'.trace))
      case _ => Stuck
  }
}
