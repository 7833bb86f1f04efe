/** Parsed files with names of any kind: symbols of an interner, or the strings themselves. */
module Ast {
  import opened Bytes

  type u64 = n: int | 0 <= n < 0x1_0000_0000_0000_0000

  /** A list whose length fits the 64-bit count written before it. */
  type Vec<T> = s: seq<T> | |s| < 0x1_0000_0000_0000_0000

  type Str = Vec<byte>

  datatype ParamMode = Normal | Comptime

  datatype SelfKind = ByValue | MutRef | Ref

  datatype TypeExpr<N> =
    | Named(name: N) | Unit | Never
    | Array(element: TypeExpr<N>, length: u64)
    | AnonStruct(fields: Vec<Field<N>>, methods: Vec<Method<N>>)
    | AnonEnum(variants: Vec<Variant<N>>, methods: Vec<Method<N>>)
    | AnonInterface(sigs: Vec<MethodSig<N>>)
    | TypeCall(callee: N, args: Vec<TypeExpr<N>>)
    | Tuple(elems: Vec<TypeExpr<N>>)

  datatype Param<N> = Param(isComptime: bool, mode: ParamMode, name: N, ty: TypeExpr<N>)

  /** A field of a struct, of an anonymous struct or of a struct-like variant. */
  datatype Field<N> = Field(isPub: bool, name: N, ty: TypeExpr<N>)

  datatype Variant<N> = Variant(name: N, kind: VariantKind<N>)

  datatype VariantKind<N> = UnitKind | TupleKind(types: Vec<TypeExpr<N>>) | StructKind(fields: Vec<Field<N>>)

  datatype MethodSig<N> = MethodSig(
    isUnchecked: bool, name: N, receiver: SelfKind, params: Vec<Param<N>>, returnType: Option<TypeExpr<N>>)

  datatype Method<N> = Method(
    isPub: bool, isUnchecked: bool, name: N, receiver: Option<SelfKind>, params: Vec<Param<N>>,
    returnType: Option<TypeExpr<N>>, body: Expr<N>)

  datatype Expr<N> =
    | Literal(bits: nat) | StringLit(text: N) | Ident(name: N)
    | Binary(op: nat, lhs: Expr<N>, rhs: Expr<N>)
    | Block(stmts: seq<Statement<N>>, value: Expr<N>)
    | Match(scrutinee: Expr<N>, arms: seq<MatchArm<N>>)
    | Call(name: N, args: seq<Expr<N>>)
    | TypeLit(ty: TypeExpr<N>)
    | AnonFn(params: Vec<Param<N>>, returnType: Option<TypeExpr<N>>, body: Expr<N>)

  datatype Statement<N> =
    | Let(pattern: Pattern<N>, ty: Option<TypeExpr<N>>, init: Expr<N>)
    | Assign(target: N, value: Expr<N>)
    | Effect(expr: Expr<N>)

  datatype MatchArm<N> = MatchArm(pattern: Pattern<N>, body: Expr<N>)

  datatype Pattern<N> =
    | Wildcard | Binding(name: N) | Number(value: int)
    | Data(typeName: N, variant: N, elems: seq<Pattern<N>>)
    | Fields(typeName: N, members: seq<FieldPattern<N>>)
    | TuplePattern(elems: seq<Pattern<N>>)

  datatype FieldPattern<N> = FieldPattern(name: N, sub: Option<Pattern<N>>)

  datatype Item<N> =
    | Function(isPub: bool, isUnchecked: bool, name: N, params: Vec<Param<N>>, returnType: Option<TypeExpr<N>>,
      body: Expr<N>)
    | Struct(isPub: bool, name: N, fields: Vec<Field<N>>, methods: Vec<Method<N>>)
    | Enum(isPub: bool, name: N, variants: Vec<Variant<N>>, methods: Vec<Method<N>>)
    | Interface(name: N, sigs: Vec<MethodSig<N>>)
    | Derive(name: N, methods: Vec<Method<N>>)
    | Const(isPub: bool, name: N, ty: Option<TypeExpr<N>>, init: Expr<N>)
    | LinkExtern(library: N, externs: Vec<ExternFn<N>>)
    | ErrorItem

  /** A C function declared in an extern block. */
  datatype ExternFn<N> = ExternFn(name: N, params: Vec<Param<N>>, returnType: Option<TypeExpr<N>>)

  // ---- Substituting every name ------------------------------------------------------------------------

  function MapType<N, M>(f: N -> M, t: TypeExpr<N>): TypeExpr<M> {
    match t
    case Named(n) => Named(f(n))
    case Unit => Unit
    case Never => Never
    case Array(e, len) => Array(MapType(f, e), len)
    case AnonStruct(fs, ms) => AnonStruct(MapFields(f, fs), MapMethods(f, ms))
    case AnonEnum(vs, ms) => AnonEnum(MapVariants(f, vs), MapMethods(f, ms))
    case AnonInterface(ms) => AnonInterface(MapSigs(f, ms))
    case TypeCall(n, args) => TypeCall(f(n), MapTypes(f, args))
    case Tuple(ts) => Tuple(MapTypes(f, ts))
  }

  function MapTypes<N, M>(f: N -> M, ts: seq<TypeExpr<N>>): (r: seq<TypeExpr<M>>)
    ensures |r| == |ts|
  {
    if ts == [] then [] else [MapType(f, ts[0])] + MapTypes(f, ts[1..])
  }

  function MapOption<N, M>(f: N -> M, t: Option<TypeExpr<N>>): Option<TypeExpr<M>> {
    match t case None => None case Some(t) => Some(MapType(f, t))
  }

  function MapParam<N, M>(f: N -> M, p: Param<N>): Param<M> {
    Param(p.isComptime, p.mode, f(p.name), MapType(f, p.ty))
  }

  function MapParams<N, M>(f: N -> M, ps: seq<Param<N>>): (r: seq<Param<M>>)
    ensures |r| == |ps|
  {
    if ps == [] then [] else [MapParam(f, ps[0])] + MapParams(f, ps[1..])
  }

  function MapField<N, M>(f: N -> M, x: Field<N>): Field<M> {
    Field(x.isPub, f(x.name), MapType(f, x.ty))
  }

  function MapFields<N, M>(f: N -> M, xs: seq<Field<N>>): (r: seq<Field<M>>)
    ensures |r| == |xs|
  {
    if xs == [] then [] else [MapField(f, xs[0])] + MapFields(f, xs[1..])
  }

  function MapVariant<N, M>(f: N -> M, v: Variant<N>): Variant<M> {
    Variant(f(v.name), MapKind(f, v.kind))
  }

  function MapKind<N, M>(f: N -> M, k: VariantKind<N>): VariantKind<M> {
    match k
    case UnitKind => UnitKind
    case TupleKind(ts) => TupleKind(MapTypes(f, ts))
    case StructKind(xs) => StructKind(MapFields(f, xs))
  }

  function MapVariants<N, M>(f: N -> M, vs: seq<Variant<N>>): (r: seq<Variant<M>>)
    ensures |r| == |vs|
  {
    if vs == [] then [] else [MapVariant(f, vs[0])] + MapVariants(f, vs[1..])
  }

  function MapSig<N, M>(f: N -> M, m: MethodSig<N>): MethodSig<M> {
    MethodSig(m.isUnchecked, f(m.name), m.receiver, MapParams(f, m.params), MapOption(f, m.returnType))
  }

  function MapSigs<N, M>(f: N -> M, ms: seq<MethodSig<N>>): (r: seq<MethodSig<M>>)
    ensures |r| == |ms|
  {
    if ms == [] then [] else [MapSig(f, ms[0])] + MapSigs(f, ms[1..])
  }

  function MapMethod<N, M>(f: N -> M, m: Method<N>): Method<M> {
    Method(m.isPub, m.isUnchecked, f(m.name), m.receiver, MapParams(f, m.params), MapOption(f, m.returnType),
      MapExpr(f, m.body))
  }

  function MapMethods<N, M>(f: N -> M, ms: seq<Method<N>>): (r: seq<Method<M>>)
    ensures |r| == |ms|
  {
    if ms == [] then [] else [MapMethod(f, ms[0])] + MapMethods(f, ms[1..])
  }

  function MapExpr<N, M>(f: N -> M, e: Expr<N>): Expr<M> {
    match e
    case Literal(n) => Literal(n)
    case StringLit(n) => StringLit(f(n))
    case Ident(n) => Ident(f(n))
    case Binary(op, l, r) => Binary(op, MapExpr(f, l), MapExpr(f, r))
    case Block(ss, v) => Block(MapStatements(f, ss), MapExpr(f, v))
    case Match(x, arms) => Match(MapExpr(f, x), MapArms(f, arms))
    case Call(n, args) => Call(f(n), MapExprs(f, args))
    case TypeLit(t) => TypeLit(MapType(f, t))
    case AnonFn(ps, t, body) => AnonFn(MapParams(f, ps), MapOption(f, t), MapExpr(f, body))
  }

  function MapExprs<N, M>(f: N -> M, es: seq<Expr<N>>): seq<Expr<M>> {
    if es == [] then [] else [MapExpr(f, es[0])] + MapExprs(f, es[1..])
  }

  function MapStatement<N, M>(f: N -> M, s: Statement<N>): Statement<M> {
    match s
    case Let(p, t, e) => Let(MapPattern(f, p), MapOption(f, t), MapExpr(f, e))
    case Assign(n, e) => Assign(f(n), MapExpr(f, e))
    case Effect(e) => Effect(MapExpr(f, e))
  }

  function MapStatements<N, M>(f: N -> M, ss: seq<Statement<N>>): seq<Statement<M>> {
    if ss == [] then [] else [MapStatement(f, ss[0])] + MapStatements(f, ss[1..])
  }

  function MapArm<N, M>(f: N -> M, a: MatchArm<N>): MatchArm<M> { MatchArm(MapPattern(f, a.pattern), MapExpr(f,
                        a.body)) }

  function MapArms<N, M>(f: N -> M, xs: seq<MatchArm<N>>): seq<MatchArm<M>> {
    if xs == [] then [] else [MapArm(f, xs[0])] + MapArms(f, xs[1..])
  }

  function MapPattern<N, M>(f: N -> M, p: Pattern<N>): Pattern<M> {
    match p
    case Wildcard => Wildcard
    case Binding(n) => Binding(f(n))
    case Number(n) => Number(n)
    case Data(t, v, ps) => Data(f(t), f(v), MapPatterns(f, ps))
    case Fields(t, xs) => Fields(f(t), MapFieldPatterns(f, xs))
    case TuplePattern(ps) => TuplePattern(MapPatterns(f, ps))
  }

  function MapPatterns<N, M>(f: N -> M, ps: seq<Pattern<N>>): seq<Pattern<M>> {
    if ps == [] then [] else [MapPattern(f, ps[0])] + MapPatterns(f, ps[1..])
  }

  function MapFieldPattern<N, M>(f: N -> M, x: FieldPattern<N>): FieldPattern<M> {
    FieldPattern(f(x.name), match x.sub case None => None case Some(p) => Some(MapPattern(f, p)))
  }

  function MapFieldPatterns<N, M>(f: N -> M, xs: seq<FieldPattern<N>>): seq<FieldPattern<M>> {
    if xs == [] then [] else [MapFieldPattern(f, xs[0])] + MapFieldPatterns(f, xs[1..])
  }

  function MapExtern<N, M>(f: N -> M, x: ExternFn<N>): ExternFn<M> {
    ExternFn(f(x.name), MapParams(f, x.params), MapOption(f, x.returnType))
  }

  function MapExterns<N, M>(f: N -> M, xs: seq<ExternFn<N>>): (r: seq<ExternFn<M>>)
    ensures |r| == |xs|
  {
    if xs == [] then [] else [MapExtern(f, xs[0])] + MapExterns(f, xs[1..])
  }

  function MapItem<N, M>(f: N -> M, x: Item<N>): Item<M> {
    match x
    case Function(p, u, n, ps, t, e) => Function(p, u, f(n), MapParams(f, ps), MapOption(f, t), MapExpr(f, e))
    case Struct(p, n, fs, ms) => Struct(p, f(n), MapFields(f, fs), MapMethods(f, ms))
    case Enum(p, n, vs, ms) => Enum(p, f(n), MapVariants(f, vs), MapMethods(f, ms))
    case Interface(n, ms) => Interface(f(n), MapSigs(f, ms))
    case Derive(n, ms) => Derive(f(n), MapMethods(f, ms))
    case Const(p, n, t, e) => Const(p, f(n), MapOption(f, t), MapExpr(f, e))
    case LinkExtern(n, xs) => LinkExtern(f(n), MapExterns(f, xs))
    case ErrorItem => ErrorItem
  }

  function MapItems<N, M>(f: N -> M, xs: seq<Item<N>>): (r: seq<Item<M>>)
    ensures |r| == |xs| && forall i :: 0 <= i < |xs| ==> r[i] == MapItem(f, xs[i])
  {
    seq(|xs|, i requires 0 <= i < |xs| => MapItem(f, xs[i]))
  }

  // ---- Substituting twice -------------------------------------------------------------------------------

  /** `h` is `f` followed by `g`. */
  ghost predicate Composes<N(!new), M, P>(f: N -> M, g: M -> P, h: N -> P) {
    forall n {:trigger h(n)} {:trigger f(n)} :: g(f(n)) == h(n)
  }

  lemma {:induction false} ComposeType<N(!new), M, P>(f: N -> M, g: M -> P, h: N -> P, t: TypeExpr<N>)
    requires Composes(f, g, h)
    ensures MapType(g, MapType(f, t)) == MapType(h, t)
  {
    match t
    case Named(n) => assert g(f(n)) == h(n);
    case Unit =>
    case Never =>
    case Array(e, _) => ComposeType(f, g, h, e);
    case AnonStruct(fs, ms) => ComposeFields(f, g, h, fs); ComposeMethods(f, g, h, ms);
    case AnonEnum(vs, ms) => ComposeVariants(f, g, h, vs); ComposeMethods(f, g, h, ms);
    case AnonInterface(ms) => ComposeSigs(f, g, h, ms);
    case TypeCall(n, args) => assert g(f(n)) == h(n); ComposeTypes(f, g, h, args);
    case Tuple(ts) => ComposeTypes(f, g, h, ts);
  }

  lemma {:induction false} ComposeTypes<N(!new), M, P>(f: N -> M, g: M -> P, h: N -> P, ts: seq<TypeExpr<N>>)
    requires Composes(f, g, h)
    ensures MapTypes(g, MapTypes(f, ts)) == MapTypes(h, ts)
  {
    if ts != [] {
      ComposeType(f, g, h, ts[0]);
      ComposeTypes(f, g, h, ts[1..]);
      assert MapTypes(f, ts)[1..] == MapTypes(f, ts[1..]);
    }
  }

  lemma {:induction false} ComposeOption<N(!new), M, P>(f: N -> M, g: M -> P, h: N -> P, t: Option<TypeExpr<N>>)
    requires Composes(f, g, h)
    ensures MapOption(g, MapOption(f, t)) == MapOption(h, t)
  {
    if t.Some? {
      ComposeType(f, g, h, t.value);
    }
  }

  lemma {:induction false} ComposeParams<N(!new), M, P>(f: N -> M, g: M -> P, h: N -> P, ps: seq<Param<N>>)
    requires Composes(f, g, h)
    ensures MapParams(g, MapParams(f, ps)) == MapParams(h, ps)
  {
    if ps != [] {
      ComposeParam(f, g, h, ps[0]);
      ComposeParams(f, g, h, ps[1..]);
      assert MapParams(f, ps)[1..] == MapParams(f, ps[1..]);
    }
  }

  lemma {:induction false} ComposeParam<N(!new), M, P>(f: N -> M, g: M -> P, h: N -> P, p: Param<N>)
    requires Composes(f, g, h)
    ensures MapParam(g, MapParam(f, p)) == MapParam(h, p)
  {
    assert g(f(p.name)) == h(p.name);
    ComposeType(f, g, h, p.ty);
  }

  lemma {:induction false} ComposeField<N(!new), M, P>(f: N -> M, g: M -> P, h: N -> P, x: Field<N>)
    requires Composes(f, g, h)
    ensures MapField(g, MapField(f, x)) == MapField(h, x)
  {
    assert g(f(x.name)) == h(x.name);
    ComposeType(f, g, h, x.ty);
  }

  lemma {:induction false} ComposeFields<N(!new), M, P>(f: N -> M, g: M -> P, h: N -> P, xs: seq<Field<N>>)
    requires Composes(f, g, h)
    ensures MapFields(g, MapFields(f, xs)) == MapFields(h, xs)
  {
    if xs != [] {
      ComposeField(f, g, h, xs[0]);
      ComposeFields(f, g, h, xs[1..]);
      assert MapFields(f, xs)[1..] == MapFields(f, xs[1..]);
    }
  }

  lemma {:induction false} ComposeVariant<N(!new), M, P>(f: N -> M, g: M -> P, h: N -> P, v: Variant<N>)
    requires Composes(f, g, h)
    ensures MapVariant(g, MapVariant(f, v)) == MapVariant(h, v)
  {
    assert g(f(v.name)) == h(v.name);
    if v.kind.TupleKind? {
      ComposeTypes(f, g, h, v.kind.types);
    } else if v.kind.StructKind? {
      ComposeFields(f, g, h, v.kind.fields);
    }
  }

  lemma {:induction false} ComposeVariants<N(!new), M, P>(f: N -> M, g: M -> P, h: N -> P, vs: seq<Variant<N>>)
    requires Composes(f, g, h)
    ensures MapVariants(g, MapVariants(f, vs)) == MapVariants(h, vs)
  {
    if vs != [] {
      ComposeVariant(f, g, h, vs[0]);
      ComposeVariants(f, g, h, vs[1..]);
      assert MapVariants(f, vs)[1..] == MapVariants(f, vs[1..]);
    }
  }

  lemma {:induction false} ComposeSig<N(!new), M, P>(f: N -> M, g: M -> P, h: N -> P, m: MethodSig<N>)
    requires Composes(f, g, h)
    ensures MapSig(g, MapSig(f, m)) == MapSig(h, m)
  {
    assert g(f(m.name)) == h(m.name);
    ComposeParams(f, g, h, m.params);
    ComposeOption(f, g, h, m.returnType);
  }

  lemma {:induction false} ComposeSigs<N(!new), M, P>(f: N -> M, g: M -> P, h: N -> P, ms: seq<MethodSig<N>>)
    requires Composes(f, g, h)
    ensures MapSigs(g, MapSigs(f, ms)) == MapSigs(h, ms)
  {
    if ms != [] {
      ComposeSig(f, g, h, ms[0]);
      ComposeSigs(f, g, h, ms[1..]);
      assert MapSigs(f, ms)[1..] == MapSigs(f, ms[1..]);
    }
  }

  lemma {:induction false} ComposeMethod<N(!new), M, P>(f: N -> M, g: M -> P, h: N -> P, m: Method<N>)
    requires Composes(f, g, h)
    ensures MapMethod(g, MapMethod(f, m)) == MapMethod(h, m)
  {
    assert g(f(m.name)) == h(m.name);
    ComposeParams(f, g, h, m.params);
    ComposeOption(f, g, h, m.returnType);
    ComposeExpr(f, g, h, m.body);
  }

  lemma {:induction false} ComposeMethods<N(!new), M, P>(f: N -> M, g: M -> P, h: N -> P, ms: seq<Method<N>>)
    requires Composes(f, g, h)
    ensures MapMethods(g, MapMethods(f, ms)) == MapMethods(h, ms)
  {
    if ms != [] {
      ComposeMethod(f, g, h, ms[0]);
      ComposeMethods(f, g, h, ms[1..]);
      assert MapMethods(f, ms)[1..] == MapMethods(f, ms[1..]);
    }
  }

  lemma {:induction false} ComposeExpr<N(!new), M, P>(f: N -> M, g: M -> P, h: N -> P, e: Expr<N>)
    requires Composes(f, g, h)
    ensures MapExpr(g, MapExpr(f, e)) == MapExpr(h, e)
  {
    match e
    case Literal(_) =>
    case StringLit(n) => assert g(f(n)) == h(n);
    case Ident(n) => assert g(f(n)) == h(n);
    case Binary(_, l, r) => ComposeExpr(f, g, h, l); ComposeExpr(f, g, h, r);
    case Block(ss, v) => ComposeStatements(f, g, h, ss); ComposeExpr(f, g, h, v);
    case Match(x, arms) => ComposeExpr(f, g, h, x); ComposeArms(f, g, h, arms);
    case Call(n, args) => assert g(f(n)) == h(n); ComposeExprs(f, g, h, args);
    case TypeLit(t) => ComposeType(f, g, h, t);
    case AnonFn(ps, t, body) => ComposeParams(f, g, h, ps); ComposeOption(f, g, h, t); ComposeExpr(f, g, h, body);
  }

  lemma {:induction false} ComposeExprs<N(!new), M, P>(f: N -> M, g: M -> P, h: N -> P, es: seq<Expr<N>>)
    requires Composes(f, g, h)
    ensures MapExprs(g, MapExprs(f, es)) == MapExprs(h, es)
  {
    if es != [] {
      ComposeExpr(f, g, h, es[0]);
      ComposeExprs(f, g, h, es[1..]);
      assert MapExprs(f, es)[1..] == MapExprs(f, es[1..]);
    }
  }

  lemma {:induction false} ComposeStatement<N(!new), M, P>(f: N -> M, g: M -> P, h: N -> P, s: Statement<N>)
    requires Composes(f, g, h)
    ensures MapStatement(g, MapStatement(f, s)) == MapStatement(h, s)
  {
    match s
    case Let(p, t, e) => ComposePattern(f, g, h, p); ComposeOption(f, g, h, t); ComposeExpr(f, g, h, e);
    case Assign(n, e) => assert g(f(n)) == h(n); ComposeExpr(f, g, h, e);
    case Effect(e) => ComposeExpr(f, g, h, e);
  }

  lemma {:induction false} ComposeStatements<N(!new), M, P>(f: N -> M, g: M -> P, h: N -> P, ss: seq<Statement<N>>)
    requires Composes(f, g, h)
    ensures MapStatements(g, MapStatements(f, ss)) == MapStatements(h, ss)
  {
    if ss != [] {
      ComposeStatement(f, g, h, ss[0]);
      ComposeStatements(f, g, h, ss[1..]);
      assert MapStatements(f, ss)[1..] == MapStatements(f, ss[1..]);
    }
  }

  lemma {:induction false} ComposeArm<N(!new), M, P>(f: N -> M, g: M -> P, h: N -> P, a: MatchArm<N>)
    requires Composes(f, g, h)
    ensures MapArm(g, MapArm(f, a)) == MapArm(h, a)
  {
    ComposePattern(f, g, h, a.pattern);
    ComposeExpr(f, g, h, a.body);
  }

  lemma {:induction false} ComposeArms<N(!new), M, P>(f: N -> M, g: M -> P, h: N -> P, xs: seq<MatchArm<N>>)
    requires Composes(f, g, h)
    ensures MapArms(g, MapArms(f, xs)) == MapArms(h, xs)
  {
    if xs != [] {
      ComposeArm(f, g, h, xs[0]);
      ComposeArms(f, g, h, xs[1..]);
      assert MapArms(f, xs)[1..] == MapArms(f, xs[1..]);
    }
  }

  lemma {:induction false} ComposePattern<N(!new), M, P>(f: N -> M, g: M -> P, h: N -> P, p: Pattern<N>)
    requires Composes(f, g, h)
    ensures MapPattern(g, MapPattern(f, p)) == MapPattern(h, p)
  {
    match p
    case Wildcard =>
    case Binding(n) => assert g(f(n)) == h(n);
    case Number(_) =>
    case Data(t, v, ps) => assert g(f(t)) == h(t) && g(f(v)) == h(v); ComposePatterns(f, g, h, ps);
    case Fields(t, xs) => assert g(f(t)) == h(t); ComposeFieldPatterns(f, g, h, xs);
    case TuplePattern(ps) => ComposePatterns(f, g, h, ps);
  }

  lemma {:induction false} ComposePatterns<N(!new), M, P>(f: N -> M, g: M -> P, h: N -> P, ps: seq<Pattern<N>>)
    requires Composes(f, g, h)
    ensures MapPatterns(g, MapPatterns(f, ps)) == MapPatterns(h, ps)
  {
    if ps != [] {
      ComposePattern(f, g, h, ps[0]);
      ComposePatterns(f, g, h, ps[1..]);
      assert MapPatterns(f, ps)[1..] == MapPatterns(f, ps[1..]);
    }
  }

  lemma {:induction false} ComposeFieldPattern<N(!new), M, P>(f: N -> M, g: M -> P, h: N -> P, x: FieldPattern<N>)
    requires Composes(f, g, h)
    ensures MapFieldPattern(g, MapFieldPattern(f, x)) == MapFieldPattern(h, x)
  {
    assert g(f(x.name)) == h(x.name);
    if x.sub.Some? {
      ComposePattern(f, g, h, x.sub.value);
    }
  }

  lemma {:induction false} ComposeFieldPatterns<N(!new), M, P>(f: N -> M, g: M -> P, h: N -> P,
      xs: seq<FieldPattern<N>>)
    requires Composes(f, g, h)
    ensures MapFieldPatterns(g, MapFieldPatterns(f, xs)) == MapFieldPatterns(h, xs)
  {
    if xs != [] {
      ComposeFieldPattern(f, g, h, xs[0]);
      ComposeFieldPatterns(f, g, h, xs[1..]);
      assert MapFieldPatterns(f, xs)[1..] == MapFieldPatterns(f, xs[1..]);
    }
  }

  lemma {:induction false} ComposeExterns<N(!new), M, P>(f: N -> M, g: M -> P, h: N -> P, xs: seq<ExternFn<N>>)
    requires Composes(f, g, h)
    ensures MapExterns(g, MapExterns(f, xs)) == MapExterns(h, xs)
  {
    if xs != [] {
      assert g(f(xs[0].name)) == h(xs[0].name);
      ComposeParams(f, g, h, xs[0].params);
      ComposeOption(f, g, h, xs[0].returnType);
      ComposeExterns(f, g, h, xs[1..]);
      assert MapExterns(f, xs)[1..] == MapExterns(f, xs[1..]);
    }
  }

  lemma {:induction false} ComposeItem<N(!new), M, P>(f: N -> M, g: M -> P, h: N -> P, x: Item<N>)
    requires Composes(f, g, h)
    ensures MapItem(g, MapItem(f, x)) == MapItem(h, x)
  {
    match x
    case Function(_, _, n, ps, t, e) =>
      assert g(f(n)) == h(n);
      ComposeParams(f, g, h, ps); ComposeOption(f, g, h, t); ComposeExpr(f, g, h, e);
    case Struct(_, n, fs, ms) => assert g(f(n)) == h(n); ComposeFields(f, g, h, fs); ComposeMethods(f, g, h, ms);
    case Enum(_, n, vs, ms) => assert g(f(n)) == h(n); ComposeVariants(f, g, h, vs); ComposeMethods(f, g, h, ms);
    case Interface(n, ms) => assert g(f(n)) == h(n); ComposeSigs(f, g, h, ms);
    case Derive(n, ms) => assert g(f(n)) == h(n); ComposeMethods(f, g, h, ms);
    case Const(_, n, t, e) => assert g(f(n)) == h(n); ComposeOption(f, g, h, t); ComposeExpr(f, g, h, e);
    case LinkExtern(n, xs) => assert g(f(n)) == h(n); ComposeExterns(f, g, h, xs);
    case ErrorItem =>
  }

  /** Substituting names twice is substituting once: what remapping symbols and then resolving them
      gives is what resolving them gave before. */
  lemma {:induction false} ComposeItems<N(!new), M, P>(f: N -> M, g: M -> P, h: N -> P, xs: seq<Item<N>>)
    requires Composes(f, g, h)
    ensures MapItems(g, MapItems(f, xs)) == MapItems(h, xs)
  {
    forall i | 0 <= i < |xs| ensures MapItem(g, MapItem(f, xs[i])) == MapItem(h, xs[i]) {
      ComposeItem(f, g, h, xs[i]);
    }
  }
}
