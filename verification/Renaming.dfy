/** Substituting names loses nothing else: the identity changes no tree, so a substitution that can be
    undone on names can be undone on whole files, bodies and patterns included. */
module Renaming {
  import opened Bytes
  import opened Ast

  ghost predicate IsIdentity<N(!new)>(f: N -> N) { forall n {:trigger f(n)} :: f(n) == n }

  lemma {:induction false} KeepType<N(!new)>(f: N -> N, t: TypeExpr<N>)
    requires IsIdentity(f)
    ensures MapType(f, t) == t
  {
    match t
    case Named(n) => assert f(n) == n;
    case Unit =>
    case Never =>
    case Array(e, _) => KeepType(f, e);
    case AnonStruct(fs, ms) => KeepFields(f, fs); KeepMethods(f, ms);
    case AnonEnum(vs, ms) => KeepVariants(f, vs); KeepMethods(f, ms);
    case AnonInterface(ms) => KeepSigs(f, ms);
    case TypeCall(n, args) => assert f(n) == n; KeepTypes(f, args);
    case Tuple(ts) => KeepTypes(f, ts);
  }

  lemma {:induction false} KeepTypes<N(!new)>(f: N -> N, ts: seq<TypeExpr<N>>)
    requires IsIdentity(f)
    ensures MapTypes(f, ts) == ts
  {
    if ts != [] {
      KeepType(f, ts[0]);
      KeepTypes(f, ts[1..]);
    }
  }

  lemma {:induction false} KeepOption<N(!new)>(f: N -> N, t: Option<TypeExpr<N>>)
    requires IsIdentity(f)
    ensures MapOption(f, t) == t
  {
    if t.Some? {
      KeepType(f, t.value);
    }
  }

  lemma {:induction false} KeepParam<N(!new)>(f: N -> N, p: Param<N>)
    requires IsIdentity(f)
    ensures MapParam(f, p) == p
  {
    assert f(p.name) == p.name;
    KeepType(f, p.ty);
  }

  lemma {:induction false} KeepParams<N(!new)>(f: N -> N, ps: seq<Param<N>>)
    requires IsIdentity(f)
    ensures MapParams(f, ps) == ps
  {
    if ps != [] {
      KeepParam(f, ps[0]);
      KeepParams(f, ps[1..]);
    }
  }

  lemma {:induction false} KeepField<N(!new)>(f: N -> N, x: Field<N>)
    requires IsIdentity(f)
    ensures MapField(f, x) == x
  {
    assert f(x.name) == x.name;
    KeepType(f, x.ty);
  }

  lemma {:induction false} KeepFields<N(!new)>(f: N -> N, xs: seq<Field<N>>)
    requires IsIdentity(f)
    ensures MapFields(f, xs) == xs
  {
    if xs != [] {
      KeepField(f, xs[0]);
      KeepFields(f, xs[1..]);
    }
  }

  lemma {:induction false} KeepVariant<N(!new)>(f: N -> N, v: Variant<N>)
    requires IsIdentity(f)
    ensures MapVariant(f, v) == v
  {
    assert f(v.name) == v.name;
    if v.kind.TupleKind? {
      KeepTypes(f, v.kind.types);
    } else if v.kind.StructKind? {
      KeepFields(f, v.kind.fields);
    }
  }

  lemma {:induction false} KeepVariants<N(!new)>(f: N -> N, vs: seq<Variant<N>>)
    requires IsIdentity(f)
    ensures MapVariants(f, vs) == vs
  {
    if vs != [] {
      KeepVariant(f, vs[0]);
      KeepVariants(f, vs[1..]);
    }
  }

  lemma {:induction false} KeepSig<N(!new)>(f: N -> N, m: MethodSig<N>)
    requires IsIdentity(f)
    ensures MapSig(f, m) == m
  {
    assert f(m.name) == m.name;
    KeepParams(f, m.params);
    KeepOption(f, m.returnType);
  }

  lemma {:induction false} KeepSigs<N(!new)>(f: N -> N, ms: seq<MethodSig<N>>)
    requires IsIdentity(f)
    ensures MapSigs(f, ms) == ms
  {
    if ms != [] {
      KeepSig(f, ms[0]);
      KeepSigs(f, ms[1..]);
    }
  }

  lemma {:induction false} KeepMethod<N(!new)>(f: N -> N, m: Method<N>)
    requires IsIdentity(f)
    ensures MapMethod(f, m) == m
  {
    assert f(m.name) == m.name;
    KeepParams(f, m.params);
    KeepOption(f, m.returnType);
    KeepExpr(f, m.body);
  }

  lemma {:induction false} KeepMethods<N(!new)>(f: N -> N, ms: seq<Method<N>>)
    requires IsIdentity(f)
    ensures MapMethods(f, ms) == ms
  {
    if ms != [] {
      KeepMethod(f, ms[0]);
      KeepMethods(f, ms[1..]);
    }
  }

  lemma {:induction false} KeepExpr<N(!new)>(f: N -> N, e: Expr<N>)
    requires IsIdentity(f)
    ensures MapExpr(f, e) == e
  {
    match e
    case Literal(_) =>
    case StringLit(n) => assert f(n) == n;
    case Ident(n) => assert f(n) == n;
    case Binary(_, l, r) => KeepExpr(f, l); KeepExpr(f, r);
    case Block(ss, v) => KeepStatements(f, ss); KeepExpr(f, v);
    case Match(x, arms) => KeepExpr(f, x); KeepArms(f, arms);
    case Call(n, args) => assert f(n) == n; KeepExprs(f, args);
    case TypeLit(t) => KeepType(f, t);
    case AnonFn(ps, t, body) => KeepParams(f, ps); KeepOption(f, t); KeepExpr(f, body);
  }

  lemma {:induction false} KeepExprs<N(!new)>(f: N -> N, es: seq<Expr<N>>)
    requires IsIdentity(f)
    ensures MapExprs(f, es) == es
  {
    if es != [] {
      KeepExpr(f, es[0]);
      KeepExprs(f, es[1..]);
    }
  }

  lemma {:induction false} KeepStatement<N(!new)>(f: N -> N, s: Statement<N>)
    requires IsIdentity(f)
    ensures MapStatement(f, s) == s
  {
    match s
    case Let(p, t, e) => KeepPattern(f, p); KeepOption(f, t); KeepExpr(f, e);
    case Assign(n, e) => assert f(n) == n; KeepExpr(f, e);
    case Effect(e) => KeepExpr(f, e);
  }

  lemma {:induction false} KeepStatements<N(!new)>(f: N -> N, ss: seq<Statement<N>>)
    requires IsIdentity(f)
    ensures MapStatements(f, ss) == ss
  {
    if ss != [] {
      KeepStatement(f, ss[0]);
      KeepStatements(f, ss[1..]);
    }
  }

  lemma {:induction false} KeepArm<N(!new)>(f: N -> N, a: MatchArm<N>)
    requires IsIdentity(f)
    ensures MapArm(f, a) == a
  {
    KeepPattern(f, a.pattern);
    KeepExpr(f, a.body);
  }

  lemma {:induction false} KeepArms<N(!new)>(f: N -> N, xs: seq<MatchArm<N>>)
    requires IsIdentity(f)
    ensures MapArms(f, xs) == xs
  {
    if xs != [] {
      KeepArm(f, xs[0]);
      KeepArms(f, xs[1..]);
    }
  }

  lemma {:induction false} KeepPattern<N(!new)>(f: N -> N, p: Pattern<N>)
    requires IsIdentity(f)
    ensures MapPattern(f, p) == p
  {
    match p
    case Wildcard =>
    case Binding(n) => assert f(n) == n;
    case Number(_) =>
    case Data(t, v, ps) => assert f(t) == t && f(v) == v; KeepPatterns(f, ps);
    case Fields(t, xs) => assert f(t) == t; KeepFieldPatterns(f, xs);
    case TuplePattern(ps) => KeepPatterns(f, ps);
  }

  lemma {:induction false} KeepPatterns<N(!new)>(f: N -> N, ps: seq<Pattern<N>>)
    requires IsIdentity(f)
    ensures MapPatterns(f, ps) == ps
  {
    if ps != [] {
      KeepPattern(f, ps[0]);
      KeepPatterns(f, ps[1..]);
    }
  }

  lemma {:induction false} KeepFieldPattern<N(!new)>(f: N -> N, x: FieldPattern<N>)
    requires IsIdentity(f)
    ensures MapFieldPattern(f, x) == x
  {
    assert f(x.name) == x.name;
    if x.sub.Some? {
      KeepPattern(f, x.sub.value);
    }
  }

  lemma {:induction false} KeepFieldPatterns<N(!new)>(f: N -> N, xs: seq<FieldPattern<N>>)
    requires IsIdentity(f)
    ensures MapFieldPatterns(f, xs) == xs
  {
    if xs != [] {
      KeepFieldPattern(f, xs[0]);
      KeepFieldPatterns(f, xs[1..]);
    }
  }

  lemma {:induction false} KeepExtern<N(!new)>(f: N -> N, x: ExternFn<N>)
    requires IsIdentity(f)
    ensures MapExtern(f, x) == x
  {
    assert f(x.name) == x.name;
    KeepParams(f, x.params);
    KeepOption(f, x.returnType);
  }

  lemma {:induction false} KeepExterns<N(!new)>(f: N -> N, xs: seq<ExternFn<N>>)
    requires IsIdentity(f)
    ensures MapExterns(f, xs) == xs
  {
    if xs != [] {
      KeepExtern(f, xs[0]);
      KeepExterns(f, xs[1..]);
    }
  }

  lemma {:induction false} KeepItem<N(!new)>(f: N -> N, x: Item<N>)
    requires IsIdentity(f)
    ensures MapItem(f, x) == x
  {
    match x
    case Function(_, _, n, ps, t, e) => assert f(n) == n; KeepParams(f, ps); KeepOption(f, t); KeepExpr(f, e);
    case Struct(_, n, fs, ms) => assert f(n) == n; KeepFields(f, fs); KeepMethods(f, ms);
    case Enum(_, n, vs, ms) => assert f(n) == n; KeepVariants(f, vs); KeepMethods(f, ms);
    case Interface(n, ms) => assert f(n) == n; KeepSigs(f, ms);
    case Derive(n, ms) => assert f(n) == n; KeepMethods(f, ms);
    case Const(_, n, t, e) => assert f(n) == n; KeepOption(f, t); KeepExpr(f, e);
    case LinkExtern(n, xs) => assert f(n) == n; KeepExterns(f, xs);
    case ErrorItem =>
  }

  /** Replacing every name by itself gives the same file. */
  lemma {:induction false} KeepItems<N(!new)>(f: N -> N, xs: seq<Item<N>>)
    requires IsIdentity(f)
    ensures MapItems(f, xs) == xs
  {
    forall i | 0 <= i < |xs| ensures MapItem(f, xs[i]) == xs[i] {
      KeepItem(f, xs[i]);
    }
  }

  /** `g` undoes `f`. */
  ghost predicate Undoes<N(!new), M>(f: N -> M, g: M -> N) { forall n {:trigger f(n)} :: g(f(n)) == n }

  /** What is undone name by name is undone file by file. */
  lemma UndoItems<N(!new), M>(f: N -> M, g: M -> N, xs: seq<Item<N>>)
    requires Undoes(f, g)
    ensures MapItems(g, MapItems(f, xs)) == xs
  {
    var id := (n: N) => n;
    ComposeItems(f, g, id, xs);
    KeepItems(id, xs);
  }

  ghost predicate OneToOne<N(!new), M>(f: N -> M) {
    forall m, n {:trigger f(m), f(n)} :: f(m) == f(n) ==> m == n
  }

  ghost function Choose<N(!new), M>(f: N -> M, m: M, other: N): N {
    if exists n :: f(n) == m then (var n :| f(n) == m; n) else other
  }

  /** A substitution that keeps names apart keeps files apart. */
  lemma ItemsInjective<N(!new), M>(f: N -> M, a: seq<Item<N>>, b: seq<Item<N>>, other: N)
    requires OneToOne(f) && MapItems(f, a) == MapItems(f, b)
    ensures a == b
  {
    var g := (m: M) => Choose(f, m, other);
    forall n ensures g(f(n)) == n {
      assert f(Choose(f, f(n), other)) == f(n);
    }
    UndoItems(f, g, a);
    UndoItems(f, g, b);
  }
}
