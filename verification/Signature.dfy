/** The signature byte stream of a file: what the hasher is fed, which files give the same stream,
    and what the stream does not see. Every encoder puts its bytes in front of a given rest. */
module Signature {
  import opened Bytes
  import opened Ast

  // ---- Primitive encodings ------------------------------------------------------------------------------

  function Byte(b: byte, rest: seq<byte>): seq<byte> { [b] + rest }

  function Flag(b: bool, rest: seq<byte>): seq<byte> { Byte(if b then 1 else 0, rest) }

  function U64(n: u64, rest: seq<byte>): seq<byte> { ToLE(n, 8) + rest }

  /** Length first, then the bytes. */
  function EncStr(s: Str, rest: seq<byte>): seq<byte> { U64(|s|, s + rest) }

  function ModeByte(m: ParamMode): byte { match m case Normal => 0 case Comptime => 3 }

  function SelfByte(k: SelfKind): byte { match k case ByValue => 0 case MutRef => 1 case Ref => 2 }

  // ---- Types and what they contain ------------------------------------------------------------------------

  function EncType(t: TypeExpr<Str>, rest: seq<byte>): seq<byte>
    decreases t
  {
    match t
    case Named(n) => Byte(1, EncStr(n, rest))
    case Unit => Byte(2, rest)
    case Never => Byte(3, rest)
    case Array(e, len) => Byte(4, EncType(e, U64(len, rest)))
    case AnonStruct(fs, ms) => Byte(5, U64(|fs|, EncFields(fs, U64(|ms|, EncMethods(ms, rest)))))
    case AnonEnum(vs, ms) => Byte(6, U64(|vs|, EncVariants(vs, U64(|ms|, EncMethods(ms, rest)))))
    case AnonInterface(ms) => Byte(7, U64(|ms|, EncSigs(ms, rest)))
    case TypeCall(n, args) => Byte(8, EncStr(n, U64(|args|, EncTypes(args, rest))))
    case Tuple(ts) => Byte(9, U64(|ts|, EncTypes(ts, rest)))
  }

  function EncTypes(ts: seq<TypeExpr<Str>>, rest: seq<byte>): seq<byte>
    decreases ts
  {
    if ts == [] then rest else EncType(ts[0], EncTypes(ts[1..], rest))
  }

  function EncOption(t: Option<TypeExpr<Str>>, rest: seq<byte>): seq<byte>
    decreases t
  {
    match t case None => Byte(0, rest) case Some(t) => Byte(1, EncType(t, rest))
  }

  function EncParam(p: Param<Str>, rest: seq<byte>): seq<byte>
    decreases p
  {
    Flag(p.isComptime, Byte(ModeByte(p.mode), EncStr(p.name, EncType(p.ty, rest))))
  }

  function EncParams(ps: seq<Param<Str>>, rest: seq<byte>): seq<byte>
    decreases ps
  {
    if ps == [] then rest else EncParam(ps[0], EncParams(ps[1..], rest))
  }

  /** Fields of structs, anonymous structs and variants are written alike. */
  function EncField(f: Field<Str>, rest: seq<byte>): seq<byte>
    decreases f
  {
    EncStr(f.name, EncType(f.ty, rest))
  }

  function EncFields(fs: seq<Field<Str>>, rest: seq<byte>): seq<byte>
    decreases fs
  {
    if fs == [] then rest else EncField(fs[0], EncFields(fs[1..], rest))
  }

  function EncVariant(v: Variant<Str>, rest: seq<byte>): seq<byte>
    decreases v
  {
    EncStr(v.name, EncKind(v.kind, rest))
  }

  function EncKind(k: VariantKind<Str>, rest: seq<byte>): seq<byte>
    decreases k
  {
    match k
    case UnitKind => Byte(0, rest)
    case TupleKind(ts) => Byte(1, U64(|ts|, EncTypes(ts, rest)))
    case StructKind(fs) => Byte(2, U64(|fs|, EncFields(fs, rest)))
  }

  function EncVariants(vs: seq<Variant<Str>>, rest: seq<byte>): seq<byte>
    decreases vs
  {
    if vs == [] then rest else EncVariant(vs[0], EncVariants(vs[1..], rest))
  }

  function EncSig(m: MethodSig<Str>, rest: seq<byte>): seq<byte>
    decreases m
  {
    EncStr(m.name, Byte(SelfByte(m.receiver),
      U64(|m.params|, EncParams(m.params, EncOption(m.returnType, Flag(m.isUnchecked, rest))))))
  }

  function EncSigs(ms: seq<MethodSig<Str>>, rest: seq<byte>): seq<byte>
    decreases ms
  {
    if ms == [] then rest else EncSig(ms[0], EncSigs(ms[1..], rest))
  }

  function EncReceiver(r: Option<SelfKind>, rest: seq<byte>): seq<byte> {
    match r case None => Byte(0, rest) case Some(k) => Byte(1, Byte(SelfByte(k), rest))
  }

  /** Visibility and body are not written. */
  function EncMethod(m: Method<Str>, rest: seq<byte>): seq<byte>
    decreases m
  {
    EncStr(m.name, EncReceiver(m.receiver,
      U64(|m.params|, EncParams(m.params, EncOption(m.returnType, Flag(m.isUnchecked, rest))))))
  }

  function EncMethods(ms: seq<Method<Str>>, rest: seq<byte>): seq<byte>
    decreases ms
  {
    if ms == [] then rest else EncMethod(ms[0], EncMethods(ms[1..], rest))
  }

  // ---- Edits that leave the signature alone -----------------------------------------------------------------

  /** Any change to the bodies and the visibility marks inside types. */
  datatype Edit<!N> = Edit(body: Expr<N> -> Expr<N>, isPub: bool -> bool)

  function EditType<N>(e: Edit<N>, t: TypeExpr<N>): TypeExpr<N>
    decreases t
  {
    match t
    case Named(_) => t
    case Unit => t
    case Never => t
    case Array(x, len) => Array(EditType(e, x), len)
    case AnonStruct(fs, ms) => AnonStruct(EditFields(e, fs), EditMethods(e, ms))
    case AnonEnum(vs, ms) => AnonEnum(EditVariants(e, vs), EditMethods(e, ms))
    case AnonInterface(ms) => AnonInterface(EditSigs(e, ms))
    case TypeCall(n, args) => TypeCall(n, EditTypes(e, args))
    case Tuple(ts) => Tuple(EditTypes(e, ts))
  }

  function EditTypes<N>(e: Edit<N>, ts: seq<TypeExpr<N>>): (r: seq<TypeExpr<N>>)
    ensures |r| == |ts|
    decreases ts
  {
    if ts == [] then [] else [EditType(e, ts[0])] + EditTypes(e, ts[1..])
  }

  function EditOption<N>(e: Edit<N>, t: Option<TypeExpr<N>>): Option<TypeExpr<N>>
    decreases t
  {
    match t case None => None case Some(t) => Some(EditType(e, t))
  }

  function EditParam<N>(e: Edit<N>, p: Param<N>): Param<N>
    decreases p
  {
    p.(ty := EditType(e, p.ty))
  }

  function EditParams<N>(e: Edit<N>, ps: seq<Param<N>>): (r: seq<Param<N>>)
    ensures |r| == |ps|
    decreases ps
  {
    if ps == [] then [] else [EditParam(e, ps[0])] + EditParams(e, ps[1..])
  }

  function EditField<N>(e: Edit<N>, f: Field<N>): Field<N>
    decreases f
  {
    Field(e.isPub(f.isPub), f.name, EditType(e, f.ty))
  }

  function EditFields<N>(e: Edit<N>, fs: seq<Field<N>>): (r: seq<Field<N>>)
    ensures |r| == |fs|
    decreases fs
  {
    if fs == [] then [] else [EditField(e, fs[0])] + EditFields(e, fs[1..])
  }

  function EditVariant<N>(e: Edit<N>, v: Variant<N>): Variant<N>
    decreases v
  {
    Variant(v.name, EditKind(e, v.kind))
  }

  function EditKind<N>(e: Edit<N>, k: VariantKind<N>): VariantKind<N>
    decreases k
  {
    match k
    case UnitKind => UnitKind
    case TupleKind(ts) => TupleKind(EditTypes(e, ts))
    case StructKind(fs) => StructKind(EditFields(e, fs))
  }

  function EditVariants<N>(e: Edit<N>, vs: seq<Variant<N>>): (r: seq<Variant<N>>)
    ensures |r| == |vs|
    decreases vs
  {
    if vs == [] then [] else [EditVariant(e, vs[0])] + EditVariants(e, vs[1..])
  }

  function EditSig<N>(e: Edit<N>, m: MethodSig<N>): MethodSig<N>
    decreases m
  {
    m.(params := EditParams(e, m.params), returnType := EditOption(e, m.returnType))
  }

  function EditSigs<N>(e: Edit<N>, ms: seq<MethodSig<N>>): (r: seq<MethodSig<N>>)
    ensures |r| == |ms|
    decreases ms
  {
    if ms == [] then [] else [EditSig(e, ms[0])] + EditSigs(e, ms[1..])
  }

  function EditMethod<N>(e: Edit<N>, m: Method<N>): Method<N>
    decreases m
  {
    Method(e.isPub(m.isPub), m.isUnchecked, m.name, m.receiver, EditParams(e, m.params),
      EditOption(e, m.returnType), e.body(m.body))
  }

  function EditMethods<N>(e: Edit<N>, ms: seq<Method<N>>): (r: seq<Method<N>>)
    ensures |r| == |ms|
    decreases ms
  {
    if ms == [] then [] else [EditMethod(e, ms[0])] + EditMethods(e, ms[1..])
  }

  lemma {:induction false} EncEditType(e: Edit<Str>, t: TypeExpr<Str>, rest: seq<byte>)
    ensures EncType(EditType(e, t), rest) == EncType(t, rest)
    decreases t
  {
    match t
    case Named(_) =>
    case Unit =>
    case Never =>
    case Array(x, len) => EncEditType(e, x, U64(len, rest));
    case AnonStruct(fs, ms) => EncEditMethods(e, ms, rest); EncEditFields(e, fs, U64(|ms|, EncMethods(ms, rest)));
    case AnonEnum(vs, ms) => EncEditMethods(e, ms, rest); EncEditVariants(e, vs, U64(|ms|, EncMethods(ms, rest)));
    case AnonInterface(ms) => EncEditSigs(e, ms, rest);
    case TypeCall(_, args) => EncEditTypes(e, args, rest);
    case Tuple(ts) => EncEditTypes(e, ts, rest);
  }

  lemma {:induction false} EncEditTypes(e: Edit<Str>, ts: seq<TypeExpr<Str>>, rest: seq<byte>)
    ensures EncTypes(EditTypes(e, ts), rest) == EncTypes(ts, rest)
    decreases ts
  {
    if ts != [] {
      EncEditType(e, ts[0], EncTypes(ts[1..], rest));
      EncEditTypes(e, ts[1..], rest);
      assert EditTypes(e, ts)[1..] == EditTypes(e, ts[1..]);
    }
  }

  lemma {:induction false} EncEditOption(e: Edit<Str>, t: Option<TypeExpr<Str>>, rest: seq<byte>)
    ensures EncOption(EditOption(e, t), rest) == EncOption(t, rest)
    decreases t
  {
    if t.Some? {
      EncEditType(e, t.value, rest);
    }
  }

  lemma {:induction false} EncEditParam(e: Edit<Str>, p: Param<Str>, rest: seq<byte>)
    ensures EncParam(EditParam(e, p), rest) == EncParam(p, rest)
    decreases p
  {
    EncEditType(e, p.ty, rest);
  }

  lemma {:induction false} EncEditParams(e: Edit<Str>, ps: seq<Param<Str>>, rest: seq<byte>)
    ensures EncParams(EditParams(e, ps), rest) == EncParams(ps, rest)
    decreases ps
  {
    if ps != [] {
      EncEditParam(e, ps[0], EncParams(ps[1..], rest));
      EncEditParams(e, ps[1..], rest);
      assert EditParams(e, ps)[1..] == EditParams(e, ps[1..]);
    }
  }

  lemma {:induction false} EncEditField(e: Edit<Str>, f: Field<Str>, rest: seq<byte>)
    ensures EncField(EditField(e, f), rest) == EncField(f, rest)
    decreases f
  {
    EncEditType(e, f.ty, rest);
  }

  lemma {:induction false} EncEditFields(e: Edit<Str>, fs: seq<Field<Str>>, rest: seq<byte>)
    ensures EncFields(EditFields(e, fs), rest) == EncFields(fs, rest)
    decreases fs
  {
    if fs != [] {
      EncEditField(e, fs[0], EncFields(fs[1..], rest));
      EncEditFields(e, fs[1..], rest);
      assert EditFields(e, fs)[1..] == EditFields(e, fs[1..]);
    }
  }

  lemma {:induction false} EncEditVariant(e: Edit<Str>, v: Variant<Str>, rest: seq<byte>)
    ensures EncVariant(EditVariant(e, v), rest) == EncVariant(v, rest)
    decreases v
  {
    if v.kind.TupleKind? {
      EncEditTypes(e, v.kind.types, rest);
    } else if v.kind.StructKind? {
      EncEditFields(e, v.kind.fields, rest);
    }
  }

  lemma {:induction false} EncEditVariants(e: Edit<Str>, vs: seq<Variant<Str>>, rest: seq<byte>)
    ensures EncVariants(EditVariants(e, vs), rest) == EncVariants(vs, rest)
    decreases vs
  {
    if vs != [] {
      EncEditVariant(e, vs[0], EncVariants(vs[1..], rest));
      EncEditVariants(e, vs[1..], rest);
      assert EditVariants(e, vs)[1..] == EditVariants(e, vs[1..]);
    }
  }

  lemma {:induction false} EncEditSig(e: Edit<Str>, m: MethodSig<Str>, rest: seq<byte>)
    ensures EncSig(EditSig(e, m), rest) == EncSig(m, rest)
    decreases m
  {
    var last := Flag(m.isUnchecked, rest);
    EncEditOption(e, m.returnType, last);
    EncEditParams(e, m.params, EncOption(m.returnType, last));
  }

  lemma {:induction false} EncEditSigs(e: Edit<Str>, ms: seq<MethodSig<Str>>, rest: seq<byte>)
    ensures EncSigs(EditSigs(e, ms), rest) == EncSigs(ms, rest)
    decreases ms
  {
    if ms != [] {
      EncEditSig(e, ms[0], EncSigs(ms[1..], rest));
      EncEditSigs(e, ms[1..], rest);
      assert EditSigs(e, ms)[1..] == EditSigs(e, ms[1..]);
    }
  }

  lemma {:induction false} EncEditMethod(e: Edit<Str>, m: Method<Str>, rest: seq<byte>)
    ensures EncMethod(EditMethod(e, m), rest) == EncMethod(m, rest)
    decreases m
  {
    var last := Flag(m.isUnchecked, rest);
    EncEditOption(e, m.returnType, last);
    EncEditParams(e, m.params, EncOption(m.returnType, last));
  }

  lemma {:induction false} EncEditMethods(e: Edit<Str>, ms: seq<Method<Str>>, rest: seq<byte>)
    ensures EncMethods(EditMethods(e, ms), rest) == EncMethods(ms, rest)
    decreases ms
  {
    if ms != [] {
      EncEditMethod(e, ms[0], EncMethods(ms[1..], rest));
      EncEditMethods(e, ms[1..], rest);
      assert EditMethods(e, ms)[1..] == EditMethods(e, ms[1..]);
    }
  }

  // ---- Unique decoding ----------------------------------------------------------------------------------------

  /** Everything the stream does not see, blanked out. */
  function Blank<N>(): Edit<N> { Edit(_ => Literal(0), _ => true) }

  lemma ByteInjective(a: byte, b: byte, r: seq<byte>, s: seq<byte>)
    requires Byte(a, r) == Byte(b, s)
    ensures a == b && r == s
  {
    assert Byte(a, r)[0] == a && Byte(b, s)[0] == b && Byte(a, r)[1..] == r && Byte(b, s)[1..] == s;
  }

  lemma FlagInjective(a: bool, b: bool, r: seq<byte>, s: seq<byte>)
    requires Flag(a, r) == Flag(b, s)
    ensures a == b && r == s
  {
    ByteInjective(if a then 1 else 0, if b then 1 else 0, r, s);
  }

  lemma Pow256Of8()
    ensures Pow256(8) == 0x1_0000_0000_0000_0000
  {
    assert Pow256(4) == 0x1_0000_0000;
  }

  lemma U64Injective(a: u64, b: u64, r: seq<byte>, s: seq<byte>)
    requires U64(a, r) == U64(b, s)
    ensures a == b && r == s
  {
    SplitAt(ToLE(a, 8), ToLE(b, 8), r, s);
    Pow256Of8();
    ToLEInjective(a, b, 8);
  }

  lemma StrInjective(a: Str, b: Str, r: seq<byte>, s: seq<byte>)
    requires EncStr(a, r) == EncStr(b, s)
    ensures a == b && r == s
  {
    U64Injective(|a|, |b|, a + r, b + s);
    SplitAt(a, b, r, s);
  }

  /** A type is determined by its bytes, up to the parts they leave out, and so is where it ends. */
  lemma {:induction false} TypeInjective(a: TypeExpr<Str>, b: TypeExpr<Str>, r: seq<byte>, s: seq<byte>)
    requires EncType(a, r) == EncType(b, s)
    ensures EditType(Blank(), a) == EditType(Blank(), b) && r == s
    decreases a
  {
    SameTag(a, b, r, s);
    match a
    case Named(n) => StrInjective(n, b.name, r, s);
    case Unit =>
    case Never =>
    case Array(x, len) =>
      TypeInjective(x, b.element, U64(len, r), U64(b.length, s));
      U64Injective(len, b.length, r, s);
    case AnonStruct(fs, ms) =>
      var q, t := U64(|ms|, EncMethods(ms, r)), U64(|b.methods|, EncMethods(b.methods, s));
      U64Injective(|fs|, |b.fields|, EncFields(fs, q), EncFields(b.fields, t));
      FieldsInjective(fs, b.fields, q, t);
      U64Injective(|ms|, |b.methods|, EncMethods(ms, r), EncMethods(b.methods, s));
      MethodsInjective(ms, b.methods, r, s);
    case AnonEnum(vs, ms) =>
      var q, t := U64(|ms|, EncMethods(ms, r)), U64(|b.methods|, EncMethods(b.methods, s));
      U64Injective(|vs|, |b.variants|, EncVariants(vs, q), EncVariants(b.variants, t));
      VariantsInjective(vs, b.variants, q, t);
      U64Injective(|ms|, |b.methods|, EncMethods(ms, r), EncMethods(b.methods, s));
      MethodsInjective(ms, b.methods, r, s);
    case AnonInterface(ms) =>
      U64Injective(|ms|, |b.sigs|, EncSigs(ms, r), EncSigs(b.sigs, s));
      SigsInjective(ms, b.sigs, r, s);
    case TypeCall(n, args) =>
      StrInjective(n, b.callee, U64(|args|, EncTypes(args, r)), U64(|b.args|, EncTypes(b.args, s)));
      U64Injective(|args|, |b.args|, EncTypes(args, r), EncTypes(b.args, s));
      TypesInjective(args, b.args, r, s);
    case Tuple(ts) =>
      U64Injective(|ts|, |b.elems|, EncTypes(ts, r), EncTypes(b.elems, s));
      TypesInjective(ts, b.elems, r, s);
  }

  function TypeTag(t: TypeExpr<Str>): byte {
    match t
    case Named(_) => 1 case Unit => 2 case Never => 3 case Array(_, _) => 4 case AnonStruct(_, _) => 5
    case AnonEnum(_, _) => 6 case AnonInterface(_) => 7 case TypeCall(_, _) => 8 case Tuple(_) => 9
  }

  /** What follows the tag. */
  function TypeRest(t: TypeExpr<Str>, rest: seq<byte>): seq<byte> {
    match t
    case Named(n) => EncStr(n, rest)
    case Unit => rest
    case Never => rest
    case Array(e, len) => EncType(e, U64(len, rest))
    case AnonStruct(fs, ms) => U64(|fs|, EncFields(fs, U64(|ms|, EncMethods(ms, rest))))
    case AnonEnum(vs, ms) => U64(|vs|, EncVariants(vs, U64(|ms|, EncMethods(ms, rest))))
    case AnonInterface(ms) => U64(|ms|, EncSigs(ms, rest))
    case TypeCall(n, args) => EncStr(n, U64(|args|, EncTypes(args, rest)))
    case Tuple(ts) => U64(|ts|, EncTypes(ts, rest))
  }

  lemma SameTag(a: TypeExpr<Str>, b: TypeExpr<Str>, r: seq<byte>, s: seq<byte>)
    requires EncType(a, r) == EncType(b, s)
    ensures TypeTag(a) == TypeTag(b) && TypeRest(a, r) == TypeRest(b, s)
  {
    assert EncType(a, r) == Byte(TypeTag(a), TypeRest(a, r));
    assert EncType(b, s) == Byte(TypeTag(b), TypeRest(b, s));
    ByteInjective(TypeTag(a), TypeTag(b), TypeRest(a, r), TypeRest(b, s));
  }

  lemma {:induction false} TypesInjective(a: seq<TypeExpr<Str>>, b: seq<TypeExpr<Str>>, r: seq<byte>, s: seq<byte>)
    requires |a| == |b| && EncTypes(a, r) == EncTypes(b, s)
    ensures EditTypes(Blank(), a) == EditTypes(Blank(), b) && r == s
    decreases a
  {
    if a != [] {
      TypeInjective(a[0], b[0], EncTypes(a[1..], r), EncTypes(b[1..], s));
      TypesInjective(a[1..], b[1..], r, s);
    }
  }

  lemma {:induction false} OptionInjective(a: Option<TypeExpr<Str>>, b: Option<TypeExpr<Str>>, r: seq<byte>,
                                           s: seq<byte>)
    requires EncOption(a, r) == EncOption(b, s)
    ensures EditOption(Blank(), a) == EditOption(Blank(), b) && r == s
    decreases a
  {
    ByteInjective(if a.Some? then 1 else 0, if b.Some? then 1 else 0,
                  if a.Some? then EncType(a.value, r) else r, if b.Some? then EncType(b.value, s) else s);
    if a.Some? {
      TypeInjective(a.value, b.value, r, s);
    }
  }

  lemma {:induction false} ParamInjective(a: Param<Str>, b: Param<Str>, r: seq<byte>, s: seq<byte>)
    requires EncParam(a, r) == EncParam(b, s)
    ensures EditParam(Blank(), a) == EditParam(Blank(), b) && r == s
    decreases a
  {
    var x, y := EncStr(a.name, EncType(a.ty, r)), EncStr(b.name, EncType(b.ty, s));
    FlagInjective(a.isComptime, b.isComptime, Byte(ModeByte(a.mode), x), Byte(ModeByte(b.mode), y));
    ByteInjective(ModeByte(a.mode), ModeByte(b.mode), x, y);
    StrInjective(a.name, b.name, EncType(a.ty, r), EncType(b.ty, s));
    TypeInjective(a.ty, b.ty, r, s);
  }

  lemma {:induction false} ParamsInjective(a: seq<Param<Str>>, b: seq<Param<Str>>, r: seq<byte>, s: seq<byte>)
    requires |a| == |b| && EncParams(a, r) == EncParams(b, s)
    ensures EditParams(Blank(), a) == EditParams(Blank(), b) && r == s
    decreases a
  {
    if a != [] {
      ParamInjective(a[0], b[0], EncParams(a[1..], r), EncParams(b[1..], s));
      ParamsInjective(a[1..], b[1..], r, s);
    }
  }

  lemma {:induction false} FieldInjective(a: Field<Str>, b: Field<Str>, r: seq<byte>, s: seq<byte>)
    requires EncField(a, r) == EncField(b, s)
    ensures EditField(Blank(), a) == EditField(Blank(), b) && r == s
    decreases a
  {
    StrInjective(a.name, b.name, EncType(a.ty, r), EncType(b.ty, s));
    TypeInjective(a.ty, b.ty, r, s);
  }

  lemma {:induction false} FieldsInjective(a: seq<Field<Str>>, b: seq<Field<Str>>, r: seq<byte>, s: seq<byte>)
    requires |a| == |b| && EncFields(a, r) == EncFields(b, s)
    ensures EditFields(Blank(), a) == EditFields(Blank(), b) && r == s
    decreases a
  {
    if a != [] {
      FieldInjective(a[0], b[0], EncFields(a[1..], r), EncFields(b[1..], s));
      FieldsInjective(a[1..], b[1..], r, s);
    }
  }

  function KindTag(k: VariantKind<Str>): byte { match k case UnitKind => 0 case TupleKind(_) => 1
  case StructKind(_) => 2 }

  function KindRest(k: VariantKind<Str>, rest: seq<byte>): seq<byte> {
    match k
    case UnitKind => rest
    case TupleKind(ts) => U64(|ts|, EncTypes(ts, rest))
    case StructKind(fs) => U64(|fs|, EncFields(fs, rest))
  }

  lemma {:induction false} KindInjective(a: VariantKind<Str>, b: VariantKind<Str>, r: seq<byte>, s: seq<byte>)
    requires EncKind(a, r) == EncKind(b, s)
    ensures EditKind(Blank(), a) == EditKind(Blank(), b) && r == s
    decreases a
  {
    ByteInjective(KindTag(a), KindTag(b), KindRest(a, r), KindRest(b, s));
    if a.TupleKind? {
      U64Injective(|a.types|, |b.types|, EncTypes(a.types, r), EncTypes(b.types, s));
      TypesInjective(a.types, b.types, r, s);
    } else if a.StructKind? {
      U64Injective(|a.fields|, |b.fields|, EncFields(a.fields, r), EncFields(b.fields, s));
      FieldsInjective(a.fields, b.fields, r, s);
    }
  }

  lemma {:induction false} VariantInjective(a: Variant<Str>, b: Variant<Str>, r: seq<byte>, s: seq<byte>)
    requires EncVariant(a, r) == EncVariant(b, s)
    ensures EditVariant(Blank(), a) == EditVariant(Blank(), b) && r == s
    decreases a
  {
    StrInjective(a.name, b.name, EncKind(a.kind, r), EncKind(b.kind, s));
    KindInjective(a.kind, b.kind, r, s);
  }

  lemma {:induction false} VariantsInjective(a: seq<Variant<Str>>, b: seq<Variant<Str>>, r: seq<byte>, s: seq<byte>)
    requires |a| == |b| && EncVariants(a, r) == EncVariants(b, s)
    ensures EditVariants(Blank(), a) == EditVariants(Blank(), b) && r == s
    decreases a
  {
    if a != [] {
      VariantInjective(a[0], b[0], EncVariants(a[1..], r), EncVariants(b[1..], s));
      VariantsInjective(a[1..], b[1..], r, s);
    }
  }

  lemma {:induction false} SigInjective(a: MethodSig<Str>, b: MethodSig<Str>, r: seq<byte>, s: seq<byte>)
    requires EncSig(a, r) == EncSig(b, s)
    ensures EditSig(Blank(), a) == EditSig(Blank(), b) && r == s
    decreases a
  {
    var q, t := Flag(a.isUnchecked, r), Flag(b.isUnchecked, s);
    var o, p := EncOption(a.returnType, q), EncOption(b.returnType, t);
    var x, y := U64(|a.params|, EncParams(a.params, o)), U64(|b.params|, EncParams(b.params, p));
    StrInjective(a.name, b.name, Byte(SelfByte(a.receiver), x), Byte(SelfByte(b.receiver), y));
    ByteInjective(SelfByte(a.receiver), SelfByte(b.receiver), x, y);
    U64Injective(|a.params|, |b.params|, EncParams(a.params, o), EncParams(b.params, p));
    ParamsInjective(a.params, b.params, o, p);
    OptionInjective(a.returnType, b.returnType, q, t);
    FlagInjective(a.isUnchecked, b.isUnchecked, r, s);
  }

  lemma {:induction false} SigsInjective(a: seq<MethodSig<Str>>, b: seq<MethodSig<Str>>, r: seq<byte>, s: seq<byte>)
    requires |a| == |b| && EncSigs(a, r) == EncSigs(b, s)
    ensures EditSigs(Blank(), a) == EditSigs(Blank(), b) && r == s
    decreases a
  {
    if a != [] {
      SigInjective(a[0], b[0], EncSigs(a[1..], r), EncSigs(b[1..], s));
      SigsInjective(a[1..], b[1..], r, s);
    }
  }

  lemma ReceiverInjective(a: Option<SelfKind>, b: Option<SelfKind>, r: seq<byte>, s: seq<byte>)
    requires EncReceiver(a, r) == EncReceiver(b, s)
    ensures a == b && r == s
  {
    ByteInjective(if a.Some? then 1 else 0, if b.Some? then 1 else 0,
                  if a.Some? then Byte(SelfByte(a.value), r) else r, if b.Some? then Byte(SelfByte(b.value), s) else s);
    if a.Some? {
      ByteInjective(SelfByte(a.value), SelfByte(b.value), r, s);
    }
  }

  lemma {:induction false} MethodInjective(a: Method<Str>, b: Method<Str>, r: seq<byte>, s: seq<byte>)
    requires EncMethod(a, r) == EncMethod(b, s)
    ensures EditMethod(Blank(), a) == EditMethod(Blank(), b) && r == s
    decreases a
  {
    var q, t := Flag(a.isUnchecked, r), Flag(b.isUnchecked, s);
    var o, p := EncOption(a.returnType, q), EncOption(b.returnType, t);
    var x, y := U64(|a.params|, EncParams(a.params, o)), U64(|b.params|, EncParams(b.params, p));
    StrInjective(a.name, b.name, EncReceiver(a.receiver, x), EncReceiver(b.receiver, y));
    ReceiverInjective(a.receiver, b.receiver, x, y);
    U64Injective(|a.params|, |b.params|, EncParams(a.params, o), EncParams(b.params, p));
    ParamsInjective(a.params, b.params, o, p);
    OptionInjective(a.returnType, b.returnType, q, t);
    FlagInjective(a.isUnchecked, b.isUnchecked, r, s);
  }

  lemma {:induction false} MethodsInjective(a: seq<Method<Str>>, b: seq<Method<Str>>, r: seq<byte>, s: seq<byte>)
    requires |a| == |b| && EncMethods(a, r) == EncMethods(b, s)
    ensures EditMethods(Blank(), a) == EditMethods(Blank(), b) && r == s
    decreases a
  {
    if a != [] {
      MethodInjective(a[0], b[0], EncMethods(a[1..], r), EncMethods(b[1..], s));
      MethodsInjective(a[1..], b[1..], r, s);
    }
  }
}
