/** The encoders as they run: a hasher that is fed step by step while symbols are resolved. A method
    that encodes something takes, as a ghost, the bytes that will follow it. */
module SignatureHasher {
  import opened Bytes
  import opened Ast
  import opened Signature
  import opened FileSignature

  /** An interner's key; a negative number is no key. */
  type Spur = int

  /** The strings of an interner, by key. */
  type Strings = seq<Str>

  /** The source panics on a key that the interner does not have; here it resolves to nothing. */
  function Resolve(strings: Strings, s: Spur): Str { if 0 <= s < |strings| then strings[s] else [] }

  function Resolver(strings: Strings): Spur -> Str { s => Resolve(strings, s) }

  class Hasher {
    /** Everything fed so far, in order. */
    var stream: seq<byte>

    constructor ()
      ensures stream == []
    {
      stream := [];
    }

    method Update(bytes: seq<byte>, ghost rest: seq<byte>)
      modifies this
      ensures stream + rest == old(stream) + (bytes + rest)
    {
      stream := stream + bytes;
      Assoc(old(stream), bytes, rest);
    }

    method UpdateByte(b: byte, ghost rest: seq<byte>)
      modifies this
      ensures stream + rest == old(stream) + Byte(b, rest)
    {
      Update([b], rest);
    }

    method UpdateU64(n: u64, ghost rest: seq<byte>)
      modifies this
      ensures stream + rest == old(stream) + U64(n, rest)
    {
      Update(ToLE(n, 8), rest);
    }

    method UpdateStr(s: Str, ghost rest: seq<byte>)
      modifies this
      ensures stream + rest == old(stream) + EncStr(s, rest)
    {
      UpdateU64(|s|, s + rest);
      Update(s, rest);
    }
  }

  method EncodeFlag(h: Hasher, b: bool, ghost rest: seq<byte>)
    modifies h
    ensures h.stream + rest == old(h.stream) + Flag(b, rest)
  {
    h.UpdateByte(if b then 1 else 0, rest);
  }

  method EncodeIdent(h: Hasher, name: Spur, strings: Strings, ghost rest: seq<byte>)
    modifies h
    ensures h.stream + rest == old(h.stream) + EncStr(Resolver(strings)(name), rest)
  {
    h.UpdateStr(Resolve(strings, name), rest);
  }

  method EncodeType(h: Hasher, t: TypeExpr<Spur>, strings: Strings, ghost rest: seq<byte>)
    modifies h
    ensures h.stream + rest == old(h.stream) + EncType(MapType(Resolver(strings), t), rest)
    decreases t
  {
    ghost var f := Resolver(strings);
    match t {
      case Named(name) =>
        h.UpdateByte(1, EncStr(f(name), rest));
        EncodeIdent(h, name, strings, rest);
      case Unit =>
        h.UpdateByte(2, rest);
      case Never =>
        h.UpdateByte(3, rest);
      case Array(element, length) =>
        h.UpdateByte(4, EncType(MapType(f, element), U64(length, rest)));
        EncodeType(h, element, strings, U64(length, rest));
        h.UpdateU64(length, rest);
      case AnonStruct(fields, methods) =>
        ghost var tail := U64(|methods|, EncMethods(MapMethods(f, methods), rest));
        h.UpdateByte(5, U64(|fields|, EncFields(MapFields(f, fields), tail)));
        h.UpdateU64(|fields|, EncFields(MapFields(f, fields), tail));
        EncodeFields(h, fields, strings, tail);
        h.UpdateU64(|methods|, EncMethods(MapMethods(f, methods), rest));
        EncodeMethods(h, methods, strings, rest);
      case AnonEnum(variants, methods) =>
        ghost var tail := U64(|methods|, EncMethods(MapMethods(f, methods), rest));
        h.UpdateByte(6, U64(|variants|, EncVariants(MapVariants(f, variants), tail)));
        h.UpdateU64(|variants|, EncVariants(MapVariants(f, variants), tail));
        EncodeVariants(h, variants, strings, tail);
        h.UpdateU64(|methods|, EncMethods(MapMethods(f, methods), rest));
        EncodeMethods(h, methods, strings, rest);
      case AnonInterface(sigs) =>
        h.UpdateByte(7, U64(|sigs|, EncSigs(MapSigs(f, sigs), rest)));
        h.UpdateU64(|sigs|, EncSigs(MapSigs(f, sigs), rest));
        EncodeSigs(h, sigs, strings, rest);
      case TypeCall(callee, args) =>
        ghost var tail := U64(|args|, EncTypes(MapTypes(f, args), rest));
        h.UpdateByte(8, EncStr(f(callee), tail));
        EncodeIdent(h, callee, strings, tail);
        h.UpdateU64(|args|, EncTypes(MapTypes(f, args), rest));
        EncodeTypes(h, args, strings, rest);
      case Tuple(elems) =>
        h.UpdateByte(9, U64(|elems|, EncTypes(MapTypes(f, elems), rest)));
        h.UpdateU64(|elems|, EncTypes(MapTypes(f, elems), rest));
        EncodeTypes(h, elems, strings, rest);
    }
  }

  method EncodeTypes(h: Hasher, ts: seq<TypeExpr<Spur>>, strings: Strings, ghost rest: seq<byte>)
    modifies h
    ensures h.stream + rest == old(h.stream) + EncTypes(MapTypes(Resolver(strings), ts), rest)
    decreases ts
  {
    ghost var f := Resolver(strings);
    for n := 0 to |ts|
      invariant h.stream + EncTypes(MapTypes(f, ts[n..]), rest) == old(h.stream) + EncTypes(MapTypes(f, ts), rest)
    {
      Tail(ts, n);
      assert MapTypes(f, ts[n..])[1..] == MapTypes(f, ts[n + 1..]);
      EncodeType(h, ts[n], strings, EncTypes(MapTypes(f, ts[n + 1..]), rest));
    }
  }

  method EncodeTypeOpt(h: Hasher, t: Option<TypeExpr<Spur>>, strings: Strings, ghost rest: seq<byte>)
    modifies h
    ensures h.stream + rest == old(h.stream) + EncOption(MapOption(Resolver(strings), t), rest)
    decreases t
  {
    match t {
      case None =>
        h.UpdateByte(0, rest);
      case Some(ty) =>
        h.UpdateByte(1, EncType(MapType(Resolver(strings), ty), rest));
        EncodeType(h, ty, strings, rest);
    }
  }

  method EncodeParam(h: Hasher, p: Param<Spur>, strings: Strings, ghost rest: seq<byte>)
    modifies h
    ensures h.stream + rest == old(h.stream) + EncParam(MapParam(Resolver(strings), p), rest)
    decreases p
  {
    ghost var f := Resolver(strings);
    ghost var x := EncType(MapType(f, p.ty), rest);
    EncodeFlag(h, p.isComptime, Byte(ModeByte(p.mode), EncStr(f(p.name), x)));
    h.UpdateByte(ModeByte(p.mode), EncStr(f(p.name), x));
    EncodeIdent(h, p.name, strings, x);
    EncodeType(h, p.ty, strings, rest);
  }

  method EncodeParams(h: Hasher, ps: seq<Param<Spur>>, strings: Strings, ghost rest: seq<byte>)
    modifies h
    ensures h.stream + rest == old(h.stream) + EncParams(MapParams(Resolver(strings), ps), rest)
    decreases ps
  {
    ghost var f := Resolver(strings);
    for n := 0 to |ps|
      invariant h.stream + EncParams(MapParams(f, ps[n..]), rest) == old(h.stream) + EncParams(MapParams(f, ps), rest)
    {
      Tail(ps, n);
      assert MapParams(f, ps[n..])[1..] == MapParams(f, ps[n + 1..]);
      EncodeParam(h, ps[n], strings, EncParams(MapParams(f, ps[n + 1..]), rest));
    }
  }

  method EncodeField(h: Hasher, x: Field<Spur>, strings: Strings, ghost rest: seq<byte>)
    modifies h
    ensures h.stream + rest == old(h.stream) + EncField(MapField(Resolver(strings), x), rest)
    decreases x
  {
    EncodeIdent(h, x.name, strings, EncType(MapType(Resolver(strings), x.ty), rest));
    EncodeType(h, x.ty, strings, rest);
  }

  method EncodeFields(h: Hasher, xs: seq<Field<Spur>>, strings: Strings, ghost rest: seq<byte>)
    modifies h
    ensures h.stream + rest == old(h.stream) + EncFields(MapFields(Resolver(strings), xs), rest)
    decreases xs
  {
    ghost var f := Resolver(strings);
    for n := 0 to |xs|
      invariant h.stream + EncFields(MapFields(f, xs[n..]), rest) == old(h.stream) + EncFields(MapFields(f, xs), rest)
    {
      Tail(xs, n);
      assert MapFields(f, xs[n..])[1..] == MapFields(f, xs[n + 1..]);
      EncodeField(h, xs[n], strings, EncFields(MapFields(f, xs[n + 1..]), rest));
    }
  }

  method EncodeVariant(h: Hasher, v: Variant<Spur>, strings: Strings, ghost rest: seq<byte>)
    modifies h
    ensures h.stream + rest == old(h.stream) + EncVariant(MapVariant(Resolver(strings), v), rest)
    decreases v
  {
    EncodeIdent(h, v.name, strings, EncKind(MapKind(Resolver(strings), v.kind), rest));
    EncodeKind(h, v.kind, strings, rest);
  }

  method EncodeKind(h: Hasher, k: VariantKind<Spur>, strings: Strings, ghost rest: seq<byte>)
    modifies h
    ensures h.stream + rest == old(h.stream) + EncKind(MapKind(Resolver(strings), k), rest)
    decreases k
  {
    ghost var f := Resolver(strings);
    match k {
      case UnitKind =>
        h.UpdateByte(0, rest);
      case TupleKind(types) =>
        h.UpdateByte(1, U64(|types|, EncTypes(MapTypes(f, types), rest)));
        h.UpdateU64(|types|, EncTypes(MapTypes(f, types), rest));
        EncodeTypes(h, types, strings, rest);
      case StructKind(fields) =>
        h.UpdateByte(2, U64(|fields|, EncFields(MapFields(f, fields), rest)));
        h.UpdateU64(|fields|, EncFields(MapFields(f, fields), rest));
        EncodeFields(h, fields, strings, rest);
    }
  }

  method EncodeVariants(h: Hasher, vs: seq<Variant<Spur>>, strings: Strings, ghost rest: seq<byte>)
    modifies h
    ensures h.stream + rest == old(h.stream) + EncVariants(MapVariants(Resolver(strings), vs), rest)
    decreases vs
  {
    ghost var f := Resolver(strings);
    for n := 0 to |vs|
      invariant h.stream + EncVariants(MapVariants(f, vs[n..]), rest) ==
        old(h.stream) + EncVariants(MapVariants(f, vs), rest)
    {
      Tail(vs, n);
      assert MapVariants(f, vs[n..])[1..] == MapVariants(f, vs[n + 1..]);
      EncodeVariant(h, vs[n], strings, EncVariants(MapVariants(f, vs[n + 1..]), rest));
    }
  }

  method EncodeMethodSig(h: Hasher, m: MethodSig<Spur>, strings: Strings, ghost rest: seq<byte>)
    modifies h
    ensures h.stream + rest == old(h.stream) + EncSig(MapSig(Resolver(strings), m), rest)
    decreases m
  {
    ghost var f := Resolver(strings);
    ghost var q := EncOption(MapOption(f, m.returnType), Flag(m.isUnchecked, rest));
    ghost var x := EncParams(MapParams(f, m.params), q);
    EncodeIdent(h, m.name, strings, Byte(SelfByte(m.receiver), U64(|m.params|, x)));
    h.UpdateByte(SelfByte(m.receiver), U64(|m.params|, x));
    h.UpdateU64(|m.params|, x);
    EncodeParams(h, m.params, strings, q);
    EncodeTypeOpt(h, m.returnType, strings, Flag(m.isUnchecked, rest));
    EncodeFlag(h, m.isUnchecked, rest);
  }

  method EncodeSigs(h: Hasher, ms: seq<MethodSig<Spur>>, strings: Strings, ghost rest: seq<byte>)
    modifies h
    ensures h.stream + rest == old(h.stream) + EncSigs(MapSigs(Resolver(strings), ms), rest)
    decreases ms
  {
    ghost var f := Resolver(strings);
    for n := 0 to |ms|
      invariant h.stream + EncSigs(MapSigs(f, ms[n..]), rest) == old(h.stream) + EncSigs(MapSigs(f, ms), rest)
    {
      Tail(ms, n);
      assert MapSigs(f, ms[n..])[1..] == MapSigs(f, ms[n + 1..]);
      EncodeMethodSig(h, ms[n], strings, EncSigs(MapSigs(f, ms[n + 1..]), rest));
    }
  }

  method EncodeReceiver(h: Hasher, r: Option<SelfKind>, ghost rest: seq<byte>)
    modifies h
    ensures h.stream + rest == old(h.stream) + EncReceiver(r, rest)
  {
    match r {
      case None =>
        h.UpdateByte(0, rest);
      case Some(kind) =>
        h.UpdateByte(1, Byte(SelfByte(kind), rest));
        h.UpdateByte(SelfByte(kind), rest);
    }
  }

  method EncodeMethod(h: Hasher, m: Method<Spur>, strings: Strings, ghost rest: seq<byte>)
    modifies h
    ensures h.stream + rest == old(h.stream) + EncMethod(MapMethod(Resolver(strings), m), rest)
    decreases m
  {
    ghost var f := Resolver(strings);
    ghost var q := EncOption(MapOption(f, m.returnType), Flag(m.isUnchecked, rest));
    ghost var x := EncParams(MapParams(f, m.params), q);
    EncodeIdent(h, m.name, strings, EncReceiver(m.receiver, U64(|m.params|, x)));
    EncodeReceiver(h, m.receiver, U64(|m.params|, x));
    h.UpdateU64(|m.params|, x);
    EncodeParams(h, m.params, strings, q);
    EncodeTypeOpt(h, m.returnType, strings, Flag(m.isUnchecked, rest));
    EncodeFlag(h, m.isUnchecked, rest);
  }

  method EncodeMethods(h: Hasher, ms: seq<Method<Spur>>, strings: Strings, ghost rest: seq<byte>)
    modifies h
    ensures h.stream + rest == old(h.stream) + EncMethods(MapMethods(Resolver(strings), ms), rest)
    decreases ms
  {
    ghost var f := Resolver(strings);
    for n := 0 to |ms|
      invariant h.stream + EncMethods(MapMethods(f, ms[n..]), rest) ==
        old(h.stream) + EncMethods(MapMethods(f, ms), rest)
    {
      Tail(ms, n);
      assert MapMethods(f, ms[n..])[1..] == MapMethods(f, ms[n + 1..]);
      EncodeMethod(h, ms[n], strings, EncMethods(MapMethods(f, ms[n + 1..]), rest));
    }
  }

  // ---- Items --------------------------------------------------------------------------------------------

  lemma {:induction false} PublicFieldsMap<N, M>(f: N -> M, xs: seq<Field<N>>)
    ensures PublicFields(MapFields(f, xs)) == MapFields(f, PublicFields(xs))
  {
    if xs != [] {
      PublicFieldsMap(f, xs[1..]);
      assert MapFields(f, xs)[1..] == MapFields(f, xs[1..]);
      if xs[0].isPub {
        assert PublicFields(xs)[0] == xs[0] && PublicFields(xs)[1..] == PublicFields(xs[1..]);
      } else {
        assert PublicFields(xs) == PublicFields(xs[1..]);
      }
    }
  }

  lemma {:induction false} PublicMethodsMap<N, M>(f: N -> M, ms: seq<Method<N>>)
    ensures PublicMethods(MapMethods(f, ms)) == MapMethods(f, PublicMethods(ms))
  {
    if ms != [] {
      PublicMethodsMap(f, ms[1..]);
      assert MapMethods(f, ms)[1..] == MapMethods(f, ms[1..]);
      if ms[0].isPub {
        assert PublicMethods(ms)[0] == ms[0] && PublicMethods(ms)[1..] == PublicMethods(ms[1..]);
      } else {
        assert PublicMethods(ms) == PublicMethods(ms[1..]);
      }
    }
  }

  method EncodeCountedMethods(h: Hasher, ms: Vec<Method<Spur>>, strings: Strings, ghost rest: seq<byte>)
    modifies h
    ensures h.stream + rest == old(h.stream) + CountedMethods(MapMethods(Resolver(strings), ms), rest)
  {
    h.UpdateU64(|ms|, EncMethods(MapMethods(Resolver(strings), ms), rest));
    EncodeMethods(h, ms, strings, rest);
  }

  method EncodeFunction(h: Hasher, x: Item<Spur>, strings: Strings, ghost rest: seq<byte>)
    requires x.Function?
    modifies h
    ensures h.stream + rest == old(h.stream) + EncItem(MapItem(Resolver(strings), x), rest)
  {
    ghost var f := Resolver(strings);
    ghost var t := EncOption(MapOption(f, x.returnType), rest);
    ghost var q := U64(|x.params|, EncParams(MapParams(f, x.params), t));
    h.UpdateByte(1, EncStr(f(x.name), Flag(x.isUnchecked, q)));
    EncodeIdent(h, x.name, strings, Flag(x.isUnchecked, q));
    EncodeFlag(h, x.isUnchecked, q);
    h.UpdateU64(|x.params|, EncParams(MapParams(f, x.params), t));
    EncodeParams(h, x.params, strings, t);
    EncodeTypeOpt(h, x.returnType, strings, rest);
  }

  method EncodeStruct(h: Hasher, x: Item<Spur>, strings: Strings, ghost rest: seq<byte>)
    requires x.Struct?
    modifies h
    ensures h.stream + rest == old(h.stream) + EncItem(MapItem(Resolver(strings), x), rest)
  {
    ghost var f := Resolver(strings);
    var fields: Vec<Field<Spur>>, methods: Vec<Method<Spur>> := PublicFields(x.fields), PublicMethods(x.methods);
    PublicFieldsMap(f, x.fields);
    PublicMethodsMap(f, x.methods);
    ghost var ms := CountedMethods(MapMethods(f, methods), rest);
    ghost var fs := EncFields(MapFields(f, fields), ms);
    h.UpdateByte(2, EncStr(f(x.name), U64(|fields|, fs)));
    EncodeIdent(h, x.name, strings, U64(|fields|, fs));
    h.UpdateU64(|fields|, fs);
    EncodeFields(h, fields, strings, ms);
    EncodeCountedMethods(h, methods, strings, rest);
  }

  method EncodeEnum(h: Hasher, x: Item<Spur>, strings: Strings, ghost rest: seq<byte>)
    requires x.Enum?
    modifies h
    ensures h.stream + rest == old(h.stream) + EncItem(MapItem(Resolver(strings), x), rest)
  {
    ghost var f := Resolver(strings);
    var methods: Vec<Method<Spur>> := PublicMethods(x.methods);
    PublicMethodsMap(f, x.methods);
    ghost var ms := CountedMethods(MapMethods(f, methods), rest);
    ghost var vs := EncVariants(MapVariants(f, x.variants), ms);
    h.UpdateByte(3, EncStr(f(x.name), U64(|x.variants|, vs)));
    EncodeIdent(h, x.name, strings, U64(|x.variants|, vs));
    h.UpdateU64(|x.variants|, vs);
    EncodeVariants(h, x.variants, strings, ms);
    EncodeCountedMethods(h, methods, strings, rest);
  }

  method EncodeLinkExtern(h: Hasher, x: Item<Spur>, strings: Strings, ghost rest: seq<byte>)
    requires x.LinkExtern?
    modifies h
    ensures h.stream + rest == old(h.stream) + EncItem(MapItem(Resolver(strings), x), rest)
  {
    ghost var f := Resolver(strings);
    ghost var tail := Byte(0, EncExterns(MapExterns(f, x.externs), rest));
    h.UpdateByte(7, f(x.library) + tail);
    h.Update(Resolve(strings, x.library), tail);
    h.UpdateByte(0, EncExterns(MapExterns(f, x.externs), rest));
    for n := 0 to |x.externs|
      invariant h.stream + EncExterns(MapExterns(f, x.externs[n..]), rest) ==
        old(h.stream) + EncItem(MapItem(f, x), rest)
    {
      Tail(x.externs, n);
      assert MapExterns(f, x.externs[n..])[1..] == MapExterns(f, x.externs[n + 1..]);
      EncodeExtern(h, x.externs[n], strings, EncExterns(MapExterns(f, x.externs[n + 1..]), rest));
    }
  }

  method EncodeExtern(h: Hasher, x: ExternFn<Spur>, strings: Strings, ghost rest: seq<byte>)
    modifies h
    ensures h.stream + rest == old(h.stream) + EncExtern(MapExtern(Resolver(strings), x), rest)
  {
    ghost var f := Resolver(strings);
    ghost var t := EncOption(MapOption(f, x.returnType), rest);
    EncodeIdent(h, x.name, strings, U64(|x.params|, EncParams(MapParams(f, x.params), t)));
    h.UpdateU64(|x.params|, EncParams(MapParams(f, x.params), t));
    EncodeParams(h, x.params, strings, t);
    EncodeTypeOpt(h, x.returnType, strings, rest);
  }

  method EncodeItem(h: Hasher, x: Item<Spur>, strings: Strings, ghost rest: seq<byte>)
    modifies h
    ensures h.stream + rest == old(h.stream) + EncItem(MapItem(Resolver(strings), x), rest)
  {
    ghost var f := Resolver(strings);
    if x.Function? {
      EncodeFunction(h, x, strings, rest);
    } else if x.Struct? {
      EncodeStruct(h, x, strings, rest);
    } else if x.Enum? {
      EncodeEnum(h, x, strings, rest);
    } else if x.Interface? {
      ghost var ms := EncSigs(MapSigs(f, x.sigs), rest);
      h.UpdateByte(4, EncStr(f(x.name), U64(|x.sigs|, ms)));
      EncodeIdent(h, x.name, strings, U64(|x.sigs|, ms));
      h.UpdateU64(|x.sigs|, ms);
      EncodeSigs(h, x.sigs, strings, rest);
    } else if x.Derive? {
      ghost var ms := CountedMethods(MapMethods(f, x.methods), rest);
      h.UpdateByte(5, EncStr(f(x.name), ms));
      EncodeIdent(h, x.name, strings, ms);
      EncodeCountedMethods(h, x.methods, strings, rest);
    } else if x.Const? {
      ghost var t := EncOption(MapOption(f, x.ty), rest);
      h.UpdateByte(6, EncStr(f(x.name), t));
      EncodeIdent(h, x.name, strings, t);
      EncodeTypeOpt(h, x.ty, strings, rest);
    } else if x.LinkExtern? {
      EncodeLinkExtern(h, x, strings, rest);
    }
  }

  // ---- The whole file --------------------------------------------------------------------------------------

  /** The public items with their resolved names. */
  function Named(xs: seq<Item<Spur>>, strings: Strings): (ps: seq<(Str, Item<Spur>)>)
    requires AllPublic(xs)
    ensures |ps| == |xs| && forall i :: 0 <= i < |xs| ==> ps[i] == (Resolve(strings, ItemName(xs[i])), xs[i])
  {
    seq(|xs|, i requires 0 <= i < |xs| => (Resolve(strings, ItemName(xs[i])), xs[i]))
  }

  lemma {:induction false} PublicItemsMap<N, M>(f: N -> M, xs: seq<Item<N>>)
    ensures PublicItems(MapItems(f, xs)) == MapItems(f, PublicItems(xs))
  {
    if xs != [] {
      PublicItemsMap(f, xs[1..]);
      assert MapItems(f, xs)[1..] == MapItems(f, xs[1..]);
      assert IsPublic(MapItem(f, xs[0])) == IsPublic(xs[0]);
      if IsPublic(xs[0]) {
        assert PublicItems(xs) == [xs[0]] + PublicItems(xs[1..]);
      } else {
        assert PublicItems(xs) == PublicItems(xs[1..]);
      }
    }
  }

  method CollectPublic(ast: seq<Item<Spur>>, strings: Strings) returns (ps: seq<(Str, Item<Spur>)>)
    ensures ps == Named(PublicItems(ast), strings)
  {
    ps := [];
    for n := 0 to |ast|
      invariant ps + Named(PublicItems(ast[n..]), strings) == Named(PublicItems(ast), strings)
    {
      Tail(ast, n);
      ghost var before := ps;
      if IsPublic(ast[n]) {
        ps := ps + [(Resolve(strings, ItemName(ast[n])), ast[n])];
        NamedJoin([ast[n]], PublicItems(ast[n + 1..]), strings);
        assert Named([ast[n]], strings) == [(Resolve(strings, ItemName(ast[n])), ast[n])];
      } else {
        assert PublicItems(ast[n..]) == PublicItems(ast[n + 1..]);
      }
    }
  }

  lemma NamedJoin(xs: seq<Item<Spur>>, ys: seq<Item<Spur>>, strings: Strings)
    requires AllPublic(xs) && AllPublic(ys)
    ensures Named(xs + ys, strings) == Named(xs, strings) + Named(ys, strings)
  {}

  /** Sorting symbols' items by resolved name is sorting the resolved items. */
  lemma OrderedResolved(ast: seq<Item<Spur>>, strings: Strings)
    ensures MapItems(Resolver(strings), Seconds(Sort(Named(PublicItems(ast), strings)))) ==
      Ordered(MapItems(Resolver(strings), ast))
  {
    var f := Resolver(strings);
    var ps := Named(PublicItems(ast), strings);
    var g := (x: Item<Spur>) => MapItem(f, x);
    PublicItemsMap(f, ast);
    assert Keyed(PublicItems(MapItems(f, ast))) == MapSecond(g, ps);
    SortMaps(g, ps);
    assert MapItems(f, Seconds(Sort(ps))) == Seconds(MapSecond(g, Sort(ps)));
  }

  method EncodeItems(h: Hasher, xs: seq<Item<Spur>>, strings: Strings)
    modifies h
    ensures h.stream == old(h.stream) + EncItems(MapItems(Resolver(strings), xs), [])
  {
    ghost var f := Resolver(strings);
    assert MapItems(f, xs[0..]) == MapItems(f, xs);
    for n := 0 to |xs|
      invariant h.stream + EncItems(MapItems(f, xs[n..]), []) == old(h.stream) + EncItems(MapItems(f, xs), [])
    {
      Tail(xs, n);
      assert MapItems(f, xs[n..])[1..] == MapItems(f, xs[n + 1..]);
      EncodeItem(h, xs[n], strings, EncItems(MapItems(f, xs[n + 1..]), []));
    }
    assert h.stream + [] == h.stream;
  }

  /** The hasher receives exactly the stream of the resolved file. */
  method ComputeSigFp(ast: Vec<Item<Spur>>, strings: Strings) returns (h: Hasher)
    ensures fresh(h) && h.stream == Stream(MapItems(Resolver(strings), ast))
  {
    ghost var f := Resolver(strings);
    h := new Hasher();
    var items := CollectPublic(ast, strings);
    items := Sort(items);
    ghost var body := EncItems(Ordered(MapItems(f, ast)), []);
    PublicItemsMap(f, ast);
    OrderedResolved(ast, strings);
    h.Update(ToLE(SIG_FP_VERSION, 4), U64(|items|, body));
    h.UpdateU64(|items|, body);
    EncodeItems(h, Seconds(items), strings);
  }
}
