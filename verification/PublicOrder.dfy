/** What counts as public, in which order it is written, and the bytes of a small file. */
module PublicOrder {
  import opened Bytes
  import opened Ast
  import opened Signature
  import opened FileSignature

  // ---- Marks -------------------------------------------------------------------------------------------

  /** Functions, structs, enums and constants are public by their mark, interfaces and derives always,
      extern blocks and error nodes never. */
  lemma MarksDecide<N>(x: Item<N>)
    ensures x.Function? || x.Struct? || x.Enum? || x.Const? ==> (IsPublic(x) <==> x.isPub)
    ensures x.Interface? || x.Derive? ==> IsPublic(x)
    ensures x.LinkExtern? || x.ErrorItem? ==> !IsPublic(x)
  {}

  lemma {:induction false} FieldsJoin<N>(xs: seq<Field<N>>, ys: seq<Field<N>>)
    ensures PublicFields(xs + ys) == PublicFields(xs) + PublicFields(ys)
  {
    if xs == [] {
      assert xs + ys == ys;
    } else {
      FieldsJoin(xs[1..], ys);
      assert (xs + ys)[1..] == xs[1..] + ys;
      Assoc(if xs[0].isPub then [xs[0]] else [], PublicFields(xs[1..]), PublicFields(ys));
    }
  }

  /** A field is kept, in its place, exactly when it is marked public. */
  lemma FieldKept<N>(xs: seq<Field<N>>, f: Field<N>, ys: seq<Field<N>>)
    ensures PublicFields<N>([]) == []
    ensures PublicFields(xs + [f] + ys) == PublicFields(xs) + (if f.isPub then [f] else []) + PublicFields(ys)
  {
    FieldsJoin(xs + [f], ys);
    FieldsJoin(xs, [f]);
    assert [f][1..] == [];
  }

  lemma {:induction false} MethodsJoin<N>(xs: seq<Method<N>>, ys: seq<Method<N>>)
    ensures PublicMethods(xs + ys) == PublicMethods(xs) + PublicMethods(ys)
  {
    if xs == [] {
      assert xs + ys == ys;
    } else {
      MethodsJoin(xs[1..], ys);
      assert (xs + ys)[1..] == xs[1..] + ys;
      Assoc(if xs[0].isPub then [xs[0]] else [], PublicMethods(xs[1..]), PublicMethods(ys));
    }
  }

  lemma MethodKept<N>(xs: seq<Method<N>>, m: Method<N>, ys: seq<Method<N>>)
    ensures PublicMethods<N>([]) == []
    ensures PublicMethods(xs + [m] + ys) == PublicMethods(xs) + (if m.isPub then [m] else []) + PublicMethods(ys)
  {
    MethodsJoin(xs + [m], ys);
    MethodsJoin(xs, [m]);
    assert [m][1..] == [];
  }

  lemma {:induction false} ItemKept<N>(xs: seq<Item<N>>, x: Item<N>, ys: seq<Item<N>>)
    ensures PublicItems<N>([]) == []
    ensures PublicItems(xs + [x] + ys) == PublicItems(xs) + (if IsPublic(x) then [x] else []) + PublicItems(ys)
  {
    PublicJoin(xs + [x], ys);
    PublicJoin(xs, [x]);
  }

  /** Adding a public field to a struct changes the interface that the stream determines. */
  lemma PublicFieldSeen(x: Item<Str>, before: seq<Field<Str>>, f: Field<Str>, after: seq<Field<Str>>)
    requires x.Struct? && f.isPub && x.fields == before + after && |before + [f] + after| < 0x1_0000_0000_0000_0000
    ensures StripItem(x.(fields := before + [f] + after)) != StripItem(x)
  {
    var y := x.(fields := before + [f] + after);
    FieldKept(before, f, after);
    FieldsJoin(before, after);
    assert |PublicFields(y.fields)| == |PublicFields(x.fields)| + 1;
    assert |StripItem(y).fields| == |StripItem(x).fields| + 1;
  }

  // ---- Order -------------------------------------------------------------------------------------------

  /** The order is the lexicographic one: a prefix, or smaller at the first difference. */
  ghost predicate DiffersAt(a: Str, b: Str, i: nat) {
    i < |a| && i < |b| && a[..i] == b[..i] && a[i] < b[i]
  }

  lemma {:induction false} LexExact(a: Str, b: Str)
    ensures LexLe(a, b) <==> a <= b || exists i :: DiffersAt(a, b, i)
    decreases |a|
  {
    if a != [] && b != [] && a[0] == b[0] {
      LexExact(a[1..], b[1..]);
      assert a <= b <==> a[1..] <= b[1..];
      if i: nat :| DiffersAt(a[1..], b[1..], i) {
        assert a[..i + 1] == [a[0]] + a[1..][..i] && b[..i + 1] == [b[0]] + b[1..][..i];
        assert DiffersAt(a, b, i + 1);
      }
      if i: nat :| DiffersAt(a, b, i) {
        assert a[..i] == [a[0]] + a[1..][..i - 1] && b[..i] == [b[0]] + b[1..][..i - 1];
        assert a[..i][1..] == b[..i][1..];
        assert DiffersAt(a[1..], b[1..], i - 1);
      }
    } else if a != [] && b != [] {
      assert a[0] < b[0] ==> DiffersAt(a, b, 0);
    }
  }

  function OfName<T>(n: Str, ps: seq<(Str, T)>): seq<T> {
    if ps == [] then [] else IfNamed(n, ps[0]) + OfName(n, ps[1..])
  }

  function IfNamed<T>(n: Str, p: (Str, T)): seq<T> { if p.0 == n then [p.1] else [] }

  lemma OfNameCons<T>(n: Str, p: (Str, T), ps: seq<(Str, T)>)
    ensures OfName(n, [p] + ps) == IfNamed(n, p) + OfName(n, ps)
  {
    assert ([p] + ps)[1..] == ps;
  }

  lemma {:induction false} InsertStable<T>(n: Str, p: (Str, T), ps: seq<(Str, T)>)
    ensures OfName(n, Insert(p, ps)) == IfNamed(n, p) + OfName(n, ps)
  {
    OfNameCons(n, p, ps);
    if ps != [] && !LexLe(p.0, ps[0].0) {
      InsertStable(n, p, ps[1..]);
      OfNameCons(n, ps[0], Insert(p, ps[1..]));
      LexReflexive(p.0);
      assert IfNamed(n, p) == [] || IfNamed(n, ps[0]) == [];
    }
  }

  lemma {:induction false} LexReflexive(a: Str)
    ensures LexLe(a, a)
    decreases |a|
  {
    if a != [] {
      LexReflexive(a[1..]);
    }
  }

  /** Entries of one name keep their order. */
  lemma {:induction false} SortStable<T>(n: Str, ps: seq<(Str, T)>)
    ensures OfName(n, Sort(ps)) == OfName(n, ps)
  {
    if ps != [] {
      SortStable(n, ps[1..]);
      InsertStable(n, ps[0], Sort(ps[1..]));
    }
  }

  // ---- Bytes -------------------------------------------------------------------------------------------

  /** An empty file: version 2 in four bytes, no items in eight. */
  lemma EmptyStream()
    ensures Stream([]) == [2, 0, 0, 0, 0, 0, 0, 0, 0, 0, 0, 0]
  {
    assert PublicItems<Str>([]) == [];
    var none := Keyed([]);
    assert Sort(none) == [] && Ordered([]) == [];
    assert ToLE(2, 4) == [2, 0, 0, 0];
    ZeroCount();
  }

  lemma ZeroCount()
    ensures ToLE(0, 8) == [0, 0, 0, 0, 0, 0, 0, 0]
  {
    assert ToLE(0, 4) == [0, 0, 0, 0];
    assert ToLE(0, 8) == [0, 0, 0, 0] + ToLE(0, 4);
  }

  /** Parameter modes are written 0 and 3, receivers 0, 1 and 2. */
  lemma ModeBytes()
    ensures ModeByte(Normal) == 0 && ModeByte(Comptime) == 3
    ensures SelfByte(ByValue) == 0 && SelfByte(MutRef) == 1 && SelfByte(Ref) == 2
  {}
}
