/** The stream of a whole file: public items sorted by name. Two files have the same stream exactly
    when they have the same public interface. */
module FileSignature {
  import opened Bytes
  import opened Ast
  import opened Signature

  // ---- Sorting by name --------------------------------------------------------------------------------

  /** Byte-wise lexicographic order. */
  predicate LexLe(a: Str, b: Str)
    decreases |a|
  {
    a == [] || (b != [] && (a[0] < b[0] || (a[0] == b[0] && LexLe(a[1..], b[1..]))))
  }

  lemma {:induction false} LexTotal(a: Str, b: Str)
    ensures LexLe(a, b) || LexLe(b, a)
    decreases |a|
  {
    if a != [] && b != [] && a[0] == b[0] {
      LexTotal(a[1..], b[1..]);
    }
  }

  lemma {:induction false} LexAntisymmetric(a: Str, b: Str)
    requires LexLe(a, b) && LexLe(b, a)
    ensures a == b
    decreases |a|
  {
    if a != [] {
      LexAntisymmetric(a[1..], b[1..]);
    }
  }

  lemma {:induction false} LexTransitive(a: Str, b: Str, c: Str)
    requires LexLe(a, b) && LexLe(b, c)
    ensures LexLe(a, c)
    decreases |a|
  {
    if a != [] && a[0] == c[0] {
      LexTransitive(a[1..], b[1..], c[1..]);
    }
  }

  /** In front of the first entry that is not smaller, so equal names keep their order. */
  function Insert<T>(p: (Str, T), ps: seq<(Str, T)>): seq<(Str, T)> {
    if ps == [] || LexLe(p.0, ps[0].0) then [p] + ps else [ps[0]] + Insert(p, ps[1..])
  }

  function Sort<T>(ps: seq<(Str, T)>): (r: seq<(Str, T)>)
    ensures |r| == |ps|
  {
    if ps == [] then []
    else
      InsertCount(ps[0], Sort(ps[1..]));
      Insert(ps[0], Sort(ps[1..]))
  }

  lemma {:induction false} InsertCount<T>(p: (Str, T), ps: seq<(Str, T)>)
    ensures |Insert(p, ps)| == |ps| + 1
  {
    if ps != [] {
      InsertCount(p, ps[1..]);
    }
  }

  ghost predicate Sorted<T>(ps: seq<(Str, T)>) {
    forall i, j :: 0 <= i < j < |ps| ==> LexLe(ps[i].0, ps[j].0)
  }

  lemma {:induction false} InsertKeeps<T>(p: (Str, T), ps: seq<(Str, T)>)
    ensures multiset(Insert(p, ps)) == multiset(ps) + multiset{p}
  {
    if ps != [] && !LexLe(p.0, ps[0].0) {
      InsertKeeps(p, ps[1..]);
      assert ps == [ps[0]] + ps[1..];
      assert multiset(Insert(p, ps)) == multiset{ps[0]} + multiset(Insert(p, ps[1..]));
    }
  }

  lemma InsertBelow<T>(p: (Str, T), ps: seq<(Str, T)>)
    requires Sorted(ps) && ps != [] && LexLe(p.0, ps[0].0)
    ensures Sorted([p] + ps)
  {
    var r := [p] + ps;
    forall i, j | 0 <= i < j < |r| ensures LexLe(r[i].0, r[j].0) {
      if i == 0 && j > 1 {
        LexTransitive(p.0, ps[0].0, ps[j - 1].0);
      }
    }
  }

  lemma InsertAbove<T>(p: (Str, T), q: (Str, T), ps: seq<(Str, T)>, rest: seq<(Str, T)>)
    requires Sorted([q] + ps) && Sorted(rest) && LexLe(q.0, p.0) && multiset(rest) == multiset(ps) + multiset{p}
    ensures Sorted([q] + rest)
  {
    var r := [q] + rest;
    forall i, j | 0 <= i < j < |r| ensures LexLe(r[i].0, r[j].0) {
      if i == 0 {
        assert r[j] == rest[j - 1] && rest[j - 1] in multiset(rest);
        if rest[j - 1] != p {
          assert rest[j - 1] in ps;
          var k :| 0 <= k < |ps| && ps[k] == rest[j - 1];
          var all := [q] + ps;
          assert all[0] == q && all[k + 1] == ps[k] && LexLe(all[0].0, all[k + 1].0);
        }
      } else {
        assert r[i] == rest[i - 1] && r[j] == rest[j - 1];
      }
    }
  }

  lemma {:induction false} InsertSorts<T>(p: (Str, T), ps: seq<(Str, T)>)
    requires Sorted(ps)
    ensures Sorted(Insert(p, ps))
  {
    if ps != [] {
      if LexLe(p.0, ps[0].0) {
        InsertBelow(p, ps);
      } else {
        LexTotal(p.0, ps[0].0);
        InsertSorts(p, ps[1..]);
        InsertKeeps(p, ps[1..]);
        assert ps == [ps[0]] + ps[1..];
        InsertAbove(p, ps[0], ps[1..], Insert(p, ps[1..]));
      }
    }
  }

  /** Sorting gives an ordered permutation. */
  lemma {:induction false} SortSorts<T>(ps: seq<(Str, T)>)
    ensures Sorted(Sort(ps)) && multiset(Sort(ps)) == multiset(ps)
  {
    if ps != [] {
      SortSorts(ps[1..]);
      InsertSorts(ps[0], Sort(ps[1..]));
      InsertKeeps(ps[0], Sort(ps[1..]));
      assert ps == [ps[0]] + ps[1..];
    }
  }

  ghost predicate DistinctNames<T>(ps: seq<(Str, T)>) {
    forall i, j :: 0 <= i < j < |ps| ==> ps[i].0 != ps[j].0
  }

  /** Entries with distinct names have one sorted order. */
  lemma {:induction false} SortedUnique<T>(a: seq<(Str, T)>, b: seq<(Str, T)>)
    requires Sorted(a) && Sorted(b) && DistinctNames(a) && multiset(a) == multiset(b)
    ensures a == b
  {
    if a == [] {
      assert |multiset(b)| == 0;
    } else {
      SameFirst(a, b);
      TailPermuted(a, b);
      SortedUnique(a[1..], b[1..]);
    }
  }

  lemma TailPermuted<T>(a: seq<T>, b: seq<T>)
    requires a != [] && b != [] && a[0] == b[0] && multiset(a) == multiset(b)
    ensures multiset(a[1..]) == multiset(b[1..]) && a == [a[0]] + a[1..] && b == [b[0]] + b[1..]
  {
    assert a == [a[0]] + a[1..] && b == [b[0]] + b[1..];
    assert multiset(a[1..]) == multiset(a) - multiset{a[0]};
    assert multiset(b[1..]) == multiset(b) - multiset{b[0]};
  }

  lemma SameFirst<T>(a: seq<(Str, T)>, b: seq<(Str, T)>)
    requires Sorted(a) && Sorted(b) && DistinctNames(a) && multiset(a) == multiset(b) && a != []
    ensures b != [] && a[0] == b[0]
  {
    assert |multiset(a)| == |multiset(b)|;
    assert a[0] in multiset(b) && b[0] in multiset(a);
    var i :| 0 <= i < |a| && a[i] == b[0];
    var j :| 0 <= j < |b| && b[j] == a[0];
    if i > 0 {
      assert LexLe(a[0].0, a[i].0);
      if j > 0 {
        assert LexLe(b[0].0, b[j].0);
        LexAntisymmetric(a[0].0, b[0].0);
      }
    }
  }

  /** Distinctness does not depend on the order. */
  lemma DistinctPermuted<T>(a: seq<(Str, T)>, b: seq<(Str, T)>)
    requires DistinctNames(a) && multiset(a) == multiset(b)
    ensures DistinctNames(b)
  {
    forall i, j | 0 <= i < j < |b| ensures b[i].0 != b[j].0 {
      assert b[i] in multiset(a) && b[j] in multiset(a);
      var k :| 0 <= k < |a| && a[k] == b[i];
      var l :| 0 <= l < |a| && a[l] == b[j];
      if k == l {
        Twice(b, i, j);
        Once(a, k);
      }
    }
  }

  lemma Twice<T>(s: seq<T>, i: nat, j: nat)
    requires i < j < |s| && s[i] == s[j]
    ensures multiset(s)[s[i]] >= 2
  {
    assert s == s[..j] + [s[j]] + s[j + 1..];
    assert s[..j][i] == s[i] && s[i] in multiset(s[..j]);
  }

  lemma Once<T>(a: seq<(Str, T)>, k: nat)
    requires DistinctNames(a) && k < |a|
    ensures multiset(a)[a[k]] == 1
  {
    assert a == a[..k] + [a[k]] + a[k + 1..];
    assert a[k] !in a[..k] && a[k] !in a[k + 1..];
  }

  // ---- Sorting looks at the names only --------------------------------------------------------------------

  function MapSecond<T, U>(f: T -> U, ps: seq<(Str, T)>): (r: seq<(Str, U)>)
    ensures |r| == |ps| && forall i :: 0 <= i < |ps| ==> r[i] == (ps[i].0, f(ps[i].1))
  {
    seq(|ps|, i requires 0 <= i < |ps| => (ps[i].0, f(ps[i].1)))
  }

  lemma {:induction false} InsertMaps<T, U>(f: T -> U, p: (Str, T), ps: seq<(Str, T)>)
    ensures Insert((p.0, f(p.1)), MapSecond(f, ps)) == MapSecond(f, Insert(p, ps))
  {
    if ps != [] && !LexLe(p.0, ps[0].0) {
      InsertMaps(f, p, ps[1..]);
      assert MapSecond(f, ps)[1..] == MapSecond(f, ps[1..]);
    }
  }

  lemma {:induction false} SortMaps<T, U>(f: T -> U, ps: seq<(Str, T)>)
    ensures Sort(MapSecond(f, ps)) == MapSecond(f, Sort(ps))
  {
    if ps != [] {
      SortMaps(f, ps[1..]);
      assert MapSecond(f, ps)[1..] == MapSecond(f, ps[1..]);
      InsertMaps(f, ps[0], Sort(ps[1..]));
    }
  }

  // ---- Items ----------------------------------------------------------------------------------------------

  /** Interfaces and derives always count; extern blocks and error nodes never do. */
  predicate IsPublic<N>(x: Item<N>) {
    match x
    case Function(p, _, _, _, _, _) => p
    case Struct(p, _, _, _) => p
    case Enum(p, _, _, _) => p
    case Interface(_, _) => true
    case Derive(_, _) => true
    case Const(p, _, _, _) => p
    case LinkExtern(_, _) => false
    case ErrorItem => false
  }

  function PublicItems<N>(xs: seq<Item<N>>): (r: seq<Item<N>>)
    ensures |r| <= |xs| && forall i :: 0 <= i < |r| ==> IsPublic(r[i])
  {
    if xs == [] then [] else (if IsPublic(xs[0]) then [xs[0]] else []) + PublicItems(xs[1..])
  }

  function PublicFields<N>(fs: seq<Field<N>>): (r: seq<Field<N>>)
    ensures |r| <= |fs|
  {
    if fs == [] then [] else (if fs[0].isPub then [fs[0]] else []) + PublicFields(fs[1..])
  }

  function PublicMethods<N>(ms: seq<Method<N>>): (r: seq<Method<N>>)
    ensures |r| <= |ms|
  {
    if ms == [] then [] else (if ms[0].isPub then [ms[0]] else []) + PublicMethods(ms[1..])
  }

  /** Count, then the methods. */
  function CountedMethods(ms: Vec<Method<Str>>, rest: seq<byte>): seq<byte> { U64(|ms|, EncMethods(ms, rest)) }

  function EncExtern(x: ExternFn<Str>, rest: seq<byte>): seq<byte> {
    EncStr(x.name, U64(|x.params|, EncParams(x.params, EncOption(x.returnType, rest))))
  }

  function EncExterns(xs: seq<ExternFn<Str>>, rest: seq<byte>): seq<byte> {
    if xs == [] then rest else EncExtern(xs[0], EncExterns(xs[1..], rest))
  }

  /** An extern block has an encoding, without a length for the library name, but is never collected. */
  function EncItem(x: Item<Str>, rest: seq<byte>): seq<byte> {
    match x
    case Function(_, u, n, ps, t, _) => Byte(1, EncStr(n, Flag(u, U64(|ps|, EncParams(ps, EncOption(t, rest))))))
    case Struct(_, n, fs, ms) =>
      var pub: Vec<Field<Str>> := PublicFields(fs);
      Byte(2, EncStr(n, U64(|pub|, EncFields(pub, CountedMethods(PublicMethods(ms), rest)))))
    case Enum(_, n, vs, ms) => Byte(3, EncStr(n, U64(|vs|, EncVariants(vs, CountedMethods(PublicMethods(ms), rest)))))
    case Interface(n, ms) => Byte(4, EncStr(n, U64(|ms|, EncSigs(ms, rest))))
    case Derive(n, ms) => Byte(5, EncStr(n, CountedMethods(ms, rest)))
    case Const(_, n, t, _) => Byte(6, EncStr(n, EncOption(t, rest)))
    case LinkExtern(n, xs) => Byte(7, n + Byte(0, EncExterns(xs, rest)))
    case ErrorItem => rest
  }

  /** The public interface of an item: private members dropped, bodies and visibility blanked. */
  function StripItem(x: Item<Str>): Item<Str> {
    match x
    case Function(_, u, n, ps, t, _) =>
      Function(true, u, n, EditParams(Blank(), ps), EditOption(Blank(), t), Literal(0))
    case Struct(_, n, fs, ms) =>
      Struct(true, n, EditFields(Blank(), PublicFields(fs)), EditMethods(Blank(), PublicMethods(ms)))
    case Enum(_, n, vs, ms) => Enum(true, n, EditVariants(Blank(), vs), EditMethods(Blank(), PublicMethods(ms)))
    case Interface(n, ms) => Interface(n, EditSigs(Blank(), ms))
    case Derive(n, ms) => Derive(n, EditMethods(Blank(), ms))
    case Const(_, n, t, _) => Const(true, n, EditOption(Blank(), t), Literal(0))
    case LinkExtern(_, _) => x
    case ErrorItem => x
  }

  function ItemTag(x: Item<Str>): byte {
    match x
    case Function(_, _, _, _, _, _) => 1 case Struct(_, _, _, _) => 2 case Enum(_, _, _, _) => 3
    case Interface(_, _) => 4 case Derive(_, _) => 5 case Const(_, _, _, _) => 6
    case LinkExtern(_, _) => 7 case ErrorItem => 0
  }

  /** What follows tag and name. */
  function ItemRest(x: Item<Str>, rest: seq<byte>): seq<byte> {
    match x
    case Function(_, u, _, ps, t, _) => Flag(u, U64(|ps|, EncParams(ps, EncOption(t, rest))))
    case Struct(_, _, fs, ms) =>
      var pub: Vec<Field<Str>> := PublicFields(fs);
      U64(|pub|, EncFields(pub, CountedMethods(PublicMethods(ms), rest)))
    case Enum(_, _, vs, ms) => U64(|vs|, EncVariants(vs, CountedMethods(PublicMethods(ms), rest)))
    case Interface(_, ms) => U64(|ms|, EncSigs(ms, rest))
    case Derive(_, ms) => CountedMethods(ms, rest)
    case Const(_, _, t, _) => EncOption(t, rest)
    case LinkExtern(_, _) => rest
    case ErrorItem => rest
  }

  function ItemName<N>(x: Item<N>): N
    requires IsPublic(x)
  {
    x.name
  }

  lemma CountedInjective(a: Vec<Method<Str>>, b: Vec<Method<Str>>, r: seq<byte>, s: seq<byte>)
    requires CountedMethods(a, r) == CountedMethods(b, s)
    ensures EditMethods(Blank(), a) == EditMethods(Blank(), b) && r == s
  {
    U64Injective(|a|, |b|, EncMethods(a, r), EncMethods(b, s));
    MethodsInjective(a, b, r, s);
  }

  lemma SameHead(a: Item<Str>, b: Item<Str>, r: seq<byte>, s: seq<byte>)
    requires IsPublic(a) && IsPublic(b) && EncItem(a, r) == EncItem(b, s)
    ensures ItemTag(a) == ItemTag(b) && ItemName(a) == ItemName(b) && ItemRest(a, r) == ItemRest(b, s)
  {
    assert EncItem(a, r) == Byte(ItemTag(a), EncStr(ItemName(a), ItemRest(a, r)));
    assert EncItem(b, s) == Byte(ItemTag(b), EncStr(ItemName(b), ItemRest(b, s)));
    ByteInjective(ItemTag(a), ItemTag(b), EncStr(ItemName(a), ItemRest(a, r)), EncStr(ItemName(b), ItemRest(b, s)));
    StrInjective(ItemName(a), ItemName(b), ItemRest(a, r), ItemRest(b, s));
  }

  lemma ItemInjective(a: Item<Str>, b: Item<Str>, r: seq<byte>, s: seq<byte>)
    requires IsPublic(a) && IsPublic(b) && EncItem(a, r) == EncItem(b, s)
    ensures StripItem(a) == StripItem(b) && r == s
  {
    SameHead(a, b, r, s);
    if a.Function? {
      FunctionInjective(a, b, r, s);
    } else if a.Struct? {
      StructInjective(a, b, r, s);
    } else if a.Enum? {
      var x, y := CountedMethods(PublicMethods(a.methods), r), CountedMethods(PublicMethods(b.methods), s);
      U64Injective(|a.variants|, |b.variants|, EncVariants(a.variants, x), EncVariants(b.variants, y));
      VariantsInjective(a.variants, b.variants, x, y);
      CountedInjective(PublicMethods(a.methods), PublicMethods(b.methods), r, s);
    } else if a.Interface? {
      U64Injective(|a.sigs|, |b.sigs|, EncSigs(a.sigs, r), EncSigs(b.sigs, s));
      SigsInjective(a.sigs, b.sigs, r, s);
    } else if a.Derive? {
      CountedInjective(a.methods, b.methods, r, s);
    } else {
      OptionInjective(a.ty, b.ty, r, s);
    }
  }

  lemma FunctionInjective(a: Item<Str>, b: Item<Str>, r: seq<byte>, s: seq<byte>)
    requires a.Function? && b.Function? && a.name == b.name && ItemRest(a, r) == ItemRest(b, s)
    ensures StripItem(a) == StripItem(b) && r == s
  {
    var o, p := EncOption(a.returnType, r), EncOption(b.returnType, s);
    FlagInjective(a.isUnchecked, b.isUnchecked, U64(|a.params|, EncParams(a.params, o)),
      U64(|b.params|, EncParams(b.params, p)));
    U64Injective(|a.params|, |b.params|, EncParams(a.params, o), EncParams(b.params, p));
    ParamsInjective(a.params, b.params, o, p);
    OptionInjective(a.returnType, b.returnType, r, s);
  }

  lemma StructInjective(a: Item<Str>, b: Item<Str>, r: seq<byte>, s: seq<byte>)
    requires a.Struct? && b.Struct? && a.name == b.name && ItemRest(a, r) == ItemRest(b, s)
    ensures StripItem(a) == StripItem(b) && r == s
  {
    var fs, gs := PublicFields(a.fields), PublicFields(b.fields);
    var x, y := CountedMethods(PublicMethods(a.methods), r), CountedMethods(PublicMethods(b.methods), s);
    U64Injective(|fs|, |gs|, EncFields(fs, x), EncFields(gs, y));
    FieldsInjective(fs, gs, x, y);
    CountedInjective(PublicMethods(a.methods), PublicMethods(b.methods), r, s);
  }

  // ---- Equal interfaces give equal bytes --------------------------------------------------------------------

  lemma CountedSame(a: Vec<Method<Str>>, b: Vec<Method<Str>>, r: seq<byte>)
    requires EditMethods(Blank(), a) == EditMethods(Blank(), b)
    ensures CountedMethods(a, r) == CountedMethods(b, r)
  {
    EncEditMethods(Blank(), a, r);
    EncEditMethods(Blank(), b, r);
    assert |a| == |EditMethods(Blank(), a)| == |EditMethods(Blank(), b)| == |b|;
  }

  lemma ItemSame(a: Item<Str>, b: Item<Str>, r: seq<byte>)
    requires IsPublic(a) && IsPublic(b) && StripItem(a) == StripItem(b)
    ensures EncItem(a, r) == EncItem(b, r)
  {
    if a.Function? {
      EncEditOption(Blank(), a.returnType, r);
      EncEditOption(Blank(), b.returnType, r);
      EncEditParams(Blank(), a.params, EncOption(a.returnType, r));
      EncEditParams(Blank(), b.params, EncOption(a.returnType, r));
      assert |a.params| == |EditParams(Blank(), a.params)| == |b.params|;
    } else if a.Struct? {
      StructSame(a, b, r);
    } else if a.Enum? {
      CountedSame(PublicMethods(a.methods), PublicMethods(b.methods), r);
      var x := CountedMethods(PublicMethods(a.methods), r);
      EncEditVariants(Blank(), a.variants, x);
      EncEditVariants(Blank(), b.variants, x);
      assert |a.variants| == |EditVariants(Blank(), a.variants)| == |b.variants|;
    } else if a.Interface? {
      EncEditSigs(Blank(), a.sigs, r);
      EncEditSigs(Blank(), b.sigs, r);
      assert |a.sigs| == |EditSigs(Blank(), a.sigs)| == |b.sigs|;
    } else if a.Derive? {
      CountedSame(a.methods, b.methods, r);
    } else {
      EncEditOption(Blank(), a.ty, r);
      EncEditOption(Blank(), b.ty, r);
    }
  }

  lemma StructSame(a: Item<Str>, b: Item<Str>, r: seq<byte>)
    requires a.Struct? && b.Struct? && StripItem(a) == StripItem(b)
    ensures EncItem(a, r) == EncItem(b, r)
  {
    var fs, gs := PublicFields(a.fields), PublicFields(b.fields);
    CountedSame(PublicMethods(a.methods), PublicMethods(b.methods), r);
    var x := CountedMethods(PublicMethods(a.methods), r);
    EncEditFields(Blank(), fs, x);
    EncEditFields(Blank(), gs, x);
    assert |fs| == |EditFields(Blank(), fs)| == |gs|;
  }

  // ---- The file ---------------------------------------------------------------------------------------------

  function EncItems(xs: seq<Item<Str>>, rest: seq<byte>): seq<byte> {
    if xs == [] then rest else EncItem(xs[0], EncItems(xs[1..], rest))
  }

  function Strips(xs: seq<Item<Str>>): (r: seq<Item<Str>>)
    ensures |r| == |xs| && forall i :: 0 <= i < |xs| ==> r[i] == StripItem(xs[i])
  {
    seq(|xs|, i requires 0 <= i < |xs| => StripItem(xs[i]))
  }

  predicate AllPublic<N>(xs: seq<Item<N>>) { forall i :: 0 <= i < |xs| ==> IsPublic(xs[i]) }

  function Keyed(xs: seq<Item<Str>>): (r: seq<(Str, Item<Str>)>)
    requires AllPublic(xs)
    ensures |r| == |xs| && forall i :: 0 <= i < |xs| ==> r[i] == (ItemName(xs[i]), xs[i])
  {
    seq(|xs|, i requires 0 <= i < |xs| => (ItemName(xs[i]), xs[i]))
  }

  function Seconds<T>(ps: seq<(Str, T)>): (r: seq<T>)
    ensures |r| == |ps| && forall i :: 0 <= i < |ps| ==> r[i] == ps[i].1
  {
    seq(|ps|, i requires 0 <= i < |ps| => ps[i].1)
  }

  /** The public items in the order of their names. */
  function Ordered(xs: seq<Item<Str>>): seq<Item<Str>> { Seconds(Sort(Keyed(PublicItems(xs)))) }

  const SIG_FP_VERSION: nat := 2

  /** What the hasher is fed: version, number of public items, the items. */
  function Stream(ast: Vec<Item<Str>>): seq<byte> {
    ToLE(SIG_FP_VERSION, 4) + U64(|PublicItems(ast)|, EncItems(Ordered(ast), []))
  }

  /** The public interface of a file. */
  function PublicInterface(ast: seq<Item<Str>>): seq<Item<Str>> { Strips(Ordered(ast)) }

  lemma OrderedPublic(xs: seq<Item<Str>>)
    ensures AllPublic(Ordered(xs)) && |Ordered(xs)| == |PublicItems(xs)|
  {
    var ps := Keyed(PublicItems(xs));
    SortSorts(ps);
    forall i | 0 <= i < |Sort(ps)| ensures IsPublic(Sort(ps)[i].1) {
      assert Sort(ps)[i] in multiset(ps);
    }
  }

  lemma {:induction false} ItemsInjective(a: seq<Item<Str>>, b: seq<Item<Str>>, r: seq<byte>, s: seq<byte>)
    requires AllPublic(a) && AllPublic(b) && |a| == |b| && EncItems(a, r) == EncItems(b, s)
    ensures Strips(a) == Strips(b) && r == s
  {
    if a != [] {
      ItemInjective(a[0], b[0], EncItems(a[1..], r), EncItems(b[1..], s));
      ItemsInjective(a[1..], b[1..], r, s);
      assert Strips(a) == [StripItem(a[0])] + Strips(a[1..]) && Strips(b) == [StripItem(b[0])] + Strips(b[1..]);
    }
  }

  lemma {:induction false} ItemsSame(a: seq<Item<Str>>, b: seq<Item<Str>>, r: seq<byte>)
    requires AllPublic(a) && AllPublic(b) && Strips(a) == Strips(b)
    ensures EncItems(a, r) == EncItems(b, r)
  {
    assert |a| == |Strips(a)| == |Strips(b)| == |b|;
    if a != [] {
      assert Strips(a)[0] == StripItem(a[0]) && Strips(b)[0] == StripItem(b[0]);
      assert Strips(a[1..]) == Strips(a)[1..] && Strips(b[1..]) == Strips(b)[1..];
      ItemsSame(a[1..], b[1..], r);
      ItemSame(a[0], b[0], EncItems(a[1..], r));
    }
  }

  /** Two files have the same signature stream exactly when they have the same public interface. */
  lemma SignatureExact(a: Vec<Item<Str>>, b: Vec<Item<Str>>)
    ensures Stream(a) == Stream(b) <==> PublicInterface(a) == PublicInterface(b)
  {
    OrderedPublic(a);
    OrderedPublic(b);
    var x, y := EncItems(Ordered(a), []), EncItems(Ordered(b), []);
    var m, n := |PublicItems(a)|, |PublicItems(b)|;
    if Stream(a) == Stream(b) {
      SplitAt(ToLE(SIG_FP_VERSION, 4), ToLE(SIG_FP_VERSION, 4), U64(m, x), U64(n, y));
      U64Injective(m, n, x, y);
      ItemsInjective(Ordered(a), Ordered(b), [], []);
    }
    if PublicInterface(a) == PublicInterface(b) {
      ItemsSame(Ordered(a), Ordered(b), []);
      assert m == |PublicInterface(a)| == |PublicInterface(b)| == n;
    }
  }

  // ---- What the stream does not see ---------------------------------------------------------------------------

  lemma StripsPublic(xs: seq<Item<Str>>)
    requires AllPublic(xs)
    ensures AllPublic(Strips(xs)) && Keyed(Strips(xs)) == MapSecond(StripItem, Keyed(xs))
  {}

  /** The interface is the stripped public items, sorted. */
  lemma InterfaceOfStrips(xs: seq<Item<Str>>)
    ensures AllPublic(Strips(PublicItems(xs)))
    ensures PublicInterface(xs) == Seconds(Sort(Keyed(Strips(PublicItems(xs)))))
  {
    var ps := Keyed(PublicItems(xs));
    StripsPublic(PublicItems(xs));
    SortMaps(StripItem, ps);
    assert Strips(Seconds(Sort(ps))) == Seconds(MapSecond(StripItem, Sort(ps)));
  }

  lemma {:induction false} KeyedCount(xs: seq<Item<Str>>, p: (Str, Item<Str>))
    requires AllPublic(xs)
    ensures multiset(Keyed(xs))[p] == if IsPublic(p.1) && p.0 == ItemName(p.1) then multiset(xs)[p.1] else 0
  {
    if xs != [] {
      KeyedCount(xs[1..], p);
      CountHead(xs, p.1);
      CountHead(Keyed(xs), p);
      assert Keyed(xs)[1..] == Keyed(xs[1..]);
    }
  }

  lemma CountHead<T>(s: seq<T>, x: T)
    requires s != []
    ensures multiset(s)[x] == multiset(s[1..])[x] + if s[0] == x then 1 else 0
  {
    assert s == [s[0]] + s[1..];
  }

  lemma KeyedPermuted(xs: seq<Item<Str>>, ys: seq<Item<Str>>)
    requires AllPublic(xs) && AllPublic(ys) && multiset(xs) == multiset(ys)
    ensures multiset(Keyed(xs)) == multiset(Keyed(ys))
  {
    forall p ensures multiset(Keyed(xs))[p] == multiset(Keyed(ys))[p] {
      KeyedCount(xs, p);
      KeyedCount(ys, p);
    }
  }

  /** Whatever order the public items come in, if their names are distinct and their interfaces are
      the same, the stream is the same. */
  lemma OrderIsIrrelevant(a: Vec<Item<Str>>, b: Vec<Item<Str>>)
    requires multiset(Strips(PublicItems(a))) == multiset(Strips(PublicItems(b)))
    requires DistinctNames(Keyed(PublicItems(a)))
    ensures Stream(a) == Stream(b)
  {
    InterfaceOfStrips(a);
    InterfaceOfStrips(b);
    StripsPublic(PublicItems(a));
    var ps, qs := Keyed(Strips(PublicItems(a))), Keyed(Strips(PublicItems(b)));
    KeyedPermuted(Strips(PublicItems(a)), Strips(PublicItems(b)));
    assert DistinctNames(ps);
    SortSorts(ps);
    SortSorts(qs);
    DistinctPermuted(ps, Sort(ps));
    SortedUnique(Sort(ps), Sort(qs));
    SignatureExact(a, b);
  }

  /** Both items are invisible, or both are public and look alike from outside. */
  ghost predicate LookAlike(x: Item<Str>, y: Item<Str>) {
    (!IsPublic(x) && !IsPublic(y)) || (IsPublic(x) && IsPublic(y) && StripItem(x) == StripItem(y))
  }

  lemma {:induction false} AlikeStrips(a: seq<Item<Str>>, b: seq<Item<Str>>)
    requires |a| == |b| && forall i :: 0 <= i < |a| ==> LookAlike(a[i], b[i])
    ensures Strips(PublicItems(a)) == Strips(PublicItems(b))
  {
    if a != [] {
      assert LookAlike(a[0], b[0]);
      AlikeStrips(a[1..], b[1..]);
      StripsJoin(if IsPublic(a[0]) then [a[0]] else [], PublicItems(a[1..]));
      StripsJoin(if IsPublic(b[0]) then [b[0]] else [], PublicItems(b[1..]));
    }
  }

  lemma StripsJoin(xs: seq<Item<Str>>, ys: seq<Item<Str>>)
    ensures Strips(xs + ys) == Strips(xs) + Strips(ys)
  {}

  /** Edits item by item that keep every public item's interface keep the stream, even if names repeat. */
  lemma AlikeSameStream(a: Vec<Item<Str>>, b: Vec<Item<Str>>)
    requires |a| == |b| && forall i :: 0 <= i < |a| ==> LookAlike(a[i], b[i])
    ensures Stream(a) == Stream(b)
  {
    AlikeStrips(a, b);
    InterfaceOfStrips(a);
    InterfaceOfStrips(b);
    SignatureExact(a, b);
  }

  lemma {:induction false} PublicJoin<N>(xs: seq<Item<N>>, ys: seq<Item<N>>)
    ensures PublicItems(xs + ys) == PublicItems(xs) + PublicItems(ys)
  {
    if xs == [] {
      assert xs + ys == ys;
    } else {
      assert (xs + ys)[1..] == xs[1..] + ys;
      PublicJoin(xs[1..], ys);
    }
  }

  /** Adding or removing a private function, struct, enum or constant, or an extern block, anywhere. */
  lemma PrivateItemInvisible(xs: seq<Item<Str>>, x: Item<Str>, ys: seq<Item<Str>>)
    requires !IsPublic(x) && |xs + [x] + ys| < 0x1_0000_0000_0000_0000
    ensures Stream(xs + [x] + ys) == Stream(xs + ys)
  {
    PublicJoin(xs + [x], ys);
    PublicJoin(xs, [x]);
    PublicJoin(xs, ys);
    assert PublicItems([x]) == [];
    assert PublicItems(xs + [x] + ys) == PublicItems(xs + ys);
  }

  /** Every body in the item, at any depth of nested types, replaced by another. */
  function EditItem<N>(e: Edit<N>, x: Item<N>): Item<N> {
    match x
    case Function(p, u, n, ps, t, body) => Function(p, u, n, EditParams(e, ps), EditOption(e, t), e.body(body))
    case Struct(p, n, fs, ms) => Struct(p, n, EditFields(e, fs), EditMethods(e, ms))
    case Enum(p, n, vs, ms) => Enum(p, n, EditVariants(e, vs), EditMethods(e, ms))
    case Interface(n, ms) => Interface(n, EditSigs(e, ms))
    case Derive(n, ms) => Derive(n, EditMethods(e, ms))
    case Const(p, n, t, init) => Const(p, n, EditOption(e, t), e.body(init))
    case LinkExtern(_, _) => x
    case ErrorItem => x
  }

  ghost predicate KeepsVisibility<N>(e: Edit<N>) { forall b :: e.isPub(b) == b }

  lemma {:induction false} PublicFieldsEdit<N>(e: Edit<N>, fs: seq<Field<N>>)
    requires KeepsVisibility(e)
    ensures PublicFields(EditFields(e, fs)) == EditFields(e, PublicFields(fs))
  {
    if fs != [] {
      PublicFieldsEdit(e, fs[1..]);
      assert EditFields(e, fs)[1..] == EditFields(e, fs[1..]);
      assert e.isPub(fs[0].isPub) == fs[0].isPub;
      if fs[0].isPub {
        assert PublicFields(fs)[0] == fs[0] && PublicFields(fs)[1..] == PublicFields(fs[1..]);
      } else {
        assert PublicFields(fs) == PublicFields(fs[1..]);
      }
    }
  }

  lemma {:induction false} PublicMethodsEdit<N>(e: Edit<N>, ms: seq<Method<N>>)
    requires KeepsVisibility(e)
    ensures PublicMethods(EditMethods(e, ms)) == EditMethods(e, PublicMethods(ms))
  {
    if ms != [] {
      PublicMethodsEdit(e, ms[1..]);
      assert EditMethods(e, ms)[1..] == EditMethods(e, ms[1..]);
      assert e.isPub(ms[0].isPub) == ms[0].isPub;
      if ms[0].isPub {
        assert PublicMethods(ms)[0] == ms[0] && PublicMethods(ms)[1..] == PublicMethods(ms[1..]);
      } else {
        assert PublicMethods(ms) == PublicMethods(ms[1..]);
      }
    }
  }

  lemma CountedEdit(e: Edit<Str>, ms: Vec<Method<Str>>, rest: seq<byte>)
    ensures CountedMethods(EditMethods(e, ms), rest) == CountedMethods(ms, rest)
  {
    EncEditMethods(e, ms, rest);
  }

  lemma EncEditItem(e: Edit<Str>, x: Item<Str>, rest: seq<byte>)
    requires KeepsVisibility(e)
    ensures EncItem(EditItem(e, x), rest) == EncItem(x, rest)
  {
    if x.Function? {
      EncEditOption(e, x.returnType, rest);
      EncEditParams(e, x.params, EncOption(x.returnType, rest));
    } else if x.Struct? {
      PublicFieldsEdit(e, x.fields);
      PublicMethodsEdit(e, x.methods);
      CountedEdit(e, PublicMethods(x.methods), rest);
      EncEditFields(e, PublicFields(x.fields), CountedMethods(PublicMethods(x.methods), rest));
    } else if x.Enum? {
      PublicMethodsEdit(e, x.methods);
      CountedEdit(e, PublicMethods(x.methods), rest);
      EncEditVariants(e, x.variants, CountedMethods(PublicMethods(x.methods), rest));
    } else if x.Interface? {
      EncEditSigs(e, x.sigs, rest);
    } else if x.Derive? {
      CountedEdit(e, x.methods, rest);
    } else if x.Const? {
      EncEditOption(e, x.ty, rest);
    }
  }

  /** Rewriting any bodies or constant initializers, of public or private items, at any depth. */
  lemma BodiesInvisible(e: Edit<Str>, ast: Vec<Item<Str>>, edited: Vec<Item<Str>>)
    requires KeepsVisibility(e)
    requires |edited| == |ast| && forall i :: 0 <= i < |ast| ==> edited[i] == EditItem(e, ast[i])
    ensures Stream(edited) == Stream(ast)
  {
    forall i | 0 <= i < |ast| ensures LookAlike(edited[i], ast[i]) {
      assert IsPublic(edited[i]) == IsPublic(ast[i]);
      if IsPublic(ast[i]) {
        EncEditItem(e, ast[i], []);
        ItemInjective(edited[i], ast[i], [], []);
      }
    }
    AlikeSameStream(edited, ast);
  }

  /** Changing, adding or removing private fields and private methods of a struct. */
  lemma PrivateMembersInvisible(xs: seq<Item<Str>>, x: Item<Str>, y: Item<Str>, ys: seq<Item<Str>>)
    requires |xs + [x] + ys| < 0x1_0000_0000_0000_0000
    requires x.Struct? && y.Struct? && x.isPub == y.isPub && x.name == y.name
    requires PublicFields(x.fields) == PublicFields(y.fields) && PublicMethods(x.methods) == PublicMethods(y.methods)
    ensures Stream(xs + [x] + ys) == Stream(xs + [y] + ys)
  {
    var a, b := xs + [x] + ys, xs + [y] + ys;
    forall i | 0 <= i < |a| ensures LookAlike(a[i], b[i]) {
      assert i != |xs| ==> a[i] == b[i];
    }
    AlikeSameStream(a, b);
  }
}
