/** Names of specialized functions: the mangler, and when distinct keys get distinct names. */
module Mangling {
  import opened Bytes
  import opened Types
  import opened Decimal
  import opened Air
  import P = Patterns

  function MangleType(t: Type): string { "__" + TypeName(t) + "#" + ToDec(AsU32(t)) }

  function Magnitude(n: int): nat { if n < 0 then -n else n }

  /** Everything after `__v`. */
  function ValueCode(v: ConstValue): string {
    match v
    case Integer(n) => if n < 0 then "im" + ToDec(Magnitude(n)) else "i" + ToDec(Magnitude(n))
    case Boolean(b) => if b then "b1" else "b0"
    case TypeValue(t) => "t" + ToDec(AsU32(t))
    case ComptimeStr(index) => "s" + ToDec(index)
    case UnitValue => "u"
    case Opaque(debug) => "x" + debug
  }

  function MangleValue(v: ConstValue): string { "__v" + ValueCode(v) }

  function TypesSuffix(ts: seq<Type>): string {
    if ts == [] then [] else MangleType(ts[0]) + TypesSuffix(ts[1..])
  }

  function ValuesSuffix(vs: seq<ConstValue>): string {
    if vs == [] then [] else MangleValue(vs[0]) + ValuesSuffix(vs[1..])
  }

  function Mangle(k: Key): string { k.base + TypesSuffix(k.typeArgs) + ValuesSuffix(k.valueArgs) }

  // ---- The mangler -----------------------------------------------------------------------------

  method MangleSpecializedName(base: string, typeArgs: seq<Type>, valueArgs: seq<ConstValue>) returns (mangled: string)
    ensures mangled == Mangle(Key(base, typeArgs, valueArgs))
  {
    mangled := base;
    for i := 0 to |typeArgs|
      invariant mangled + TypesSuffix(typeArgs[i..]) == base + TypesSuffix(typeArgs)
    {
      Tail(typeArgs, i);
      Assoc(mangled, MangleType(typeArgs[i]), TypesSuffix(typeArgs[i + 1..]));
      mangled := mangled + MangleType(typeArgs[i]);
    }
    assert mangled == base + TypesSuffix(typeArgs);
    ghost var done := mangled;
    for i := 0 to |valueArgs|
      invariant mangled + ValuesSuffix(valueArgs[i..]) == done + ValuesSuffix(valueArgs)
    {
      Tail(valueArgs, i);
      Assoc(mangled, MangleValue(valueArgs[i]), ValuesSuffix(valueArgs[i + 1..]));
      mangled := mangled + MangleValue(valueArgs[i]);
    }
  }

  /** One argument of every kind. */
  lemma MangleTypeExample()
    ensures MangleType(Prim(I32)) == "__i32#2"
  {
    assert ToDec(2) == "2";
  }

  lemma MangleStructExample()
    ensures MangleType(Struct(1)) == "__<struct>#356"
  {
    assert AsU32(Struct(1)) == 356 && ToDec(35) == "35";
    assert ToDec(356) == ToDec(35) + "6";
  }

  lemma MangleNumberExample()
    ensures MangleValue(Integer(-3)) == "__vim3" && MangleValue(Integer(7)) == "__vi7"
    ensures MangleValue(ConstValue.ComptimeStr(4)) == "__vs4"
  {
    assert ToDec(3) == "3" && ToDec(7) == "7" && ToDec(4) == "4";
  }

  lemma MangleValueExample()
    ensures MangleValue(Boolean(true)) == "__vb1" && MangleValue(Boolean(false)) == "__vb0"
    ensures MangleValue(UnitValue) == "__vu" && MangleValue(TypeValue(Prim(Bool))) == "__vt13"
    ensures MangleValue(Opaque("e")) == "__vxe"
  {
    assert ToDec(13) == "13";
  }

  // ---- Cutting a name at its first `#` ----------------------------------------------------------

  predicate NoHash(s: string) { '#' !in s }

  /** Where the first `#` is. */
  function HashAt(s: string): nat {
    if s == [] || s[0] == '#' then 0 else 1 + HashAt(s[1..])
  }

  lemma {:induction false} HashAtEnd(a: string, r: string)
    requires NoHash(a)
    ensures HashAt(a + "#" + r) == |a|
  {
    if a == [] {
      assert (a + "#" + r)[0] == '#';
    } else {
      assert a[0] in a;
      assert (a + "#" + r)[0] == a[0];
      assert (a + "#" + r)[1..] == a[1..] + "#" + r;
      HashAtEnd(a[1..], r);
    }
  }

  lemma CutAtHash(a: string, b: string, r: string, s: string)
    requires NoHash(a) && NoHash(b) && a + "#" + r == b + "#" + s
    ensures a == b && r == s
  {
    var x := a + "#" + r;
    HashAtEnd(a, r);
    HashAtEnd(b, s);
    assert a == x[..|a|] && r == x[|a| + 1..];
    assert b == (b + "#" + s)[..|b|] && s == (b + "#" + s)[|b| + 1..];
  }

  lemma PrimNameShape(p: Prim)
    ensures |PrimName(p)| > 0 && NoHash(PrimName(p)) && PrimName(p)[0] != 'v'
  {}

  /** No type name has a `#`, and none starts with `v`. */
  lemma TypeNameShape(t: Type)
    ensures |TypeName(t)| > 0 && NoHash(TypeName(t)) && TypeName(t)[0] != 'v'
  {
    if t.Prim? {
      PrimNameShape(t.prim);
    }
  }

  /** What may follow a numeral: nothing, or the next argument. */
  predicate Boundary(s: string) { s == [] || s[0] == '_' }

  lemma SuffixBoundary(ts: seq<Type>, vs: seq<ConstValue>)
    ensures Boundary(TypesSuffix(ts) + ValuesSuffix(vs)) && Boundary(ValuesSuffix(vs))
  {
    assert ts == [] ==> TypesSuffix(ts) + ValuesSuffix(vs) == ValuesSuffix(vs);
  }

  /** `base__name#digits` followed by more, split at the `#`. */
  lemma SplitTypeArgument(t: Type, base: string, rest: string)
    ensures base + (MangleType(t) + rest) == (base + ("__" + TypeName(t))) + "#" + (ToDec(AsU32(t)) + rest)
  {}

  lemma NoHashJoin(a: string, t: Type)
    requires NoHash(a)
    ensures NoHash(a + ("__" + TypeName(t)))
  {
    TypeNameShape(t);
  }

  /** A type argument is recovered together with what surrounds it. */
  lemma TypeArgument(s: Type, t: Type, a: string, b: string, r: string, q: string)
    requires NoHash(a) && NoHash(b) && Boundary(r) && Boundary(q) && Encodable(s) && Encodable(t)
    requires a + (MangleType(s) + r) == b + (MangleType(t) + q)
    ensures s == t && r == q && a == b
  {
    SplitTypeArgument(s, a, r);
    SplitTypeArgument(t, b, q);
    NoHashJoin(a, s);
    NoHashJoin(b, t);
    var x, y := "__" + TypeName(s), "__" + TypeName(t);
    CutAtHash(a + x, b + y, ToDec(AsU32(s)) + r, ToDec(AsU32(t)) + q);
    NumeralPrefix(AsU32(s), AsU32(t), r, q);
    AsU32Injective(s, t);
    DropSuffix(x, a, b);
  }

  // ---- Values -----------------------------------------------------------------------------------

  /** The values that the mangler writes in full. */
  predicate PlainValue(v: ConstValue) { !v.Opaque? && (v.TypeValue? ==> Encodable(v.t)) }

  predicate PlainValues(vs: seq<ConstValue>) { forall i :: 0 <= i < |vs| ==> PlainValue(vs[i]) }

  predicate PlainTypes(ts: seq<Type>) { forall i :: 0 <= i < |ts| ==> Encodable(ts[i]) }

  predicate Plain(k: Key) { PlainTypes(k.typeArgs) && PlainValues(k.valueArgs) }

  /** Letter, sign and payload of a value. */
  function Letter(v: ConstValue): char {
    match v
    case Integer(_) => 'i' case Boolean(_) => 'b' case TypeValue(_) => 't' case ComptimeStr(_) => 's'
    case UnitValue => 'u'
    case Opaque(_) => 'x'
  }

  lemma CodeLetter(v: ConstValue)
    ensures |ValueCode(v)| > 0 && ValueCode(v)[0] == Letter(v)
  {}

  lemma Numeral(prefix: string, m: nat, n: nat, r: string, q: string)
    requires Boundary(r) && Boundary(q)
    requires prefix + ToDec(m) + r == prefix + ToDec(n) + q
    ensures m == n && r == q
  {
    assert prefix + ToDec(m) + r == prefix + (ToDec(m) + r);
    assert prefix + ToDec(n) + q == prefix + (ToDec(n) + q);
    DropPrefix(prefix, ToDec(m) + r, ToDec(n) + q);
    NumeralPrefix(m, n, r, q);
  }

  lemma SecondCharacter(n: P.i64, r: string)
    ensures var x := ValueCode(Integer(n)) + r; |x| > 1 && (n < 0 <==> x[1] == 'm')
  {
    var d := ToDec(Magnitude(n));
    assert IsDigit(d[0]);
    if n < 0 {
      assert ("im" + d + r)[1] == 'm';
    } else {
      assert ("i" + d + r)[1] == d[0];
    }
  }

  lemma IntegerArgument(m: P.i64, n: P.i64, r: string, q: string)
    requires Boundary(r) && Boundary(q)
    requires ValueCode(Integer(m)) + r == ValueCode(Integer(n)) + q
    ensures m == n && r == q
  {
    SecondCharacter(m, r);
    SecondCharacter(n, q);
    Numeral(if m < 0 then "im" else "i", Magnitude(m), Magnitude(n), r, q);
  }

  lemma ValueArgument(v: ConstValue, w: ConstValue, r: string, q: string)
    requires PlainValue(v) && PlainValue(w) && Boundary(r) && Boundary(q)
    requires ValueCode(v) + r == ValueCode(w) + q
    ensures v == w && r == q
  {
    var x, y := ValueCode(v) + r, ValueCode(w) + q;
    CodeLetter(v);
    CodeLetter(w);
    assert x[0] == Letter(v) && y[0] == Letter(w);
    if v.Integer? {
      IntegerArgument(v.n, w.n, r, q);
    } else if v.TypeValue? {
      Numeral("t", AsU32(v.t), AsU32(w.t), r, q);
      AsU32Injective(v.t, w.t);
    } else if v.ComptimeStr? {
      Numeral("s", v.index, w.index, r, q);
    } else if v.Boolean? {
      assert x[1] == ValueCode(v)[1] && y[1] == ValueCode(w)[1];
      DropPrefix(ValueCode(v), r, q);
    } else {
      DropPrefix("u", r, q);
    }
  }

  lemma {:induction false} ValuesInjective(vs: seq<ConstValue>, ws: seq<ConstValue>)
    requires PlainValues(vs) && PlainValues(ws) && ValuesSuffix(vs) == ValuesSuffix(ws)
    ensures vs == ws
  {
    if vs != [] && ws != [] {
      var r, q := ValuesSuffix(vs[1..]), ValuesSuffix(ws[1..]);
      SuffixBoundary([], vs[1..]);
      SuffixBoundary([], ws[1..]);
      Assoc("__v", ValueCode(vs[0]), r);
      Assoc("__v", ValueCode(ws[0]), q);
      DropPrefix("__v", ValueCode(vs[0]) + r, ValueCode(ws[0]) + q);
      ValueArgument(vs[0], ws[0], r, q);
      ValuesInjective(vs[1..], ws[1..]);
      assert vs == [vs[0]] + vs[1..] && ws == [ws[0]] + ws[1..];
    }
  }

  // ---- Whole suffixes ----------------------------------------------------------------------------

  function Suffix(ts: seq<Type>, vs: seq<ConstValue>): string { TypesSuffix(ts) + ValuesSuffix(vs) }

  /** A suffix that starts with a type cannot be one that starts with a value. */
  lemma TypeOrValue(ts: seq<Type>, vs: seq<ConstValue>)
    ensures ts == [] ==>
      Suffix(ts, vs) == ValuesSuffix(vs) && (vs != [] ==> |Suffix(ts, vs)| > 2 && Suffix(ts, vs)[2] == 'v')
    ensures ts != [] ==> |Suffix(ts, vs)| > 2 && Suffix(ts, vs)[2] != 'v'
  {
    if ts != [] {
      TypeNameShape(ts[0]);
      assert Suffix(ts, vs)[2] == MangleType(ts[0])[2] == TypeName(ts[0])[0];
    }
  }

  lemma SuffixHead(ts: seq<Type>, vs: seq<ConstValue>)
    requires ts != []
    ensures Suffix(ts, vs) == "" + (MangleType(ts[0]) + Suffix(ts[1..], vs)) && Boundary(Suffix(ts[1..], vs))
  {
    SuffixBoundary(ts[1..], vs);
    Assoc(MangleType(ts[0]), TypesSuffix(ts[1..]), ValuesSuffix(vs));
  }

  lemma {:induction false} SuffixInjective(ts: seq<Type>, vs: seq<ConstValue>, us: seq<Type>, ws: seq<ConstValue>)
    requires PlainTypes(ts) && PlainTypes(us) && PlainValues(vs) && PlainValues(ws) && Suffix(ts, vs) == Suffix(us, ws)
    ensures ts == us && vs == ws
    decreases |ts|
  {
    TypeOrValue(ts, vs);
    TypeOrValue(us, ws);
    if ts == [] {
      ValuesInjective(vs, ws);
    } else {
      SuffixHead(ts, vs);
      SuffixHead(us, ws);
      TypeArgument(ts[0], us[0], "", "", Suffix(ts[1..], vs), Suffix(us[1..], ws));
      SuffixInjective(ts[1..], vs, us[1..], ws);
      assert ts == [ts[0]] + ts[1..] && us == [us[0]] + us[1..];
    }
  }

  /** Specializations of one function never collide. */
  lemma MangleInjectivePerBase(k: Key, l: Key)
    requires k.base == l.base && Plain(k) && Plain(l) && Mangle(k) == Mangle(l)
    ensures k == l
  {
    Assoc(k.base, TypesSuffix(k.typeArgs), ValuesSuffix(k.valueArgs));
    Assoc(l.base, TypesSuffix(l.typeArgs), ValuesSuffix(l.valueArgs));
    DropPrefix(k.base, Suffix(k.typeArgs, k.valueArgs), Suffix(l.typeArgs, l.valueArgs));
    SuffixInjective(k.typeArgs, k.valueArgs, l.typeArgs, l.valueArgs);
  }

  lemma MangleSplit(k: Key)
    requires k.typeArgs != []
    ensures Mangle(k) == k.base + (MangleType(k.typeArgs[0]) + Suffix(k.typeArgs[1..], k.valueArgs))
  {
    Assoc(MangleType(k.typeArgs[0]), TypesSuffix(k.typeArgs[1..]), ValuesSuffix(k.valueArgs));
    Assoc(k.base, TypesSuffix(k.typeArgs), ValuesSuffix(k.valueArgs));
  }

  /** Neither do specializations of different functions, if both take types and no base has a `#`. */
  lemma MangleInjective(k: Key, l: Key)
    requires Plain(k) && Plain(l) && NoHash(k.base) && NoHash(l.base)
    requires k.typeArgs != [] && l.typeArgs != [] && Mangle(k) == Mangle(l)
    ensures k == l
  {
    SuffixBoundary(k.typeArgs[1..], k.valueArgs);
    SuffixBoundary(l.typeArgs[1..], l.valueArgs);
    MangleSplit(k);
    MangleSplit(l);
    TypeArgument(k.typeArgs[0], l.typeArgs[0], k.base, l.base,
                 Suffix(k.typeArgs[1..], k.valueArgs), Suffix(l.typeArgs[1..], l.valueArgs));
    MangleInjectivePerBase(k, l);
  }

  // ---- All collisions -------------------------------------------------------------------------------

  /** Two underscores at `d`. */
  predicate Opens(s: string, d: nat) { d + 1 < |s| && s[d] == '_' && s[d + 1] == '_' }

  /** An underscore after the first is followed by something else. */
  predicate Tight(s: string) {
    forall d :: 0 < d < |s| && s[d] == '_' ==> d + 1 < |s| && s[d + 1] != '_'
  }

  /** An argument opens at its start only, whatever follows it. */
  lemma OpensAtStart(a: string, r: string, d: nat)
    requires Tight(a) && d < |a| && Opens(a + r, d)
    ensures d == 0
  {
    assert (a + r)[d] == a[d];
    assert d + 1 < |a| ==> (a + r)[d + 1] == a[d + 1];
  }

  lemma CNameTight(x: Prim)
    requires PrimTag(x) >= 21
    ensures forall i :: 0 <= i < |PrimName(x)| && PrimName(x)[i] == '_' ==> i == 1
    ensures |PrimName(x)| > 2
  {}

  lemma OtherNameTight(x: Prim)
    requires PrimTag(x) < 21
    ensures forall i :: 0 <= i < |PrimName(x)| && PrimName(x)[i] == '_' ==> i == 8 && |PrimName(x)| > 9
  {}

  /** No type name starts or ends with an underscore or has two in a row. */
  lemma NameTight(t: Type)
    ensures var s := TypeName(t);
      forall i :: 0 <= i < |s| && s[i] == '_' ==> 0 < i && i + 1 < |s| && s[i + 1] != '_'
  {
    if t.Prim? && PrimTag(t.prim) >= 21 {
      CNameTight(t.prim);
    } else if t.Prim? {
      OtherNameTight(t.prim);
    } else {
      assert '_' !in TypeName(t);
    }
  }

  lemma TypeTight(t: Type)
    ensures |MangleType(t)| > 2 && Tight(MangleType(t))
  {
    var a, name, digits := MangleType(t), TypeName(t), ToDec(AsU32(t));
    NameTight(t);
    TypeNameShape(t);
    forall d | 0 < d < |a| ensures a[d] == '_' ==> d + 1 < |a| && a[d + 1] != '_' {
      if d == 1 {
        assert a[2] == name[0];
      } else if d < 2 + |name| {
        assert a[d] == name[d - 2];
        assert d < 1 + |name| ==> a[d + 1] == name[d - 1];
      } else if d > 2 + |name| {
        assert a[d] == digits[d - 3 - |name|] && IsDigit(a[d]);
      }
    }
  }

  lemma CodePlain(v: ConstValue)
    requires PlainValue(v)
    ensures |ValueCode(v)| > 0 && '_' !in ValueCode(v)
  {
    forall n: nat ensures '_' !in ToDec(n) { assert forall i :: 0 <= i < |ToDec(n)| ==> IsDigit(ToDec(n)[i]); }
  }

  lemma ValueTight(v: ConstValue)
    requires PlainValue(v)
    ensures |MangleValue(v)| > 2 && Tight(MangleValue(v))
  {
    CodePlain(v);
    var a, code := MangleValue(v), ValueCode(v);
    forall d | 0 < d < |a| ensures a[d] == '_' ==> d + 1 < |a| && a[d + 1] != '_' {
      if d > 2 {
        assert a[d] == code[d - 3];
      } else {
        assert d == 1 ==> a[2] == 'v';
      }
    }
  }

  function ArgCount(ts: seq<Type>, vs: seq<ConstValue>): nat { |ts| + |vs| }

  /** The first `n` arguments, and the others. */
  function FirstTypes(ts: seq<Type>, n: nat): seq<Type> { if n <= |ts| then ts[..n] else ts }

  function FirstValues(ts: seq<Type>, vs: seq<ConstValue>, n: nat): seq<ConstValue>
    requires n <= ArgCount(ts, vs)
  {
    if n <= |ts| then [] else vs[..n - |ts|]
  }

  function OtherTypes(ts: seq<Type>, n: nat): seq<Type> { if n <= |ts| then ts[n..] else [] }

  function OtherValues(ts: seq<Type>, vs: seq<ConstValue>, n: nat): seq<ConstValue>
    requires n <= ArgCount(ts, vs)
  {
    if n <= |ts| then vs else vs[n - |ts|..]
  }

  /** The key whose base name has swallowed the first `n` arguments. */
  function Absorb(k: Key, n: nat): Key
    requires n <= ArgCount(k.typeArgs, k.valueArgs)
  {
    Key(k.base + Suffix(FirstTypes(k.typeArgs, n), FirstValues(k.typeArgs, k.valueArgs, n)),
        OtherTypes(k.typeArgs, n), OtherValues(k.typeArgs, k.valueArgs, n))
  }

  lemma {:induction false} TypesJoin(ts: seq<Type>, n: nat)
    requires n <= |ts|
    ensures TypesSuffix(ts) == TypesSuffix(ts[..n]) + TypesSuffix(ts[n..])
  {
    if n > 0 {
      TypesJoin(ts[1..], n - 1);
      assert ts[..n][1..] == ts[1..][..n - 1] && ts[1..][n - 1..] == ts[n..];
      Assoc(MangleType(ts[0]), TypesSuffix(ts[..n][1..]), TypesSuffix(ts[n..]));
    } else {
      assert ts[..0] == [] && ts[0..] == ts;
    }
  }

  lemma {:induction false} ValuesJoin(vs: seq<ConstValue>, n: nat)
    requires n <= |vs|
    ensures ValuesSuffix(vs) == ValuesSuffix(vs[..n]) + ValuesSuffix(vs[n..])
  {
    if n > 0 {
      ValuesJoin(vs[1..], n - 1);
      assert vs[..n][1..] == vs[1..][..n - 1] && vs[1..][n - 1..] == vs[n..];
      Assoc(MangleValue(vs[0]), ValuesSuffix(vs[..n][1..]), ValuesSuffix(vs[n..]));
    } else {
      assert vs[..0] == [] && vs[0..] == vs;
    }
  }

  lemma SuffixJoin(ts: seq<Type>, vs: seq<ConstValue>, n: nat)
    requires n <= ArgCount(ts, vs)
    ensures Suffix(ts, vs) ==
      Suffix(FirstTypes(ts, n), FirstValues(ts, vs, n)) + Suffix(OtherTypes(ts, n), OtherValues(ts, vs, n))
  {
    if n <= |ts| {
      TypesJoin(ts, n);
      Assoc(TypesSuffix(ts[..n]), TypesSuffix(ts[n..]), ValuesSuffix(vs));
      assert TypesSuffix(ts[..n]) + [] == TypesSuffix(ts[..n]);
    } else {
      ValuesJoin(vs, n - |ts|);
      Assoc(TypesSuffix(ts), ValuesSuffix(vs[..n - |ts|]), ValuesSuffix(vs[n - |ts|..]));
      assert [] + ValuesSuffix(vs[n - |ts|..]) == ValuesSuffix(vs[n - |ts|..]);
    }
  }

  lemma MangleIs(k: Key)
    ensures Mangle(k) == k.base + Suffix(k.typeArgs, k.valueArgs)
  {
    Assoc(k.base, TypesSuffix(k.typeArgs), ValuesSuffix(k.valueArgs));
  }

  lemma AbsorbCollides(k: Key, n: nat)
    requires n <= ArgCount(k.typeArgs, k.valueArgs)
    ensures Mangle(Absorb(k, n)) == Mangle(k)
  {
    var l := Absorb(k, n);
    MangleIs(k);
    MangleIs(l);
    SuffixJoin(k.typeArgs, k.valueArgs, n);
    Assoc(k.base, Suffix(FirstTypes(k.typeArgs, n), FirstValues(k.typeArgs, k.valueArgs, n)),
      Suffix(l.typeArgs, l.valueArgs));
  }

  /** Where an argument may begin, or the end. */
  predicate Begins(s: string, d: nat) { d == |s| || Opens(s, d) }

  /** A later place where an argument may begin is past the first argument. */
  lemma PastFirst(a: string, r: string, d: nat)
    requires Tight(a) && 0 < d && Begins(a + r, d)
    ensures |a| <= d && Begins(r, d - |a|)
  {
    if d < |a + r| {
      if d < |a| {
        OpensAtStart(a, r, d);
      } else {
        assert (a + r)[d] == r[d - |a|] && (a + r)[d + 1] == r[d + 1 - |a|];
      }
    }
  }

  /** A place in the values where one may begin, or their end, is a boundary between two of them. */
  lemma {:induction false} CutValues(vs: seq<ConstValue>, d: nat) returns (n: nat)
    requires PlainValues(vs) && Begins(ValuesSuffix(vs), d)
    ensures n <= |vs| && |ValuesSuffix(vs[..n])| == d
  {
    if d == 0 {
      n := 0;
    } else {
      var a, r := MangleValue(vs[0]), ValuesSuffix(vs[1..]);
      ValueTight(vs[0]);
      PastFirst(a, r, d);
      n := CutValues(vs[1..], d - |a|);
      n := n + 1;
      assert vs[..n][1..] == vs[1..][..n - 1] && vs[..n][0] == vs[0];
    }
  }

  /** The same for a whole suffix. */
  lemma CutTypeless(ts: seq<Type>, vs: seq<ConstValue>, d: nat) returns (n: nat)
    requires ts == [] && PlainValues(vs) && Begins(Suffix(ts, vs), d) && d > 0
    ensures n <= ArgCount(ts, vs) && |Suffix(FirstTypes(ts, n), FirstValues(ts, vs, n))| == d
  {
    TypelessSuffix(vs);
    n := CutValues(vs, d);
    TypelessSuffix(vs[..n]);
    assert FirstTypes(ts, n) == [] && FirstValues(ts, vs, n) == vs[..n];
  }

  lemma CutNothing(ts: seq<Type>, vs: seq<ConstValue>)
    ensures |Suffix(FirstTypes(ts, 0), FirstValues(ts, vs, 0))| == 0
  {
    assert FirstTypes(ts, 0) == [] && FirstValues(ts, vs, 0) == [];
  }

  lemma {:induction false} CutSuffix(ts: seq<Type>, vs: seq<ConstValue>, d: nat) returns (n: nat)
    requires PlainTypes(ts) && PlainValues(vs) && Begins(Suffix(ts, vs), d)
    ensures n <= ArgCount(ts, vs) && |Suffix(FirstTypes(ts, n), FirstValues(ts, vs, n))| == d
    decreases |ts|, 1
  {
    if d == 0 {
      CutNothing(ts, vs);
      n := 0;
    } else if ts == [] {
      n := CutTypeless(ts, vs, d);
    } else {
      n := CutTyped(ts, vs, d);
    }
  }

  lemma {:induction false} CutTyped(ts: seq<Type>, vs: seq<ConstValue>, d: nat) returns (n: nat)
    requires PlainTypes(ts) && PlainValues(vs) && Begins(Suffix(ts, vs), d) && ts != [] && d > 0
    ensures n <= ArgCount(ts, vs) && |Suffix(FirstTypes(ts, n), FirstValues(ts, vs, n))| == d
    decreases |ts|, 0
  {
    PastFirstType(ts, vs, d);
    n := CutSuffix(ts[1..], vs, d - |MangleType(ts[0])|);
    FirstGrows(ts, vs, n);
    n := n + 1;
  }

  lemma SuffixCons(ts: seq<Type>, vs: seq<ConstValue>)
    requires ts != []
    ensures Suffix(ts, vs) == MangleType(ts[0]) + Suffix(ts[1..], vs)
  {
    Assoc(MangleType(ts[0]), TypesSuffix(ts[1..]), ValuesSuffix(vs));
  }

  lemma PastFirstType(ts: seq<Type>, vs: seq<ConstValue>, d: nat)
    requires ts != [] && 0 < d && Begins(Suffix(ts, vs), d)
    ensures |MangleType(ts[0])| <= d && Begins(Suffix(ts[1..], vs), d - |MangleType(ts[0])|)
  {
    SuffixCons(ts, vs);
    TypeTight(ts[0]);
    PastFirst(MangleType(ts[0]), Suffix(ts[1..], vs), d);
  }

  lemma TypelessSuffix(vs: seq<ConstValue>)
    ensures Suffix([], vs) == ValuesSuffix(vs)
  {}

  lemma FirstGrows(ts: seq<Type>, vs: seq<ConstValue>, n: nat)
    requires ts != [] && n <= ArgCount(ts[1..], vs)
    ensures |Suffix(FirstTypes(ts, n + 1), FirstValues(ts, vs, n + 1))| ==
      |MangleType(ts[0])| + |Suffix(FirstTypes(ts[1..], n), FirstValues(ts[1..], vs, n))|
  {
    var us := FirstTypes(ts, n + 1);
    assert us[0] == ts[0] && us[1..] == FirstTypes(ts[1..], n);
  }

  /** Two plain keys, the shorter base first, share a name exactly when the second is the first with
      some of its leading arguments written into the base name. */
  lemma MangleCollidesExactly(k: Key, l: Key)
    requires Plain(k) && Plain(l) && |k.base| <= |l.base|
    ensures Mangle(k) == Mangle(l) <==> exists n :: 0 <= n <= ArgCount(k.typeArgs, k.valueArgs) && l == Absorb(k, n)
  {
    if Mangle(k) == Mangle(l) {
      var n := CollisionCut(k, l);
    }
    if n :| 0 <= n <= ArgCount(k.typeArgs, k.valueArgs) && l == Absorb(k, n) {
      AbsorbCollides(k, n);
    }
  }

  /** Where the longer base name ends inside the shorter name's suffix. */
  lemma Overlap(k: Key, l: Key, s: string, r: string, d: nat)
    requires |k.base| <= |l.base| && Mangle(k) == Mangle(l) && d == |l.base| - |k.base|
    requires s == Suffix(k.typeArgs, k.valueArgs) && r == Suffix(l.typeArgs, l.valueArgs)
    ensures Begins(s, d) && s[d..] == r && k.base + s[..d] == l.base
  {
    MangleIs(k);
    MangleIs(l);
    var x := k.base + s;
    assert |x| == |l.base| + |r| == |k.base| + |s|;
    assert x[|l.base|..] == r && x[..|l.base|] == l.base;
    assert s[d..] == x[|l.base|..] && k.base + s[..d] == x[..|l.base|];
    if d < |s| {
      SuffixOpens(l.typeArgs, l.valueArgs);
      assert s[d] == r[0] && s[d + 1] == r[1];
    }
  }

  lemma CollisionCut(k: Key, l: Key) returns (n: nat)
    requires Plain(k) && Plain(l) && |k.base| <= |l.base| && Mangle(k) == Mangle(l)
    ensures n <= ArgCount(k.typeArgs, k.valueArgs) && l == Absorb(k, n)
  {
    var s, d := Suffix(k.typeArgs, k.valueArgs), |l.base| - |k.base|;
    Overlap(k, l, s, Suffix(l.typeArgs, l.valueArgs), d);
    n := CutSuffix(k.typeArgs, k.valueArgs, d);
    SuffixJoin(k.typeArgs, k.valueArgs, n);
    var m := Absorb(k, n);
    SplitAt(s[..d], Suffix(FirstTypes(k.typeArgs, n), FirstValues(k.typeArgs, k.valueArgs, n)), s[d..],
      Suffix(m.typeArgs, m.valueArgs));
    SuffixInjective(m.typeArgs, m.valueArgs, l.typeArgs, l.valueArgs);
  }

  lemma SuffixOpens(ts: seq<Type>, vs: seq<ConstValue>)
    requires |Suffix(ts, vs)| > 0
    ensures |Suffix(ts, vs)| > 1 && Suffix(ts, vs)[0] == '_' && Suffix(ts, vs)[1] == '_'
  {
    assert ts == [] ==> Suffix(ts, vs) == ValuesSuffix(vs);
  }

  /** Without type arguments a base name can imitate a value argument. */
  lemma ValueOnlyCollision()
    ensures Mangle(Key("f", [], [Integer(7), Integer(8)])) == Mangle(Key("f__vi7", [], [Integer(8)]))
  {
    var seven: ConstValue, eight: ConstValue := Integer(7), Integer(8);
    assert ToDec(7) == "7" && ToDec(8) == "8";
    assert MangleValue(seven) == "__vi7" && MangleValue(eight) == "__vi8";
    assert [seven, eight][1..] == [eight] && [eight][1..] == [];
    assert ValuesSuffix([eight]) == MangleValue(eight) + ValuesSuffix([]) == "__vi8";
    assert ValuesSuffix([seven, eight]) == "__vi7" + "__vi8";
    assert "f" + [] + ("__vi7" + "__vi8") == "f__vi7" + [] + "__vi8";
  }
}
