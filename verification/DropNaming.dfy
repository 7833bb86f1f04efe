/** When drop functions have names of their own: exactly which definition names make two of them
    clash, and that names which imitate no type component never do. */
module DropNaming {
  import opened Bytes
  import opened Types
  import opened Decimal
  import opened DropNames
  import I = InternPool

  /** No two droppable types share a drop function. */
  ghost predicate NamesDistinct(p: Pool)
    requires DropsNameable(p)
  {
    forall s, t {:trigger SameDropName(p, s, t)} :: ValidType(p, s) && ValidType(p, t) && SameDropName(p, s, t) ==>
      s == t
  }

  ghost predicate SameDropName(p: Pool, s: Type, t: Type)
    requires DropsNameable(p) && ValidType(p, s) && ValidType(p, t)
  {
    DropFnName(p, s).Some? && DropFnName(p, s) == DropFnName(p, t)
  }

  // ---- The exact condition ---------------------------------------------------------------------------

  predicate Defined(p: Pool, t: Type) { ValidType(p, t) && (t.Struct? || t.Enum?) }

  /** A droppable struct or enum. */
  ghost predicate Nominal(p: Pool, t: Type)
    requires WellFormed(p)
  {
    Defined(p, t) && NeedsDrop(p, t)
  }

  ghost predicate DropArray(p: Pool, t: Type)
    requires WellFormed(p)
  {
    ValidType(p, t) && t.Array? && NeedsDrop(p, t)
  }

  function DefinitionName(p: Pool, t: Type): string
    requires Defined(p, t)
  {
    if t.Struct? then p[t.id].structDef.name else p[t.id].enumDef.name
  }

  ghost function ElementComponent(p: Pool, t: Type): string
    requires DropsNameable(p) && DropArray(p, t)
  {
    assert DropNameable(p, t);
    NameComponent(p, TargetType(p, t.id))
  }

  ghost function ArrayComponent(p: Pool, t: Type): string
    requires DropsNameable(p) && DropArray(p, t)
  {
    "array_" + ElementComponent(p, t) + "_" + ToDec(p[t.id].len)
  }

  /** The three ways not to clash, in terms of definition names and element components. */
  ghost predicate Apart(p: Pool)
    requires DropsNameable(p)
  {
    (forall s, t :: Nominal(p, s) && Nominal(p, t) && DefinitionName(p, s) == DefinitionName(p, t) ==> s == t) &&
    (forall s, t :: Nominal(p, s) && DropArray(p, t) ==> DefinitionName(p, s) != ArrayComponent(p, t)) &&
    (forall s, t :: DropArray(p, s) && DropArray(p, t) && SameElements(p, s, t) ==> s == t)
  }

  ghost predicate SameElements(p: Pool, s: Type, t: Type)
    requires DropsNameable(p) && DropArray(p, s) && DropArray(p, t)
  {
    p[s.id].len == p[t.id].len && ElementComponent(p, s) == ElementComponent(p, t)
  }

  /** What follows the common prefix in a drop function's name. */
  ghost function Rest(p: Pool, t: Type): string
    requires DropsNameable(p) && (Nominal(p, t) || DropArray(p, t))
  {
    if t.Array? then ArrayComponent(p, t) else DefinitionName(p, t)
  }

  lemma DropNameOf(p: Pool, t: Type)
    requires DropsNameable(p) && ValidType(p, t)
    ensures DropFnName(p, t).Some? <==> Nominal(p, t) || DropArray(p, t)
    ensures DropFnName(p, t).Some? ==> DropFnName(p, t).value == DROP_PREFIX + Rest(p, t)
  {
    assert DropNameable(p, t);
  }

  lemma SameRest(p: Pool, s: Type, t: Type)
    requires DropsNameable(p) && ValidType(p, s) && ValidType(p, t)
    requires (Nominal(p, s) || DropArray(p, s)) && (Nominal(p, t) || DropArray(p, t))
    ensures SameDropName(p, s, t) <==> Rest(p, s) == Rest(p, t)
  {
    DropNameOf(p, s);
    DropNameOf(p, t);
    if SameDropName(p, s, t) {
      DropPrefix(DROP_PREFIX, Rest(p, s), Rest(p, t));
    }
  }

  lemma SameArrayComponent(p: Pool, s: Type, t: Type)
    requires DropsNameable(p) && DropArray(p, s) && DropArray(p, t)
    ensures ArrayComponent(p, s) == ArrayComponent(p, t) <==> SameElements(p, s, t)
  {
    if ArrayComponent(p, s) == ArrayComponent(p, t) {
      PeelArray("array_", ElementComponent(p, s), ElementComponent(p, t), p[s.id].len, p[t.id].len);
    }
  }

  lemma ApartSuffices(p: Pool, s: Type, t: Type)
    requires DropsNameable(p) && Apart(p) && ValidType(p, s) && ValidType(p, t) && SameDropName(p, s, t)
    ensures s == t
  {
    DropNameOf(p, s);
    DropNameOf(p, t);
    SameRest(p, s, t);
    if s.Array? && t.Array? {
      SameArrayComponent(p, s, t);
    }
  }

  lemma ApartNeeded(p: Pool)
    requires DropsNameable(p) && NamesDistinct(p)
    ensures Apart(p)
  {
    forall s, t | Nominal(p, s) && Nominal(p, t) && DefinitionName(p, s) == DefinitionName(p, t) ensures s == t {
      SameRest(p, s, t);
    }
    forall s, t | Nominal(p, s) && DropArray(p, t) ensures DefinitionName(p, s) != ArrayComponent(p, t) {
      SameRest(p, s, t);
    }
    forall s, t | DropArray(p, s) && DropArray(p, t) && SameElements(p, s, t) ensures s == t {
      SameArrayComponent(p, s, t);
      SameRest(p, s, t);
    }
  }

  /** Drop names are distinct exactly when no two droppable definitions share a name, none is called
      like a droppable array, and no two droppable arrays of one length have equal element components. */
  lemma NamesDistinctExactly(p: Pool)
    requires DropsNameable(p)
    ensures NamesDistinct(p) <==> Apart(p)
  {
    if NamesDistinct(p) {
      ApartNeeded(p);
    }
    if Apart(p) {
      forall s, t | ValidType(p, s) && ValidType(p, t) && SameDropName(p, s, t) ensures s == t {
        ApartSuffices(p, s, t);
      }
    }
  }

  // ---- Components of types -----------------------------------------------------------------------------

  /** Length, first, third (or first) and last character: enough to tell primitives apart. */
  function Mark(s: string): (nat, char, char, char)
    requires s != []
  {
    (|s|, s[0], if |s| > 2 then s[2] else s[0], s[|s| - 1])
  }

  function PrimMark(x: Prim): (nat, char, char, char) {
    match x
    case I8 => (2, 'i', 'i', '8') case I16 => (3, 'i', '6', '6') case I32 => (3, 'i', '2', '2')
    case I64 => (3, 'i', '4', '4') case U8 => (2, 'u', 'u', '8') case U16 => (3, 'u', '6', '6')
    case U32 => (3, 'u', '2', '2') case U64 => (3, 'u', '4', '4') case Isize => (5, 'i', 'i', 'e')
    case Usize => (5, 'u', 'i', 'e') case F16 => (3, 'f', '6', '6') case F32 => (3, 'f', '2', '2')
    case F64 => (3, 'f', '4', '4') case Bool => (4, 'b', 'o', 'l') case Unit => (4, 'u', 'i', 't')
    case Error => (5, 'e', 'r', 'r') case Never => (5, 'n', 'v', 'r') case ComptimeType => (13, 'c', 'm', 'e')
    case ComptimeStr => (12, 'c', 'm', 'r') case ComptimeInt => (12, 'c', 'm', 't') case Char => (4, 'c', 'a', 'r')
    case CSchar => (7, 'c', 's', 'r') case CShort => (7, 'c', 's', 't') case CInt => (5, 'c', 'i', 't')
    case CLong => (6, 'c', 'l', 'g') case CLonglong => (10, 'c', 'l', 'g') case CUchar => (7, 'c', 'u', 'r')
    case CUshort => (8, 'c', 'u', 't') case CUint => (6, 'c', 'u', 't') case CUlong => (7, 'c', 'u', 'g')
    case CUlonglong => (11, 'c', 'u', 'g') case CFloat => (7, 'c', 'f', 't') case CDouble => (8, 'c', 'd', 'e')
    case CVoid => (6, 'c', 'v', 'd')
  }

  lemma PrimMarks(x: Prim)
    ensures PrimComponent(x) != [] && Mark(PrimComponent(x)) == PrimMark(x)
  {}

  /** The primitive with a given mark. */
  function PrimOfMark(m: (nat, char, char, char)): Prim {
    match m.0
    case 2 => if m.1 == 'i' then I8 else U8
    case 3 =>
      if m.1 == 'i' then (if m.3 == '6' then I16 else if m.3 == '2' then I32 else I64)
      else if m.1 == 'u' then (if m.3 == '6' then U16 else if m.3 == '2' then U32 else U64)
      else (if m.3 == '6' then F16 else if m.3 == '2' then F32 else F64)
    case 4 => if m.1 == 'b' then Bool else if m.1 == 'u' then Unit else Char
    case 5 =>
      if m.1 == 'i' then Isize else if m.1 == 'u' then Usize else if m.1 == 'e' then Error
      else if m.1 == 'n' then Never else CInt
    case 6 => if m.2 == 'l' then CLong else if m.2 == 'u' then CUint else CVoid
    case 7 =>
      if m.2 == 's' then (if m.3 == 'r' then CSchar else CShort)
      else if m.2 == 'u' then (if m.3 == 'r' then CUchar else CUlong)
      else CFloat
    case 8 => if m.2 == 'u' then CUshort else CDouble
    case 10 => CLonglong
    case 11 => CUlonglong
    case 12 => if m.3 == 'r' then ComptimeStr else ComptimeInt
    case _ => ComptimeType
  }

  lemma PrimMarkInverts(x: Prim)
    ensures PrimOfMark(PrimMark(x)) == x
  {}

  lemma PrimComponentInjective(x: Prim, y: Prim)
    requires PrimComponent(x) == PrimComponent(y)
    ensures x == y
  {
    PrimMarks(x);
    PrimMarks(y);
    PrimMarkInverts(x);
    PrimMarkInverts(y);
  }

  /** What a component of a type other than a struct starts with. */
  function Prefix(t: Type): string {
    match t
    case Prim(_) => "" case Struct(_) => ""
    case Enum(_) => "enum" case Module(_) => "module" case Interface(_) => "interface"
    case Array(_) => "array_" case PtrConst(_) => "ptr_const_" case PtrMut(_) => "ptr_mut_"
    case Ref(_) => "ref_" case MutRef(_) => "mut_ref_" case Slice(_) => "slice_"
    case MutSlice(_) => "mut_slice_" case Vec(_) => "vec_"
  }

  /** The kind of type that a component belongs to, told by its first, second and fifth characters. */
  function Kind(s: string): nat {
    if |s| < 2 then 0
    else if s[0] == 'e' && s[1] == 'n' then 101
    else if s[0] == 'm' && s[1] == 'o' then 103
    else if s[0] == 'i' && s[1] == 'n' then 106
    else if s[0] == 'a' then 102
    else if s[0] == 'p' then if |s| > 4 && s[4] == 'c' then 104 else 105
    else if s[0] == 'r' then 107
    else if s[0] == 'm' then if |s| > 4 && s[4] == 'r' then 108 else 110
    else if s[0] == 's' then 109
    else if s[0] == 'v' then 111
    else 0
  }

  lemma PrimKind(x: Prim)
    ensures Kind(PrimComponent(x)) == 0
  {}

  /** A compound type's component is its target's between a prefix and, for an array, its length. */
  lemma CompoundComponent(p: Pool, t: Type)
    requires Backward(p) && ValidType(p, t) && Nameable(p, t) && IsCompound(t)
    ensures var inner := NameComponent(p, TargetType(p, t.id));
      NameComponent(p, t) == if t.Array? then Prefix(t) + inner + "_" + ToDec(p[t.id].len) else Prefix(t) + inner
  {}

  /** Every component starts with its prefix. */
  lemma ComponentPrefix(p: Pool, t: Type)
    requires Backward(p) && ValidType(p, t) && Nameable(p, t) && !t.Prim? && !t.Struct?
    ensures Prefix(t) <= NameComponent(p, t)
  {
    if IsCompound(t) {
      CompoundComponent(p, t);
    }
  }

  lemma PrefixKind(t: Type, s: string)
    requires !t.Prim? && !t.Struct? && Prefix(t) <= s
    ensures Kind(s) == Tag(t)
  {
    var q := Prefix(t);
    assert s[0] == q[0] && s[1] == q[1];
    assert |q| > 4 ==> s[4] == q[4];
  }

  /** Components of different kinds differ, structs aside. */
  lemma ComponentKind(p: Pool, t: Type)
    requires Backward(p) && ValidType(p, t) && Nameable(p, t) && !t.Struct?
    ensures Kind(NameComponent(p, t)) == if t.Prim? then 0 else Tag(t)
  {
    if t.Prim? {
      PrimKind(t.prim);
    } else {
      ComponentPrefix(p, t);
      PrefixKind(t, NameComponent(p, t));
    }
  }

  ghost predicate Numbered(s: string, prefix: string) { exists n: nat {:trigger ToDec(n)} :: s == prefix + ToDec(n) }

  /** A name that reads like the component of some type other than a struct. */
  ghost predicate Imitates(s: string) {
    "array_" <= s || "ptr_const_" <= s || "ptr_mut_" <= s || "ref_" <= s || "mut_ref_" <= s ||
    "slice_" <= s || "mut_slice_" <= s || "vec_" <= s ||
    Numbered(s, "enum") || Numbered(s, "module") || Numbered(s, "interface") ||
    exists x: Prim {:trigger PrimComponent(x)} :: s == PrimComponent(x)
  }

  lemma ComponentImitates(p: Pool, t: Type)
    requires Backward(p) && ValidType(p, t) && Nameable(p, t) && !t.Struct?
    ensures Imitates(NameComponent(p, t))
  {
    if t.Prim? {
      assert NameComponent(p, t) == PrimComponent(t.prim);
    } else if t.Enum? || t.Module? || t.Interface? {
      assert NameComponent(p, t) == Prefix(t) + ToDec(t.id);
    } else {
      ComponentPrefix(p, t);
    }
  }

  /** No two entries have the same key: what hash-consing guarantees. */
  predicate Canonical(p: Pool) {
    forall i, j {:trigger I.KeyOf(p[i]), I.KeyOf(p[j])} ::
      0 <= i < |p| && 0 <= j < |p| && I.KeyOf(p[i]) == I.KeyOf(p[j]) ==> i == j
  }

  lemma InvCanonical(s: I.State)
    requires I.Inv(s) && s.reserved == {}
    ensures Canonical(s.types) && Backward(s.types)
  {
    forall i, j | 0 <= i < |s.types| && 0 <= j < |s.types| &&
      I.KeyOf(s.types[i]) == I.KeyOf(s.types[j]) ensures i == j {
      assert I.EntryOk(s, i) && I.EntryOk(s, j);
    }
    forall i | 0 <= i < |s.types| ensures I.KnownTargets(s.types[i], i) { assert I.EntryOk(s, i); }
  }

  /** Definition names are distinct and imitate no component. */
  ghost predicate PlainNames(p: Pool) {
    (forall t :: Defined(p, t) ==> !Imitates(DefinitionName(p, t))) &&
    (forall s, t :: Defined(p, s) && Defined(p, t) && DefinitionName(p, s) == DefinitionName(p, t) ==> s == t)
  }

  lemma InternedInjective(p: Pool, i: InternedType, j: InternedType)
    requires InternedToType(p, i).Some? && InternedToType(p, i) == InternedToType(p, j)
    ensures i == j
  {}

  lemma SameKey(p: Pool, s: Type, t: Type)
    requires ValidType(p, s) && ValidType(p, t) && IsCompound(s) && Tag(s) == Tag(t)
    requires Target(p[s.id]) == Target(p[t.id]) && (s.Array? ==> p[s.id].len == p[t.id].len)
    ensures I.KeyOf(p[s.id]) == I.KeyOf(p[t.id])
  {}

  lemma SameTagSameId(s: Type, t: Type)
    requires IsCompound(s) && Tag(s) == Tag(t) && s.id == t.id
    ensures s == t
  {}

  /** One target, one entry. */
  lemma SameTarget(p: Pool, s: Type, t: Type)
    requires Backward(p) && Canonical(p) && ValidType(p, s) && ValidType(p, t) && IsCompound(s) && Tag(s) == Tag(t)
    requires InternedToType(p, Target(p[s.id])).Some?
    requires InternedToType(p, Target(p[s.id])) == InternedToType(p, Target(p[t.id]))
    requires s.Array? ==> p[s.id].len == p[t.id].len
    ensures s == t
  {
    InternedInjective(p, Target(p[s.id]), Target(p[t.id]));
    SameKey(p, s, t);
    SameTagSameId(s, t);
  }

  /** The components of two types of one compound kind are equal only if their targets' are, and
      for arrays their lengths. */
  lemma PeelComponents(p: Pool, s: Type, t: Type)
    requires Backward(p) && ValidType(p, s) && ValidType(p, t) && Nameable(p, s) && Nameable(p, t)
    requires IsCompound(s) && Tag(s) == Tag(t) && NameComponent(p, s) == NameComponent(p, t)
    ensures NameComponent(p, TargetType(p, s.id)) == NameComponent(p, TargetType(p, t.id))
    ensures s.Array? ==> p[s.id].len == p[t.id].len
  {
    SameTagSamePrefix(s, t);
    CompoundComponent(p, s);
    CompoundComponent(p, t);
    var a, b := NameComponent(p, TargetType(p, s.id)), NameComponent(p, TargetType(p, t.id));
    if s.Array? {
      PeelArray(Prefix(s), a, b, p[s.id].len, p[t.id].len);
    } else {
      DropPrefix(Prefix(s), a, b);
    }
  }

  lemma SameTagSamePrefix(s: Type, t: Type)
    requires IsCompound(s) && Tag(s) == Tag(t)
    ensures Prefix(s) == Prefix(t) && IsCompound(t) && s.Array? == t.Array?
  {}

  lemma PeelArray(prefix: string, a: string, b: string, m: nat, n: nat)
    requires prefix + a + "_" + ToDec(m) == prefix + b + "_" + ToDec(n)
    ensures a == b && m == n
  {
    NumeralSuffix(prefix + a, prefix + b, m, n);
    DropPrefix(prefix, a, b);
  }

  /** With plain names, distinct types have distinct components. */
  lemma {:induction false} ComponentInjective(p: Pool, s: Type, t: Type)
    requires Backward(p) && Canonical(p) && PlainNames(p) && ValidType(p, s) && ValidType(p, t)
    requires Nameable(p, s) && Nameable(p, t) && NameComponent(p, s) == NameComponent(p, t)
    ensures s == t
    decreases Above(s)
  {
    if s.Struct? || t.Struct? {
      StructComponent(p, s, t);
    } else {
      ComponentKind(p, s);
      ComponentKind(p, t);
      if s.Prim? || t.Prim? {
        PrimComponentInjective(s.prim, t.prim);
      } else if IsCompound(s) {
        PeelComponents(p, s, t);
        ComponentInjective(p, TargetType(p, s.id), TargetType(p, t.id));
        SameTarget(p, s, t);
      } else {
        DropPrefix(Prefix(s), ToDec(s.id), ToDec(t.id));
        ToDecInjective(s.id, t.id);
      }
    }
  }

  lemma StructComponent(p: Pool, s: Type, t: Type)
    requires Backward(p) && PlainNames(p) && ValidType(p, s) && ValidType(p, t)
    requires Nameable(p, s) && Nameable(p, t) && NameComponent(p, s) == NameComponent(p, t) && (s.Struct? || t.Struct?)
    ensures s == t
  {
    if !s.Struct? {
      assert Defined(p, t) && DefinitionName(p, t) == NameComponent(p, s);
      ComponentImitates(p, s);
    } else if !t.Struct? {
      assert Defined(p, s) && DefinitionName(p, s) == NameComponent(p, t);
      ComponentImitates(p, t);
    } else {
      assert Defined(p, s) && Defined(p, t) && DefinitionName(p, s) == DefinitionName(p, t);
    }
  }

  /** With plain names every drop function has a name of its own. */
  lemma PlainNamesDistinct(p: Pool)
    requires DropsNameable(p) && Canonical(p) && PlainNames(p)
    ensures NamesDistinct(p)
  {
    forall s, t | Nominal(p, s) && DropArray(p, t) ensures DefinitionName(p, s) != ArrayComponent(p, t) {
      assert ArrayComponent(p, t) == "array_" + (ElementComponent(p, t) + "_" + ToDec(p[t.id].len));
      assert "array_" <= ArrayComponent(p, t);
    }
    forall s, t | DropArray(p, s) && DropArray(p, t) && SameElements(p, s, t) ensures s == t {
      assert DropNameable(p, s) && DropNameable(p, t);
      ComponentInjective(p, TargetType(p, s.id), TargetType(p, t.id));
      SameTarget(p, s, t);
    }
    NamesDistinctExactly(p);
  }

  /** A struct called `array_S_3` shares its drop function's name with the array `[S; 3]`. */
  const COLLISION_POOL: Pool :=
    [ StructData(1, StructDef("S", [], Some("S.__drop"), false)), ArrayData(PRIMITIVE_COUNT, 3),
      StructData(2, StructDef("array_S_3", [], Some("array_S_3.__drop"), false)) ]

  lemma CollisionPool()
    ensures DropsNameable(COLLISION_POOL) && Canonical(COLLISION_POOL)
    ensures Nominal(COLLISION_POOL, Struct(2)) && DropArray(COLLISION_POOL, Array(1))
    ensures TargetType(COLLISION_POOL, 1) == Struct(0)
  {
    var p := COLLISION_POOL;
    assert Ranks(p, [0, 1, 0]);
    ElementBelow(p, Array(1));
    assert NeedsDrop(p, Struct(0));
    forall t | ValidType(p, t) ensures DropNameable(p, t) {
      if t.Array? {
        assert t.id == 1 && TargetType(p, 1) == Struct(0);
      }
    }
  }

  lemma CollisionExample()
    ensures DropsNameable(COLLISION_POOL) && Canonical(COLLISION_POOL) && !NamesDistinct(COLLISION_POOL)
  {
    CollisionPool();
    var p, s, t := COLLISION_POOL, Type.Struct(2), Type.Array(1);
    assert ToDec(3) == "3";
    assert ElementComponent(p, t) == "S";
    assert ArrayComponent(p, t) == "array_" + "S" + "_" + "3" == "array_S_3" == DefinitionName(p, s);
    NamesDistinctExactly(p);
  }

  /** A pointer to `c_void` cannot be named, but nothing asks for its name. */
  lemma UnreadablePointerExample()
    ensures var p := [PtrMutData(33)];
      DropsNameable(p) && ValidType(p, PtrMut(0)) && !Nameable(p, PtrMut(0)) && NamesDistinct(p)
  {
    var p := [PtrMutData(33)];
    assert Ranks(p, [0]);
  }
}
