/** Types as the compiler refers to them: a tag with a pool index, the pool of
    definitions behind the indices, and by-value containment. */
module Types {
  import opened Bytes

  datatype Prim =
    | I8 | I16 | I32 | I64 | U8 | U16 | U32 | U64 | Isize | Usize
    | F16 | F32 | F64 | Bool | Unit | Error | Never
    | ComptimeType | ComptimeStr | ComptimeInt | Char
    | CSchar | CShort | CInt | CLong | CLonglong
    | CUchar | CUshort | CUint | CUlong | CUlonglong
    | CFloat | CDouble | CVoid

  datatype Type =
    | Prim(prim: Prim)
    | Struct(id: nat) | Enum(id: nat) | Array(id: nat) | Module(id: nat)
    | PtrConst(id: nat) | PtrMut(id: nat) | Interface(id: nat)
    | Ref(id: nat) | MutRef(id: nat) | Slice(id: nat) | MutSlice(id: nat) | Vec(id: nat)

  /** Primitives in the order of their tags in the 32-bit encoding of `Type`. */
  const PRIMS: seq<Prim> :=
    [ I8, I16, I32, I64, U8, U16, U32, U64, Isize, Usize,
      F16, F32, F64, Bool, Unit, Error, Never,
      ComptimeType, ComptimeStr, ComptimeInt, Char,
      CSchar, CShort, CInt, CLong, CLonglong,
      CUchar, CUshort, CUint, CUlong, CUlonglong,
      CFloat, CDouble, CVoid ]

  function PrimTag(p: Prim): (n: nat)
  {
    match p
    case I8 => 0 case I16 => 1 case I32 => 2 case I64 => 3
    case U8 => 4 case U16 => 5 case U32 => 6 case U64 => 7
    case Isize => 8 case Usize => 9 case F16 => 10 case F32 => 11 case F64 => 12
    case Bool => 13 case Unit => 14 case Error => 15 case Never => 16
    case ComptimeType => 17 case ComptimeStr => 18 case ComptimeInt => 19 case Char => 20
    case CSchar => 21 case CShort => 22 case CInt => 23 case CLong => 24 case CLonglong => 25
    case CUchar => 26 case CUshort => 27 case CUint => 28 case CUlong => 29 case CUlonglong => 30
    case CFloat => 31 case CDouble => 32 case CVoid => 33
  }

  function Tag(t: Type): (n: nat)
    ensures n < 256
  {
    match t
    case Prim(p) => PrimTag(p)
    case Struct(_) => 100 case Enum(_) => 101 case Array(_) => 102 case Module(_) => 103
    case PtrConst(_) => 104 case PtrMut(_) => 105 case Interface(_) => 106
    case Ref(_) => 107 case MutRef(_) => 108 case Slice(_) => 109 case MutSlice(_) => 110
    case Vec(_) => 111
  }

  /** Pool indices must fit the 24 bits left of the tag. */
  predicate Encodable(t: Type) {
    t.Prim? || t.id < 0x100_0000
  }

  const U32_RANGE: nat := 0x1_0000_0000

  /** The 32-bit encoding: tag in the low byte, pool index above it; what does not fit is shifted out. */
  function AsU32(t: Type): (n: nat)
    ensures n < U32_RANGE
  {
    Tag(t) + (if t.Prim? then 0 else 256 * (t.id % 0x100_0000))
  }

  function TryKind(raw: nat): (t: Option<Type>)
  {
    var tag, id := raw % 256, raw / 256;
    if tag < 34 then Some(Prim(PRIMS[tag]))
    else match tag
      case 100 => Some(Struct(id)) case 101 => Some(Enum(id)) case 102 => Some(Array(id))
      case 103 => Some(Module(id)) case 104 => Some(PtrConst(id)) case 105 => Some(PtrMut(id))
      case 106 => Some(Interface(id)) case 107 => Some(Ref(id)) case 108 => Some(MutRef(id))
      case 109 => Some(Slice(id)) case 110 => Some(MutSlice(id)) case 111 => Some(Vec(id))
      case _ => None
  }

  function PrimName(p: Prim): string {
    match p
    case I8 => "i8" case I16 => "i16" case I32 => "i32" case I64 => "i64"
    case U8 => "u8" case U16 => "u16" case U32 => "u32" case U64 => "u64"
    case Isize => "isize" case Usize => "usize" case F16 => "f16" case F32 => "f32" case F64 => "f64"
    case Bool => "bool" case Char => "char" case Unit => "()" case Error => "<error>" case Never => "!"
    case ComptimeType => "type" case ComptimeStr => "comptime_str" case ComptimeInt => "comptime_int"
    case CSchar => "c_schar" case CShort => "c_short" case CInt => "c_int" case CLong => "c_long"
    case CLonglong => "c_longlong" case CUchar => "c_uchar" case CUshort => "c_ushort" case CUint => "c_uint"
    case CUlong => "c_ulong" case CUlonglong => "c_ulonglong" case CFloat => "c_float" case CDouble => "c_double"
    case CVoid => "c_void"
  }

  /** The short name of a type; composite types share a placeholder per kind. */
  function TypeName(t: Type): string {
    match t
    case Prim(p) => PrimName(p)
    case Struct(_) => "<struct>" case Enum(_) => "<enum>" case Array(_) => "<array>" case Module(_) => "<module>"
    case PtrConst(_) => "<ptr const>" case PtrMut(_) => "<ptr mut>" case Interface(_) => "<interface>"
    case Ref(_) => "<ref>" case MutRef(_) => "<mut ref>" case Slice(_) => "<slice>"
    case MutSlice(_) => "<mut slice>" case Vec(_) => "<vec>"
  }

  lemma PrimTagInverts(p: Prim)
    ensures PrimTag(p) < 34 && PRIMS[PrimTag(p)] == p
  {}

  lemma SplitWord(tag: nat, id: nat)
    requires tag < 256
    ensures (tag + 256 * id) % 256 == tag && (tag + 256 * id) / 256 == id
  {}

  /** Decoding the tagged word gives the type back exactly when its pool index fits. */
  lemma KindOfEncoding(t: Type)
    ensures TryKind(AsU32(t)) == Some(t) <==> Encodable(t)
  {
    if t.Prim? {
      SplitWord(Tag(t), 0);
      PrimTagInverts(t.prim);
    } else {
      SplitWord(Tag(t), t.id % 0x100_0000);
      CompoundKind(t, t.id % 0x100_0000);
    }
  }

  lemma CompoundKind(t: Type, id: nat)
    requires !t.Prim?
    ensures TryKind(Tag(t) + 256 * id).Some? && !TryKind(Tag(t) + 256 * id).value.Prim?
    ensures TryKind(Tag(t) + 256 * id).value.id == id && Tag(TryKind(Tag(t) + 256 * id).value) == Tag(t)
    ensures TryKind(Tag(t) + 256 * id) == Some(t) <==> t.id == id
  {
    SplitWord(Tag(t), id);
  }

  lemma AsU32Injective(s: Type, t: Type)
    requires Encodable(s) && Encodable(t) && AsU32(s) == AsU32(t)
    ensures s == t
  {
    KindOfEncoding(s);
    KindOfEncoding(t);
  }

  /** Entry 2^24 has the word of entry 0. */
  lemma OverflowExample()
    ensures AsU32(Struct(0x100_0000)) == AsU32(Struct(0))
  {}

  // ---- The pool -------------------------------------------------------------

  /** An interned string's key. */
  type Spur = nat

  datatype StructDef = StructDef(
    name: string, fields: seq<Type>, destructor: Option<string>, isBuiltin: bool)

  datatype EnumDef = EnumDef(
    name: string, variants: seq<seq<Type>>, destructor: Option<string>, isCLayout: bool)

  /** An index that names a primitive below PRIMITIVE_COUNT and a pool entry from there on. */
  type InternedType = nat

  const PRIMITIVE_COUNT: nat := 34

  datatype TypeData =
    | StructData(name: Spur, structDef: StructDef)
    | EnumData(name: Spur, enumDef: EnumDef)
    | ArrayData(element: InternedType, len: nat)
    | PtrConstData(target: InternedType) | PtrMutData(target: InternedType)
    | RefData(target: InternedType) | MutRefData(target: InternedType)
    | SliceData(target: InternedType) | MutSliceData(target: InternedType)
    | VecData(target: InternedType)

  type Pool = seq<TypeData>

  /** The type of pool entry `id`, tagged by the kind of its data. */
  function EntryType(p: Pool, id: nat): (t: Type)
    requires id < |p|
    ensures !t.Prim? && t.id == id
  {
    match p[id]
    case StructData(_, _) => Struct(id) case EnumData(_, _) => Enum(id)
    case ArrayData(_, _) => Array(id)
    case PtrConstData(_) => PtrConst(id) case PtrMutData(_) => PtrMut(id)
    case RefData(_) => Ref(id) case MutRefData(_) => MutRef(id)
    case SliceData(_) => Slice(id) case MutSliceData(_) => MutSlice(id)
    case VecData(_) => Vec(id)
  }

  /** The tag says what kind of data the entry holds. */
  lemma EntryKind(p: Pool, id: nat)
    requires id < |p|
    ensures var t, d := EntryType(p, id), p[id];
      t.Struct? == d.StructData? && t.Enum? == d.EnumData? && t.Array? == d.ArrayData? &&
      t.PtrConst? == d.PtrConstData? && t.PtrMut? == d.PtrMutData? && t.Ref? == d.RefData? &&
      t.MutRef? == d.MutRefData? && t.Slice? == d.SliceData? && t.MutSlice? == d.MutSliceData? &&
      t.Vec? == d.VecData?
  {}

  /** Primitives in the order of their interned indices; `error` and `never` are
      swapped with respect to the tag order. */
  const INTERNED_PRIMS: seq<Prim> :=
    [ I8, I16, I32, I64, U8, U16, U32, U64, Isize, Usize, F16, F32, F64, Bool, Unit, Never, Error ]

  /** `None` stands for the panic on an index without an arm: every primitive index
      from 17 on, `char` and the C types included. */
  function InternedToType(p: Pool, i: InternedType): (t: Option<Type>)
  {
    if i < |INTERNED_PRIMS| then Some(Prim(INTERNED_PRIMS[i]))
    else if i < PRIMITIVE_COUNT then None
    else if i - PRIMITIVE_COUNT < |p| then Some(EntryType(p, i - PRIMITIVE_COUNT))
    else None
  }

  /** `None` stands for the panic on modules, interfaces and comptime types. */
  function TypeToInterned(t: Type): (i: Option<InternedType>)
  {
    match t
    case Prim(ComptimeType) | Prim(ComptimeStr) | Prim(ComptimeInt) | Module(_) | Interface(_) => None
    case Prim(Never) => Some(15)
    case Prim(Error) => Some(16)
    case Prim(p) => Some(PrimTag(p))
    case _ => Some(t.id + PRIMITIVE_COUNT)
  }

  /** `t` names a pool entry of its own kind, or needs none. */
  predicate ValidType(p: Pool, t: Type) {
    t.Prim? || t.Module? || t.Interface? || (t.id < |p| && EntryType(p, t.id) == t)
  }

  /** Interning a type as an array element and reading the element type back is the
      identity on exactly the types that can be interned and are neither `char` nor a C type. */
  lemma ElementConversionRoundTrip(p: Pool, t: Type)
    requires ValidType(p, t)
    ensures TypeToInterned(t).Some? && InternedToType(p, TypeToInterned(t).value) == Some(t)
        <==> TypeToInterned(t).Some? && !(t.Prim? && PrimTag(t.prim) >= 20)
  {
    if t.Prim? {
      PrimTagInverts(t.prim);
    }
  }

  /** The element type of `[char; 1]` can be interned and not read back. */
  lemma CharElementExample()
    ensures TypeToInterned(Prim(Char)) == Some(20) && InternedToType([ArrayData(20, 1)], 20) == None
  {}

  function ElementType(p: Pool, id: nat): (t: Type)
    requires id < |p| && p[id].ArrayData? && InternedToType(p, p[id].element).Some?
    ensures ValidType(p, t)
  {
    InternedToType(p, p[id].element).value
  }

  /** Every component type of every entry names an entry of its kind. */
  predicate ValidEntry(p: Pool, i: nat)
    requires i < |p|
  {
    match p[i]
    case StructData(_, d) => forall j :: 0 <= j < |d.fields| ==> ValidType(p, d.fields[j])
    case EnumData(_, d) =>
      forall v, j :: 0 <= v < |d.variants| && 0 <= j < |d.variants[v]| ==> ValidType(p, d.variants[v][j])
    case ArrayData(e, _) => InternedToType(p, e).Some?
    case _ => true
  }

  // ---- By-value containment ---------------------------------------------------

  function TypeRank(rank: seq<nat>, t: Type): nat {
    if (t.Struct? || t.Enum? || t.Array?) && t.id < |rank| then rank[t.id] + 1 else 0
  }

  ghost predicate RanksEntry(p: Pool, rank: seq<nat>, i: nat)
    requires i < |p| == |rank| && ValidEntry(p, i)
  {
    match p[i]
    case StructData(_, d) => forall j :: 0 <= j < |d.fields| ==> TypeRank(rank, d.fields[j]) <= rank[i]
    case EnumData(_, d) =>
      forall v, j :: 0 <= v < |d.variants| && 0 <= j < |d.variants[v]| ==>
        TypeRank(rank, d.variants[v][j]) <= rank[i]
    case ArrayData(_, _) => TypeRank(rank, ElementType(p, i)) <= rank[i]
    case _ => true
  }

  ghost predicate Ranks(p: Pool, rank: seq<nat>) {
    |rank| == |p| && forall i :: 0 <= i < |p| ==> ValidEntry(p, i) && RanksEntry(p, rank, i)
  }

  /** All component types exist and no type contains itself by value. */
  ghost predicate WellFormed(p: Pool) {
    exists rank :: Ranks(p, rank)
  }

  ghost function ChosenRank(p: Pool): (rank: seq<nat>)
    requires WellFormed(p)
    ensures Ranks(p, rank)
  {
    var rank :| Ranks(p, rank); rank
  }

  /** Strictly larger for a struct, enum or array than for anything it contains by value. */
  ghost function Rank(p: Pool, t: Type): nat
    requires WellFormed(p)
  {
    TypeRank(ChosenRank(p), t)
  }

  function Fields(p: Pool, t: Type): (fs: seq<Type>)
    requires t.Struct? && ValidType(p, t)
  {
    p[t.id].structDef.fields
  }

  function Variants(p: Pool, t: Type): (vs: seq<seq<Type>>)
    requires t.Enum? && ValidType(p, t)
  {
    p[t.id].enumDef.variants
  }

  lemma FieldBelow(p: Pool, t: Type, j: nat)
    requires WellFormed(p) && t.Struct? && ValidType(p, t) && j < |Fields(p, t)|
    ensures ValidType(p, Fields(p, t)[j]) && Rank(p, Fields(p, t)[j]) < Rank(p, t)
  {
    assert ValidEntry(p, t.id) && RanksEntry(p, ChosenRank(p), t.id);
  }

  lemma VariantFieldBelow(p: Pool, t: Type, v: nat, j: nat)
    requires WellFormed(p) && t.Enum? && ValidType(p, t)
    requires v < |Variants(p, t)| && j < |Variants(p, t)[v]|
    ensures ValidType(p, Variants(p, t)[v][j]) && Rank(p, Variants(p, t)[v][j]) < Rank(p, t)
  {
    assert ValidEntry(p, t.id) && RanksEntry(p, ChosenRank(p), t.id);
  }

  lemma ElementBelow(p: Pool, t: Type)
    requires WellFormed(p) && t.Array? && ValidType(p, t)
    ensures InternedToType(p, p[t.id].element).Some?
    ensures Rank(p, ElementType(p, t.id)) < Rank(p, t)
  {
    assert ValidEntry(p, t.id) && RanksEntry(p, ChosenRank(p), t.id);
  }
}
