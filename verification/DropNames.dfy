/** Which types need dropping, and the name of the function that drops them. */
module DropNames {
  import opened Bytes
  import opened Types
  import opened Decimal
  import opened InternPool

  predicate NeedsDrop(p: Pool, t: Type)
    requires WellFormed(p) && ValidType(p, t)
    decreases Rank(p, t)
  {
    match t
    case Struct(id) =>
      p[id].structDef.destructor.Some? ||
      exists j :: 0 <= j < |Fields(p, t)| && (FieldBelow(p, t, j); NeedsDrop(p, Fields(p, t)[j]))
    case Enum(id) =>
      p[id].enumDef.destructor.Some? ||
      exists v, j :: 0 <= v < |Variants(p, t)| && 0 <= j < |Variants(p, t)[v]| &&
        (VariantFieldBelow(p, t, v, j); NeedsDrop(p, Variants(p, t)[v][j]))
    case Array(id) => ElementBelow(p, t); NeedsDrop(p, ElementType(p, id))
    case Vec(_) => true
    case _ => false
  }

  // ---- Reading names off the pool ------------------------------------------------------------------

  /** Structural entries refer to entries before them; interning keeps it so. */
  predicate Backward(p: Pool) {
    forall i :: 0 <= i < |p| ==> KnownTargets(p[i], i)
  }

  predicate Structural(d: TypeData) { !d.StructData? && !d.EnumData? }

  function Target(d: TypeData): InternedType
    requires Structural(d)
  {
    if d.ArrayData? then d.element else d.target
  }

  /** Types that are named through another type. */
  predicate IsCompound(t: Type) { !t.Prim? && !t.Module? && !t.Interface? && !t.Struct? && !t.Enum? }

  function Above(t: Type): nat { if t.Prim? || t.Module? || t.Interface? then 0 else t.id + 1 }

  function TargetType(p: Pool, i: nat): (t: Type)
    requires Backward(p) && i < |p| && Structural(p[i]) && InternedToType(p, Target(p[i])).Some?
    ensures ValidType(p, t) && Above(t) <= i
  {
    InternedToType(p, Target(p[i])).value
  }

  /** Every type on the way down from `t` can be read back from the pool; the source panics on `char`
      and the C types there. */
  predicate Nameable(p: Pool, t: Type)
    requires Backward(p) && ValidType(p, t)
    decreases Above(t)
  {
    IsCompound(t) ==> InternedToType(p, Target(p[t.id])).Some? && Nameable(p, TargetType(p, t.id))
  }

  function PrimComponent(p: Prim): string {
    match p
    case Unit => "unit" case Never => "never" case Error => "error" case ComptimeType => "comptime_type"
    case _ => PrimName(p)
  }

  /** The part of a drop function's name that stands for an element type. */
  function NameComponent(p: Pool, t: Type): string
    requires Backward(p) && ValidType(p, t) && Nameable(p, t)
    decreases Above(t)
  {
    match t
    case Prim(x) => PrimComponent(x)
    case Struct(id) => p[id].structDef.name
    case Enum(id) => "enum" + ToDec(id)
    case Module(id) => "module" + ToDec(id)
    case Interface(id) => "interface" + ToDec(id)
    case Array(id) => "array_" + NameComponent(p, TargetType(p, id)) + "_" + ToDec(p[id].len)
    case PtrConst(id) => "ptr_const_" + NameComponent(p, TargetType(p, id))
    case PtrMut(id) => "ptr_mut_" + NameComponent(p, TargetType(p, id))
    case Ref(id) => "ref_" + NameComponent(p, TargetType(p, id))
    case MutRef(id) => "mut_ref_" + NameComponent(p, TargetType(p, id))
    case Slice(id) => "slice_" + NameComponent(p, TargetType(p, id))
    case MutSlice(id) => "mut_slice_" + NameComponent(p, TargetType(p, id))
    case Vec(id) => "vec_" + NameComponent(p, TargetType(p, id))
  }

  /** Only the name of a droppable array is read off other types. */
  predicate DropNameable(p: Pool, t: Type)
    requires WellFormed(p) && Backward(p) && ValidType(p, t)
  {
    t.Array? && NeedsDrop(p, t) ==> Nameable(p, t)
  }

  const DROP_PREFIX: string := "__gruel_drop_"

  function DropFnName(p: Pool, t: Type): Option<string>
    requires WellFormed(p) && Backward(p) && ValidType(p, t) && DropNameable(p, t)
  {
    match t
    case Struct(id) => if NeedsDrop(p, t) then Some(DROP_PREFIX + p[id].structDef.name) else None
    case Enum(id) => if NeedsDrop(p, t) then Some(DROP_PREFIX + p[id].enumDef.name) else None
    case Array(id) => if NeedsDrop(p, t) then Some(DROP_PREFIX + NameComponent(p, t)) else None
    case _ => None
  }

  /** A drop function exists for exactly the droppable structs, enums and arrays. */
  lemma DropFnNameExact(p: Pool, t: Type)
    requires WellFormed(p) && Backward(p) && ValidType(p, t) && DropNameable(p, t)
    ensures DropFnName(p, t).Some? <==> NeedsDrop(p, t) && !t.Vec?
  {}

  /** Every drop name can be formed: no droppable array is named through an unreadable type. */
  ghost predicate DropsNameable(p: Pool) {
    WellFormed(p) && Backward(p) &&
    forall t {:trigger DropNameable(p, t)} :: ValidType(p, t) ==> DropNameable(p, t)
  }
}
