/** Size, alignment, niches and discriminant strategy of every type: the layout rules as
    functions of the component layouts, and `ComputeLayout`, which folds them over a pool. */
module Layout {
  import opened Bytes
  import opened Types

  /** Alignments are powers of two; only these occur. */
  type Align = a: int | a == 1 || a == 2 || a == 4 || a == 8 witness 1

  const U32_LIMIT: nat := 0x1_0000_0000

  /** The source's `as u32`. */
  function TruncU32(n: nat): nat { n % U32_LIMIT }

  /** Reading `width` bytes at `offset` of a valid value never gives a number in [start, end]. */
  datatype NicheRange = NicheRange(offset: nat, width: nat, start: nat, end: nat)

  function MaxForWidth(width: nat): nat {
    Pow256(if width >= 16 then 16 else width) - 1
  }

  datatype Strategy =
    | Separate(tagOffset: nat, tagWidth: nat, payloadOffset: nat)
    | Niche(unitVariant: nat, dataVariant: nat, nicheOffset: nat, nicheWidth: nat, nicheValue: nat)

  datatype Layout = Layout(size: nat, align: Align, niches: seq<NicheRange>, discriminant: Option<Strategy>)

  function Scalar(size: nat, align: Align): Layout { Layout(size, align, [], None) }

  const ZERO_SIZED: Layout := Scalar(0, 1)

  /** The bits of `n` below `align`. */
  function LowBits(n: nat, align: Align): (r: nat)
    ensures r <= n && r < align
  {
    if align == 1 then 0 else if align == 2 then n % 2 else if align == 4 then n % 4 else n % 8
  }

  /** Adds `align - 1` and clears the low bits. */
  function AlignUp(value: nat, align: Align): (r: nat)
    ensures value <= r < value + align
  {
    var s := value + align - 1;
    s - LowBits(s, align)
  }

  lemma AlignedTo2(value: nat)
    ensures AlignUp(value, 2) % 2 == 0 && (value % 2 == 0 ==> AlignUp(value, 2) == value)
  {}

  lemma AlignedTo4(value: nat)
    ensures AlignUp(value, 4) % 4 == 0 && (value % 4 == 0 ==> AlignUp(value, 4) == value)
  {}

  lemma AlignedTo8(value: nat)
    ensures AlignUp(value, 8) % 8 == 0 && (value % 8 == 0 ==> AlignUp(value, 8) == value)
  {}

  lemma AlignUpIsAligned(value: nat, align: Align)
    ensures AlignUp(value, align) % align == 0
    ensures value % align == 0 ==> AlignUp(value, align) == value
  {
    if align == 2 {
      AlignedTo2(value);
    } else if align == 4 {
      AlignedTo4(value);
    } else if align == 8 {
      AlignedTo8(value);
    }
  }

  function PrimLayout(prim: Prim): Layout {
    match prim
    case Bool => Layout(1, 1, [NicheRange(0, 1, 2, 255)], None)
    case I8 | U8 | CSchar | CUchar => Scalar(1, 1)
    case I16 | U16 | F16 | CShort | CUshort => Scalar(2, 2)
    case I32 | U32 | F32 | CInt | CUint | CFloat => Scalar(4, 4)
    case I64 | U64 | F64 | Isize | Usize | CLong | CUlong | CLonglong | CUlonglong | CDouble => Scalar(8, 8)
    case Char => Layout(4, 4, [NicheRange(0, 4, 0xD800, 0xDFFF), NicheRange(0, 4, 0x110000, 0xFFFFFFFF)], None)
    case Unit | Never | Error | ComptimeType | ComptimeStr | ComptimeInt | CVoid => ZERO_SIZED
  }

  predicate IsLeaf(t: Type) { !t.Struct? && !t.Enum? && !t.Array? }

  function LeafLayout(t: Type): Layout
    requires IsLeaf(t)
  {
    match t
    case Prim(p) => PrimLayout(p)
    case PtrConst(_) | PtrMut(_) | Ref(_) | MutRef(_) => Scalar(8, 8)
    case Slice(_) | MutSlice(_) | Interface(_) => Scalar(16, 8)
    case Vec(_) => Scalar(24, 8)
    case Module(_) => ZERO_SIZED
  }

  // ---- Structs ------------------------------------------------------------------

  /** Running offset after the first `i` fields. */
  function End(ls: seq<Layout>, i: nat): nat
    requires i <= |ls|
    decreases i, 0
  {
    if i == 0 then 0 else FieldOffset(ls, i - 1) + ls[i - 1].size
  }

  /** Where field `i` starts; a zero-sized field is skipped, so it is not aligned. */
  function FieldOffset(ls: seq<Layout>, i: nat): (r: nat)
    requires i < |ls|
    ensures End(ls, i) <= r
    decreases i, 1
  {
    if ls[i].size == 0 then End(ls, i) else AlignUp(End(ls, i), ls[i].align)
  }

  function MaxAlign(ls: seq<Layout>, i: nat): Align
    requires i <= |ls|
  {
    if i == 0 then 1
    else if ls[i - 1].size == 0 then MaxAlign(ls, i - 1)
    else var m := MaxAlign(ls, i - 1); if ls[i - 1].align > m then ls[i - 1].align else m
  }

  function Shift(n: NicheRange, offset: nat): NicheRange {
    n.(offset := TruncU32(n.offset + TruncU32(offset)))
  }

  function ShiftAll(ns: seq<NicheRange>, offset: nat): (r: seq<NicheRange>)
    ensures |r| == |ns| && forall k :: 0 <= k < |ns| ==> r[k] == Shift(ns[k], offset)
  {
    if ns == [] then [] else [Shift(ns[0], offset)] + ShiftAll(ns[1..], offset)
  }

  function StructNiches(ls: seq<Layout>, i: nat): seq<NicheRange>
    requires i <= |ls|
  {
    if i == 0 then []
    else StructNiches(ls, i - 1) +
         (if ls[i - 1].size == 0 then [] else ShiftAll(ls[i - 1].niches, FieldOffset(ls, i - 1)))
  }

  function StructLayout(ls: seq<Layout>): Layout {
    var align := MaxAlign(ls, |ls|);
    var end := End(ls, |ls|);
    Layout(if align > 1 then AlignUp(end, align) else end, align, StructNiches(ls, |ls|), None)
  }

  function ArrayLayout(elem: Layout, len: nat): Layout {
    Layout(elem.size * len, elem.align, [], None)
  }

  // ---- Enums ----------------------------------------------------------------------

  /** The smallest unsigned integer that fits the variant index; `c_int` for a C enum. */
  function DiscriminantType(count: nat, isC: bool): Prim {
    if isC then CInt
    else if count == 0 then Never
    else if count <= 256 then U8
    else if count <= 65536 then U16
    else if count <= 4_294_967_296 then U32
    else U64
  }

  function IsUnitOnly(vs: seq<seq<Layout>>): bool { forall i :: 0 <= i < |vs| ==> vs[i] == [] }

  /** Byte offset of field `i` in a packed payload. */
  function PackedOffset(ls: seq<Layout>, i: nat): nat
    requires i <= |ls|
  {
    if i == 0 then 0 else PackedOffset(ls, i - 1) + ls[i - 1].size
  }

  function PayloadSize(ls: seq<Layout>): nat { PackedOffset(ls, |ls|) }

  function MaxPayload(vs: seq<seq<Layout>>): (r: nat)
    ensures forall i :: 0 <= i < |vs| ==> PayloadSize(vs[i]) <= r
  {
    if vs == [] then 0
    else var m := MaxPayload(vs[1..]); if PayloadSize(vs[0]) > m then PayloadSize(vs[0]) else m
  }

  function MaxFieldAlign(ls: seq<Layout>): Align {
    if ls == [] then 1
    else var m := MaxFieldAlign(ls[1..]); if ls[0].align > m then ls[0].align else m
  }

  function MaxVariantAlign(vs: seq<seq<Layout>>): Align {
    if vs == [] then 1
    else
      var a, m := MaxFieldAlign(vs[0]), MaxVariantAlign(vs[1..]);
      if a > m then a else m
  }

  /** The storage is the discriminant; values from the variant count on are forbidden. */
  function UnitOnlyLayout(count: nat, discrim: Layout): Layout {
    var max := MaxForWidth(discrim.size);
    Layout(discrim.size, discrim.align,
           if 0 < count <= max then [NicheRange(0, discrim.size, count, max)] else [],
           Some(Separate(0, discrim.size, TruncU32(discrim.size))))
  }

  /** The C tagged union: the payload starts at the strictest alignment of any field. */
  function CTaggedLayout(vs: seq<seq<Layout>>, discrim: Layout): Layout {
    var va := MaxVariantAlign(vs);
    var align: Align := if discrim.align > va then discrim.align else va;
    var payloadOffset := AlignUp(discrim.size, align);
    Layout(AlignUp(payloadOffset + AlignUp(MaxPayload(vs), align), align), align, [],
           Some(Separate(0, discrim.size, TruncU32(payloadOffset))))
  }

  function TaggedLayout(vs: seq<seq<Layout>>, discrim: Layout): Layout {
    Layout(if MaxPayload(vs) == 0 then discrim.size
           else AlignUp(discrim.size + MaxPayload(vs), discrim.align),
           discrim.align, [], Some(Separate(0, discrim.size, TruncU32(discrim.size))))
  }

  function SeparateLayout(vs: seq<seq<Layout>>, isC: bool): Layout {
    var discrim := PrimLayout(DiscriminantType(|vs|, isC));
    if IsUnitOnly(vs) then UnitOnlyLayout(|vs|, discrim)
    else if isC then CTaggedLayout(vs, discrim)
    else TaggedLayout(vs, discrim)
  }

  /** Exactly one unit variant and one data variant of a single field: (unit, data). */
  function OptionShape(vs: seq<seq<Layout>>): (r: Option<(nat, nat)>)
    ensures r.Some? ==> |vs| == 2 && {r.value.0, r.value.1} == {0, 1}
                        && vs[r.value.0] == [] && |vs[r.value.1]| == 1
  {
    if |vs| != 2 then None
    else if vs[0] == [] && |vs[1]| == 1 then Some((0, 1))
    else if vs[1] == [] && |vs[0]| == 1 then Some((1, 0))
    else None
  }

  function TryNicheLayout(vs: seq<seq<Layout>>): Option<Layout> {
    match OptionShape(vs)
    case None => None
    case Some((unit, data)) =>
      var payload := vs[data][0];
      if payload.niches == [] then None
      else
        var n := payload.niches[0];
        Some(Layout(payload.size, payload.align,
                    if n.start + 1 <= n.end then [n.(start := n.start + 1)] else [],
                    Some(Niche(unit, data, n.offset, n.width, n.start))))
  }

  /** The niche form is tried first, whether or not the enum is C-layout. */
  function EnumLayout(vs: seq<seq<Layout>>, isC: bool): (l: Layout)
    ensures l.discriminant.Some?
  {
    match TryNicheLayout(vs)
    case Some(l) => l
    case None => SeparateLayout(vs, isC)
  }

  // ---- The layout of a type in a pool -----------------------------------------------

  function ComputeLayout(p: Pool, t: Type): Layout
    requires WellFormed(p) && ValidType(p, t)
    decreases Rank(p, t), 1
  {
    match t
    case Struct(_) => StructLayout(FieldLayouts(p, t))
    case Array(id) => ElementBelow(p, t); ArrayLayout(ComputeLayout(p, ElementType(p, id)), p[id].len)
    case Enum(id) => EnumLayout(VariantLayouts(p, t), p[id].enumDef.isCLayout)
    case _ => LeafLayout(t)
  }

  function FieldLayouts(p: Pool, t: Type): (ls: seq<Layout>)
    requires WellFormed(p) && t.Struct? && ValidType(p, t)
    ensures |ls| == |Fields(p, t)|
    decreases Rank(p, t), 0
  {
    var fs := Fields(p, t);
    seq(|fs|, j requires 0 <= j < |fs| => FieldBelow(p, t, j); ComputeLayout(p, fs[j]))
  }

  function VariantLayouts(p: Pool, t: Type): (vs: seq<seq<Layout>>)
    requires WellFormed(p) && t.Enum? && ValidType(p, t)
    ensures |vs| == |Variants(p, t)|
    ensures forall v :: 0 <= v < |vs| ==> |vs[v]| == |Variants(p, t)[v]|
    decreases Rank(p, t), 0
  {
    var vs := Variants(p, t);
    seq(|vs|, v requires 0 <= v < |vs| =>
      seq(|vs[v]|, j requires 0 <= j < |vs[v]| =>
        VariantFieldBelow(p, t, v, j); ComputeLayout(p, vs[v][j])))
  }

  /** No type is 4 GiB or larger, the bound behind the source's `as u32` casts. */
  ghost predicate SizesFit(p: Pool)
    requires WellFormed(p)
  {
    forall t :: ValidType(p, t) ==> ComputeLayout(p, t).size < U32_LIMIT
  }

  // ---- Well-formed layouts -------------------------------------------------------------

  /** The niche's bytes lie inside the type and its range is a non-empty range of `width`-byte numbers. */
  predicate NicheFits(n: NicheRange, size: nat) {
    n.width >= 1 && n.offset + n.width <= size && n.start <= n.end < Pow256(n.width)
  }

  predicate LayoutFits(l: Layout) {
    forall k :: 0 <= k < |l.niches| ==> NicheFits(l.niches[k], l.size)
  }

  lemma {:induction false} EndMonotone(ls: seq<Layout>, i: nat, j: nat)
    requires i <= j <= |ls|
    ensures End(ls, i) <= End(ls, j)
    decreases j
  {
    if i < j {
      EndMonotone(ls, i, j - 1);
    }
  }

  /** Fields lie inside the struct. */
  lemma {:induction false} FieldInBounds(ls: seq<Layout>, i: nat)
    requires i < |ls|
    ensures FieldOffset(ls, i) + ls[i].size <= StructLayout(ls).size
  {
    EndMonotone(ls, i + 1, |ls|);
  }

  /** A field starts after every earlier field ends. */
  lemma {:induction false} FieldsDisjoint(ls: seq<Layout>, j: nat, i: nat)
    requires j < i < |ls|
    ensures FieldOffset(ls, j) + ls[j].size <= FieldOffset(ls, i)
  {
    EndMonotone(ls, j + 1, i);
  }

  /** Nothing is wasted: a field with bytes starts at the first aligned offset after the previous
      one, and the size is the first multiple of the alignment that holds them all. */
  lemma StructLayoutTight(ls: seq<Layout>, i: nat)
    requires i < |ls| && ls[i].size > 0
    ensures FieldOffset(ls, i) % ls[i].align == 0 && End(ls, i) <= FieldOffset(ls, i) < End(ls, i) + ls[i].align
    ensures var l := StructLayout(ls);
      l.size % l.align == 0 && End(ls, |ls|) <= l.size < End(ls, |ls|) + l.align && ls[i].align <= l.align
  {
    AlignUpIsAligned(End(ls, i), ls[i].align);
    AlignUpIsAligned(End(ls, |ls|), MaxAlign(ls, |ls|));
    MaxAlignCovers(ls, |ls|, i);
  }

  lemma {:induction false} MaxAlignCovers(ls: seq<Layout>, n: nat, i: nat)
    requires i < n <= |ls| && ls[i].size > 0
    ensures ls[i].align <= MaxAlign(ls, n)
  {
    if i < n - 1 {
      MaxAlignCovers(ls, n - 1, i);
    }
  }

  lemma {:induction false} MaxPayloadAttained(vs: seq<seq<Layout>>) returns (i: nat)
    requires vs != []
    ensures i < |vs| && PayloadSize(vs[i]) == MaxPayload(vs)
  {
    if |vs| == 1 || MaxPayload(vs[1..]) < PayloadSize(vs[0]) {
      i := 0;
    } else {
      i := MaxPayloadAttained(vs[1..]);
      i := i + 1;
    }
  }

  /** A tagged enum is as small as its tag and its largest variant allow. */
  lemma TaggedLayoutTight(vs: seq<seq<Layout>>) returns (i: nat)
    requires vs != [] && !IsUnitOnly(vs)
    ensures i < |vs|
    ensures var l, tag := SeparateLayout(vs, false), PrimLayout(DiscriminantType(|vs|, false));
      l.size % tag.align == 0 && tag.size + PayloadSize(vs[i]) <= l.size < tag.size + PayloadSize(vs[i]) + tag.align
  {
    i := MaxPayloadAttained(vs);
    var tag := PrimLayout(DiscriminantType(|vs|, false));
    AlignUpIsAligned(tag.size + MaxPayload(vs), tag.align);
  }

  lemma CTaggedSize(vs: seq<seq<Layout>>)
    requires !IsUnitOnly(vs)
    ensures var l := SeparateLayout(vs, true);
      4 <= l.align && l.size == AlignUp(AlignUp(4, l.align) + AlignUp(MaxPayload(vs), l.align), l.align)
  {
    var tag := PrimLayout(DiscriminantType(|vs|, true));
    assert tag.size == 4 && tag.align == 4;
    assert SeparateLayout(vs, true) == CTaggedLayout(vs, tag);
    CTaggedIs(vs, tag);
  }

  lemma CTaggedIs(vs: seq<seq<Layout>>, tag: Layout)
    ensures var l := CTaggedLayout(vs, tag);
      tag.align <= l.align && l.size == AlignUp(AlignUp(tag.size, l.align) + AlignUp(MaxPayload(vs), l.align), l.align)
  {}

  lemma FirstMultiple(value: nat, align: Align, r: nat)
    requires r == AlignUp(value, align)
    ensures r % align == 0 && value <= r < value + align
  {
    AlignUpIsAligned(value, align);
  }

  /** A C tagged union is as small as the alignment of tag and payload allows. */
  lemma CTaggedLayoutTight(vs: seq<seq<Layout>>) returns (i: nat)
    requires vs != [] && !IsUnitOnly(vs)
    ensures i < |vs|
    ensures var l := SeparateLayout(vs, true);
      var parts := AlignUp(4, l.align) + AlignUp(PayloadSize(vs[i]), l.align);
      4 <= l.align && l.size % l.align == 0 && parts <= l.size < parts + l.align
  {
    i := MaxPayloadAttained(vs);
    CTaggedSize(vs);
    var l := SeparateLayout(vs, true);
    FirstMultiple(AlignUp(4, l.align) + AlignUp(PayloadSize(vs[i]), l.align), l.align, l.size);
  }

  /** Every struct niche is some field's niche, moved to that field's offset. */
  lemma {:induction false} StructNicheOrigin(ls: seq<Layout>, i: nat, k: nat) returns (j: nat, m: nat)
    requires i <= |ls| && k < |StructNiches(ls, i)|
    ensures j < i && m < |ls[j].niches| && ls[j].size > 0
    ensures StructNiches(ls, i)[k] == Shift(ls[j].niches[m], FieldOffset(ls, j))
  {
    var before := |StructNiches(ls, i - 1)|;
    if k < before {
      j, m := StructNicheOrigin(ls, i - 1, k);
    } else {
      j, m := i - 1, k - before;
    }
  }

  lemma ShiftExact(n: NicheRange, offset: nat, size: nat)
    requires NicheFits(n, size) && offset + size < U32_LIMIT
    ensures Shift(n, offset) == n.(offset := n.offset + offset)
  {}

  lemma {:induction false} StructLayoutFits(ls: seq<Layout>)
    requires forall i :: 0 <= i < |ls| ==> LayoutFits(ls[i])
    requires StructLayout(ls).size < U32_LIMIT
    ensures LayoutFits(StructLayout(ls))
  {
    var l := StructLayout(ls);
    forall k | 0 <= k < |l.niches| ensures NicheFits(l.niches[k], l.size) {
      var j, m := StructNicheOrigin(ls, |ls|, k);
      FieldInBounds(ls, j);
      ShiftExact(ls[j].niches[m], FieldOffset(ls, j), ls[j].size);
    }
  }

  lemma UnitOnlyLayoutFits(count: nat, discrim: Layout)
    requires discrim.size <= 8
    ensures LayoutFits(UnitOnlyLayout(count, discrim))
  {}

  lemma {:induction false} SeparateLayoutFits(vs: seq<seq<Layout>>, isC: bool)
    ensures LayoutFits(SeparateLayout(vs, isC))
  {
    UnitOnlyLayoutFits(|vs|, PrimLayout(DiscriminantType(|vs|, isC)));
  }

  lemma {:induction false} EnumLayoutFits(vs: seq<seq<Layout>>, isC: bool)
    requires forall v, j :: 0 <= v < |vs| && 0 <= j < |vs[v]| ==> LayoutFits(vs[v][j])
    ensures LayoutFits(EnumLayout(vs, isC))
  {
    if TryNicheLayout(vs).Some? {
      var payload := vs[OptionShape(vs).value.1][0];
      assert LayoutFits(payload) && NicheFits(payload.niches[0], payload.size);
    } else {
      SeparateLayoutFits(vs, isC);
    }
  }

  /** Every exposed niche of every type lies inside the type. */
  lemma {:induction false} ComputedLayoutFits(p: Pool, t: Type)
    requires WellFormed(p) && SizesFit(p) && ValidType(p, t)
    ensures LayoutFits(ComputeLayout(p, t))
    decreases Rank(p, t)
  {
    match t
    case Struct(_) =>
      var ls := FieldLayouts(p, t);
      forall j | 0 <= j < |ls| ensures LayoutFits(ls[j]) {
        FieldBelow(p, t, j);
        ComputedLayoutFits(p, Fields(p, t)[j]);
      }
      StructLayoutFits(ls);
    case Array(_) =>
    case Enum(id) =>
      var vs := VariantLayouts(p, t);
      forall v, j | 0 <= v < |vs| && 0 <= j < |vs[v]| ensures LayoutFits(vs[v][j]) {
        VariantFieldBelow(p, t, v, j);
        ComputedLayoutFits(p, Variants(p, t)[v][j]);
      }
      EnumLayoutFits(vs, p[id].enumDef.isCLayout);
    case _ =>
  }

  // ---- Nested options ------------------------------------------------------------------------

  /** `t` is an enum of one unit variant and one variant holding just `payload`. */
  ghost predicate OptionOver(p: Pool, t: Type, payload: Type) {
    t.Enum? && ValidType(p, t) && (Variants(p, t) == [[], [payload]] || Variants(p, t) == [[payload], []])
  }

  /** `ts[0]` wrapped in one option after another, none of them C-layout. */
  ghost predicate OptionTower(p: Pool, ts: seq<Type>) {
    |ts| > 0 && ValidType(p, ts[0]) &&
    forall i :: 0 < i < |ts| ==> OptionOver(p, ts[i], ts[i - 1]) && !p[ts[i].id].enumDef.isCLayout
  }

  lemma OptionLayouts(p: Pool, t: Type, payload: Type)
    requires WellFormed(p) && OptionOver(p, t, payload)
    ensures ValidType(p, payload)
    ensures var l := ComputeLayout(p, payload);
      VariantLayouts(p, t) == [[], [l]] || VariantLayouts(p, t) == [[l], []]
  {
    var data := if Variants(p, t)[0] == [] then 1 else 0;
    VariantFieldBelow(p, t, data, 0);
    assert VariantLayouts(p, t)[data] == [ComputeLayout(p, payload)];
    assert VariantLayouts(p, t)[1 - data] == [];
  }

  /** `l` is what `k` options around a payload of layout `base` look like. */
  predicate AtLevel(base: Layout, l: Layout, k: nat)
    requires base.niches != []
  {
    var n := base.niches[0];
    var c := n.end - n.start + 1;
    if k == 0 then l == base
    else if k <= c then
      l.size == base.size && l.align == base.align &&
      l.niches == (if k < c then [n.(start := n.start + k)] else []) &&
      l.discriminant.Some? && l.discriminant.value.Niche? && l.discriminant.value.nicheOffset == n.offset &&
      l.discriminant.value.nicheWidth == n.width && l.discriminant.value.nicheValue == n.start + k - 1
    else l == Layout(base.size + 1, 1, [], Some(Separate(0, 1, 1)))
  }

  lemma LevelStep(base: Layout, l: Layout, vs: seq<seq<Layout>>, k: nat)
    requires base.niches != [] && NicheFits(base.niches[0], base.size)
    requires k <= base.niches[0].end - base.niches[0].start + 1
    requires AtLevel(base, l, k) && (vs == [[], [l]] || vs == [[l], []])
    ensures AtLevel(base, EnumLayout(vs, false), k + 1)
  {
    WrapLayout(l, vs);
  }

  /** A first niche of `c` values pays for exactly `c` nested options: level `k <= c` keeps size and
      alignment and encodes its unit variant as the `k`-th forbidden value; level `c + 1` has to
      add a one-byte tag. */
  lemma {:induction false} NicheBudget(p: Pool, ts: seq<Type>, k: nat)
    requires WellFormed(p) && SizesFit(p) && OptionTower(p, ts) && k < |ts|
    requires ComputeLayout(p, ts[0]).niches != []
    requires var n := ComputeLayout(p, ts[0]).niches[0]; k <= n.end - n.start + 2
    ensures ValidType(p, ts[k]) && AtLevel(ComputeLayout(p, ts[0]), ComputeLayout(p, ts[k]), k)
  {
    if k > 0 {
      NicheBudget(p, ts, k - 1);
      ComputedLayoutFits(p, ts[0]);
      assert NicheFits(ComputeLayout(p, ts[0]).niches[0], ComputeLayout(p, ts[0]).size);
      assert OptionOver(p, ts[k], ts[k - 1]);
      OptionLayouts(p, ts[k], ts[k - 1]);
      LevelStep(ComputeLayout(p, ts[0]), ComputeLayout(p, ts[k - 1]), VariantLayouts(p, ts[k]), k - 1);
    }
  }

  /** One option around a payload: the niche if there is one, else a one-byte tag. */
  lemma {:induction false} WrapLayout(l: Layout, vs: seq<seq<Layout>>)
    requires vs == [[], [l]] || vs == [[l], []]
    ensures var r := EnumLayout(vs, false);
      r.discriminant.Some? &&
      if l.niches != [] then
        var n := l.niches[0];
        r.size == l.size && r.align == l.align &&
        r.niches == (if n.start < n.end then [n.(start := n.start + 1)] else []) &&
        r.discriminant.value.Niche? && r.discriminant.value.nicheOffset == n.offset &&
        r.discriminant.value.nicheWidth == n.width && r.discriminant.value.nicheValue == n.start
      else l.size > 0 ==>
        r == Layout(l.size + 1, 1, [], Some(Separate(0, 1, 1)))
  {
    if l.niches == [] {
      var data := if vs[0] == [] then 1 else 0;
      assert PayloadSize(vs[data]) == PackedOffset([l], 1) == l.size;
      assert PayloadSize(vs[1 - data]) == 0;
      assert vs[1..] == [vs[1]] && vs[1..][1..] == [];
      assert MaxPayload(vs[1..][1..]) == 0;
      assert MaxPayload(vs[1..]) == PayloadSize(vs[1]);
      assert MaxPayload(vs) == l.size;
      assert vs[data] != [];
      assert !IsUnitOnly(vs);
    }
  }

  // ---- C enums ------------------------------------------------------------------------------------

  /** A C-layout enum keeps its tag exactly when it is not an option of a type with a niche;
      the definition's own documentation says a C enum is never niche-encoded. */
  lemma {:induction false} CEnumKeepsTag(vs: seq<seq<Layout>>)
    ensures EnumLayout(vs, true).discriminant.value.Separate? <==>
            !(OptionShape(vs).Some? && vs[OptionShape(vs).value.1][0].niches != [])
    ensures EnumLayout(vs, true).discriminant.value.Separate? ==>
            EnumLayout(vs, true).discriminant.value.tagWidth == 4
  {}

  /** `@mark(c) enum { None, Some(bool) }` is one byte with the value 2 for `None`. */
  lemma CEnumNicheExample()
    ensures EnumLayout([[], [PrimLayout(Bool)]], true) ==
            Layout(1, 1, [NicheRange(0, 1, 3, 255)], Some(Niche(0, 1, 0, 1, 2)))
  {}
}
