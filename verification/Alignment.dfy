/** Where bytes may start. Sizes are multiples of alignments, parts of structs, arrays and niche-encoded
    enums sit at multiples of their own alignment, and so does every leaf reached through them; the
    sizes and alignments of leaves, tags and C unions are tied to what they have to hold. */
module Alignment {
  import opened Bytes
  import opened Decimal
  import opened Types
  import opened Layout
  import opened Storage

  // ---- Multiples -------------------------------------------------------------------------------

  predicate Aligned(n: nat, a: Align) { LowBits(n, a) == 0 }

  lemma AlignedExact(n: nat, a: Align)
    ensures Aligned(n, a) <==> n % a == 0
  {}

  lemma MultipleOf2(n: nat, k: nat)
    requires n % 2 == 0
    ensures (n * k) % 2 == 0
  {
    assert n * k == 2 * ((n / 2) * k);
  }

  lemma MultipleOf4(n: nat, k: nat)
    requires n % 4 == 0
    ensures (n * k) % 4 == 0
  {
    assert n * k == 4 * ((n / 4) * k);
  }

  lemma MultipleOf8(n: nat, k: nat)
    requires n % 8 == 0
    ensures (n * k) % 8 == 0
  {
    assert n * k == 8 * ((n / 8) * k);
  }

  lemma Multiple(n: nat, k: nat, a: Align)
    requires Aligned(n, a)
    ensures Aligned(n * k, a)
  {
    if a == 2 {
      MultipleOf2(n, k);
    } else if a == 4 {
      MultipleOf4(n, k);
    } else if a == 8 {
      MultipleOf8(n, k);
    }
  }

  lemma RoundedUp(value: nat, a: Align, r: nat)
    requires r == AlignUp(value, a)
    ensures Aligned(r, a) && value <= r < value + a
  {
    FirstMultiple(value, a, r);
    AlignedExact(r, a);
  }

  /** Of two alignments the smaller divides the larger. */
  lemma AlignsNest(a: Align, b: Align)
    ensures Aligned(b, a) <==> a <= b
  {}

  /** Moving by a multiple of a larger alignment keeps a smaller one. */
  lemma SumAligned(m: nat, n: nat, a: Align, b: Align)
    requires Aligned(b, a) && Aligned(m, b) && Aligned(n, a)
    ensures Aligned(m + n, a)
  {}

  // ---- Sizes -------------------------------------------------------------------------------------

  function AlignOf(p: Pool, t: Type): Align
    requires WellFormed(p) && ValidType(p, t)
  {
    ComputeLayout(p, t).align
  }

  predicate WholeUnits(l: Layout) { Aligned(l.size, l.align) }

  lemma StructWhole(ls: seq<Layout>)
    ensures WholeUnits(StructLayout(ls))
  {
    var align, end := MaxAlign(ls, |ls|), End(ls, |ls|);
    RoundedUp(end, align, AlignUp(end, align));
  }

  lemma CTaggedWhole(vs: seq<seq<Layout>>, tag: Layout)
    ensures WholeUnits(CTaggedLayout(vs, tag))
  {
    var l := CTaggedLayout(vs, tag);
    CTaggedIs(vs, tag);
    RoundedUp(AlignUp(tag.size, l.align) + AlignUp(MaxPayload(vs), l.align), l.align, l.size);
  }

  lemma TaggedWhole(vs: seq<seq<Layout>>, tag: Layout)
    requires WholeUnits(tag)
    ensures WholeUnits(TaggedLayout(vs, tag))
  {
    var n := tag.size + MaxPayload(vs);
    RoundedUp(n, tag.align, AlignUp(n, tag.align));
  }

  lemma SeparateWhole(vs: seq<seq<Layout>>, isC: bool)
    ensures WholeUnits(SeparateLayout(vs, isC))
  {
    var prim := DiscriminantType(|vs|, isC);
    PrimWhole(prim);
    if !IsUnitOnly(vs) && isC {
      CTaggedWhole(vs, PrimLayout(prim));
    } else if !IsUnitOnly(vs) {
      TaggedWhole(vs, PrimLayout(prim));
    }
  }

  lemma PrimWhole(prim: Prim)
    ensures WholeUnits(PrimLayout(prim))
  {}

  /** Every type's size is a multiple of its alignment, so the elements of an array need no padding. */
  lemma {:induction false} SizeAligned(p: Pool, t: Type)
    requires WellFormed(p) && ValidType(p, t)
    ensures Aligned(Size(p, t), AlignOf(p, t))
    decreases Rank(p, t)
  {
    if t.Struct? {
      StructWhole(FieldLayouts(p, t));
    } else if t.Array? {
      ElementBelow(p, t);
      var elem := ElementType(p, t.id);
      SizeAligned(p, elem);
      Multiple(Size(p, elem), p[t.id].len, AlignOf(p, elem));
    } else if t.Enum? {
      var vs := VariantLayouts(p, t);
      if TryNicheLayout(vs).Some? {
        var data := OptionShape(vs).value.1;
        VariantFieldBelow(p, t, data, 0);
        SizeAligned(p, Variants(p, t)[data][0]);
      } else {
        SeparateWhole(vs, p[t.id].enumDef.isCLayout);
      }
    }
  }

  // ---- Parts ---------------------------------------------------------------------------------------

  /** `t` keeps its parts aligned: a struct, an array, or the data variant of a niche-encoded enum. */
  ghost predicate Aligning(p: Pool, t: Type, i: nat) {
    HasParts(p, t, i) && (t.Enum? ==> StrategyOf(p, t).Niche? && i == StrategyOf(p, t).dataVariant)
  }

  lemma StructPartAligned(ls: seq<Layout>, j: nat, offset: nat, a: Align, whole: Align)
    requires j < |ls| && ls[j].size > 0
    requires offset == FieldOffset(ls, j) && a == ls[j].align && whole == StructLayout(ls).align
    ensures Aligned(offset, a) && Aligned(whole, a)
  {
    MaxAlignCovers(ls, |ls|, j);
    AlignsNest(a, whole);
    RoundedUp(End(ls, j), a, offset);
  }

  lemma ArrayPartAligned(j: nat, size: nat, a: Align, offset: nat)
    requires Aligned(size, a) && offset == ElementOffset(j, size)
    ensures Aligned(offset, a)
  {
    Multiple(size, j, a);
  }

  /** A part with bytes starts at a multiple of its alignment, which divides the whole's. */
  lemma {:induction false} PartAligned(p: Pool, t: Type, i: nat, j: nat)
    requires Aligning(p, t, i) && j < PartCount(p, t, i) && PartSize(p, t, i, j) > 0
    ensures Aligned(PartOffset(p, t, i, j), AlignOf(p, PartType(p, t, i, j)))
    ensures Aligned(AlignOf(p, t), AlignOf(p, PartType(p, t, i, j)))
  {
    var part, offset := PartType(p, t, i, j), PartOffset(p, t, i, j);
    AlignsNest(AlignOf(p, part), AlignOf(p, part));
    if t.Struct? {
      FieldBelow(p, t, j);
      StructPartAligned(FieldLayouts(p, t), j, offset, AlignOf(p, part), AlignOf(p, t));
    } else if t.Array? {
      ElementBelow(p, t);
      SizeAligned(p, part);
      ArrayPartAligned(j, Size(p, part), AlignOf(p, part), offset);
    } else {
      NicheAtStart(p, t, i, j);
    }
  }

  lemma NicheAtStart(p: Pool, t: Type, i: nat, j: nat)
    requires Aligning(p, t, i) && t.Enum? && j < PartCount(p, t, i)
    ensures j == 0 && PartCount(p, t, i) == 1
    ensures PartOffset(p, t, i, j) == 0 && AlignOf(p, t) == AlignOf(p, PartType(p, t, i, j))
  {
    VariantFieldBelow(p, t, i, j);
  }

  /** Nothing is aligned more than it has to be: a struct as its strictest field with bytes, an
      array as its element, a niche-encoded enum as its payload. */
  lemma {:induction false} AlignAttained(p: Pool, t: Type, i: nat)
    requires Aligning(p, t, i)
    ensures t.Array? ==> AlignOf(p, t) == (ElementBelow(p, t); AlignOf(p, ElementType(p, t.id)))
    ensures t.Enum? ==> PartCount(p, t, i) == 1 && AlignOf(p, t) == AlignOf(p, PartType(p, t, i, 0))
    ensures t.Struct? && AlignOf(p, t) > 1 ==> exists j: nat ::
              j < PartCount(p, t, i) && PartSize(p, t, i, j) > 0 && AlignOf(p, PartType(p, t, i, j)) == AlignOf(p, t)
  {
    if t.Struct? && AlignOf(p, t) > 1 {
      var ls := FieldLayouts(p, t);
      var j := StrictestField(ls, |ls|);
      assert PartSize(p, t, i, j) > 0 && AlignOf(p, PartType(p, t, i, j)) == AlignOf(p, t);
    } else if t.Array? {
      ElementBelow(p, t);
    }
  }

  lemma {:induction false} StrictestField(ls: seq<Layout>, n: nat) returns (j: nat)
    requires n <= |ls| && MaxAlign(ls, n) > 1
    ensures j < n && ls[j].size > 0 && ls[j].align == MaxAlign(ls, n)
  {
    if MaxAlign(ls, n - 1) == MaxAlign(ls, n) {
      j := StrictestField(ls, n - 1);
    } else {
      j := n - 1;
    }
  }

  /** An array ends where its last element does. */
  lemma {:induction false} ArrayTight(p: Pool, t: Type)
    requires HasParts(p, t, 0) && t.Array?
    ensures PartCount(p, t, 0) == 0 ==> Size(p, t) == 0
    ensures var n := PartCount(p, t, 0);
      n > 0 ==> PartOffset(p, t, 0, 0) == 0 && Size(p, t) == PartOffset(p, t, 0, n - 1) + PartSize(p, t, 0, n - 1)
  {
    ElementBelow(p, t);
    var n, size := PartCount(p, t, 0), ComputeLayout(p, ElementType(p, t.id)).size;
    if n > 0 {
      LastElement(n, size);
    }
  }

  lemma LastElement(n: nat, size: nat)
    requires n > 0
    ensures ElementOffset(0, size) == 0 && ElementOffset(n - 1, size) + size == size * n
  {}

  /** The fields of a tagged variant follow one another without padding. */
  lemma {:induction false} VariantPacked(p: Pool, t: Type, i: nat, j: nat)
    requires HasParts(p, t, i) && t.Enum? && StrategyOf(p, t).Separate? && 0 < j < PartCount(p, t, i)
    ensures PartOffset(p, t, i, j) == PartOffset(p, t, i, j - 1) + PartSize(p, t, i, j - 1)
  {
    VariantFieldBelow(p, t, i, j - 1);
  }

  /** The first one starts right after the tag, or in a C union at the first multiple of the
      union's alignment after it. */
  lemma {:induction false} FirstFieldPlace(p: Pool, t: Type, i: nat)
    requires HasParts(p, t, i) && t.Enum? && StrategyOf(p, t).Separate? && 0 < PartCount(p, t, i)
    ensures var first, tag := PartOffset(p, t, i, 0), StrategyOf(p, t).tagWidth;
      if p[t.id].enumDef.isCLayout
      then Aligned(first, AlignOf(p, t)) && tag <= first < tag + AlignOf(p, t)
      else first == tag
  {
    var vs, isC := VariantLayouts(p, t), p[t.id].enumDef.isCLayout;
    assert vs[i] != [];
    if isC {
      CPayloadAligned(vs, PrimLayout(DiscriminantType(|vs|, isC)));
    }
  }

  lemma CPayloadAligned(vs: seq<seq<Layout>>, tag: Layout)
    requires tag.size <= 8
    ensures var l := CTaggedLayout(vs, tag);
      var off := l.discriminant.value.payloadOffset;
      Aligned(off, l.align) && tag.size <= off < tag.size + l.align
  {
    var l := CTaggedLayout(vs, tag);
    var off := AlignUp(tag.size, l.align);
    RoundedUp(tag.size, l.align, off);
    SmallStays(off);
  }

  lemma SmallStays(n: nat)
    requires n < 16
    ensures TruncU32(n) == n
  {}

  // ---- Leaves at any depth -------------------------------------------------------------------------

  /** `u` is a part of `t`, `offset` bytes into it. */
  ghost predicate PartAt(p: Pool, t: Type, u: Type, offset: nat) {
    exists i, j: nat :: Aligning(p, t, i) && j < PartCount(p, t, i) &&
      u == PartType(p, t, i, j) && offset == PartOffset(p, t, i, j)
  }

  /** A part `offset` bytes into a whole lies inside it, and if it has bytes, at a multiple of its own
      alignment, which divides the whole's. */
  predicate WellPlaced(whole: Layout, part: Layout, offset: nat) {
    offset + part.size <= whole.size &&
    (part.size > 0 ==> Aligned(offset, part.align) && Aligned(whole.align, part.align))
  }

  lemma PartWellPlaced(p: Pool, t: Type, u: Type, offset: nat)
    requires Placed(p) && PartAt(p, t, u, offset)
    ensures ValidType(p, t) && ValidType(p, u)
    ensures WellPlaced(ComputeLayout(p, t), ComputeLayout(p, u), offset)
  {
    var i, j: nat :| Aligning(p, t, i) && j < PartCount(p, t, i) &&
      u == PartType(p, t, i, j) && offset == PartOffset(p, t, i, j);
    PartsInBounds(p, t, i, j);
    if Size(p, u) > 0 {
      PartAligned(p, t, i, j);
    }
  }

  lemma WellPlacedInside(whole: Layout, mid: Layout, part: Layout, outer: nat, inner: nat)
    requires WellPlaced(whole, mid, outer) && WellPlaced(mid, part, inner)
    ensures WellPlaced(whole, part, outer + inner)
  {
    if part.size > 0 {
      SumAligned(outer, inner, part.align, mid.align);
      AlignsChain(part.align, mid.align, whole.align);
    }
  }

  /** `ts` leads from a value to a part of a part, and so on, through structs, arrays and
      niche-encoded enums, each step `offsets[k]` bytes further in. */
  ghost predicate Path(p: Pool, ts: seq<Type>, offsets: seq<nat>) {
    |ts| == |offsets| + 1 && forall k :: 0 <= k < |offsets| ==> PartAt(p, ts[k], ts[k + 1], offsets[k])
  }

  function Total(offsets: seq<nat>): nat {
    if offsets == [] then 0 else offsets[0] + Total(offsets[1..])
  }

  lemma {:induction false} ChainPlaced(ls: seq<Layout>, offsets: seq<nat>)
    requires |ls| == |offsets| + 1
    requires forall k :: 0 <= k < |offsets| ==> WellPlaced(ls[k], ls[k + 1], offsets[k])
    ensures WellPlaced(ls[0], ls[|offsets|], Total(offsets))
    decreases |offsets|
  {
    if offsets == [] {
      AlignsNest(ls[0].align, ls[0].align);
    } else {
      ChainPlaced(ls[1..], offsets[1..]);
      WellPlacedInside(ls[0], ls[1], ls[|offsets|], offsets[0], Total(offsets[1..]));
    }
  }

  /** Whatever is reached along a path, at any depth, is well placed. */
  lemma {:induction false} ReachedAligned(p: Pool, ts: seq<Type>, offsets: seq<nat>)
    requires Placed(p) && Path(p, ts, offsets) && ValidType(p, ts[0])
    ensures ValidType(p, ts[|offsets|])
    ensures WellPlaced(ComputeLayout(p, ts[0]), ComputeLayout(p, ts[|offsets|]), Total(offsets))
  {
    AllValid(p, ts, offsets);
    var ls := seq(|ts|, k requires 0 <= k < |ts| => ComputeLayout(p, ts[k]));
    forall k | 0 <= k < |offsets| ensures WellPlaced(ls[k], ls[k + 1], offsets[k]) {
      PartWellPlaced(p, ts[k], ts[k + 1], offsets[k]);
    }
    ChainPlaced(ls, offsets);
  }

  lemma AllValid(p: Pool, ts: seq<Type>, offsets: seq<nat>)
    requires Placed(p) && Path(p, ts, offsets) && ValidType(p, ts[0])
    ensures forall k :: 0 <= k < |ts| ==> ValidType(p, ts[k])
  {
    forall k | 0 <= k < |ts| ensures ValidType(p, ts[k]) {
      if k > 0 {
        assert PartAt(p, ts[k - 1], ts[k], offsets[k - 1]);
        PartWellPlaced(p, ts[k - 1], ts[k], offsets[k - 1]);
      }
    }
  }

  lemma AlignsChain(a: Align, b: Align, c: Align)
    requires Aligned(b, a) && Aligned(c, b)
    ensures Aligned(c, a)
  {}

  /** Not so behind a tag: the `i64` of `enum { A(i64), B }` sits at offset 1, and the enum has
      alignment 1. */
  lemma TaggedFieldExample()
    ensures var vs := [[PrimLayout(I64)], []];
      var l := EnumLayout(vs, false);
      l.align == 1 && l.size == 9 && VariantFieldOffset(l.discriminant.value, vs[0], 0) == 1
  {
    WrapLayout(PrimLayout(I64), [[PrimLayout(I64)], []]);
  }

  // ---- Niches of structs ----------------------------------------------------------------------------

  /** How many niches the first `j` fields expose. */
  function NichesBefore(ls: seq<Layout>, j: nat): nat
    requires j <= |ls|
  {
    if j == 0 then 0 else NichesBefore(ls, j - 1) + if ls[j - 1].size == 0 then 0 else |ls[j - 1].niches|
  }

  /** A struct exposes every niche of every field with bytes, in order and moved to the field's
      place, and nothing else. */
  lemma {:induction false} StructNichesComplete(ls: seq<Layout>, n: nat, j: nat)
    requires j < n <= |ls| && ls[j].size > 0
    ensures |StructNiches(ls, n)| == NichesBefore(ls, n)
    ensures NichesBefore(ls, j) + |ls[j].niches| <= NichesBefore(ls, n)
    ensures StructNiches(ls, n)[NichesBefore(ls, j)..][..|ls[j].niches|] ==
            ShiftAll(ls[j].niches, FieldOffset(ls, j))
  {
    NicheCount(ls, n);
    NicheCount(ls, n - 1);
    var before := StructNiches(ls, n - 1);
    var more := StructNiches(ls, n)[|before|..];
    if j < n - 1 {
      StructNichesComplete(ls, n - 1, j);
      Window(before, more, NichesBefore(ls, j), |ls[j].niches|);
    }
  }

  lemma Window<T>(a: seq<T>, x: seq<T>, i: nat, k: nat)
    requires i + k <= |a|
    ensures (a + x)[i..][..k] == a[i..][..k]
  {}

  lemma {:induction false} NicheCount(ls: seq<Layout>, n: nat)
    requires n <= |ls|
    ensures |StructNiches(ls, n)| == NichesBefore(ls, n)
    ensures n > 0 ==> StructNiches(ls, n) == StructNiches(ls, n - 1) +
                        StructNiches(ls, n)[|StructNiches(ls, n - 1)|..]
  {
    if n > 0 {
      NicheCount(ls, n - 1);
    }
  }

  // ---- Tags ------------------------------------------------------------------------------------------

  /** A tag is the narrowest unsigned number of 1, 2, 4 or 8 bytes that counts the variants. */
  lemma TagIsNarrowest(count: nat)
    requires 0 < count <= Pow256(8)
    ensures var tag := PrimLayout(DiscriminantType(count, false));
      tag.size in {1, 2, 4, 8} && tag.align == tag.size && count <= Pow256(tag.size) &&
      (tag.size > 1 ==> Pow256(tag.size / 2) < count)
  {
    assert Pow256(1) == 256 && Pow256(2) == 65536;
    assert Pow256(4) == 65536 * 65536;
  }

  /** An enum without variants has no bytes, unless it is a C enum, whose tag is always a `c_int`. */
  lemma EmptyEnum(count: nat)
    ensures SeparateLayout([], false).size == 0 && SeparateLayout([], true).size == 4
    ensures DiscriminantType(count, true) == CInt
  {}

  /** A tagged enum is aligned as its tag, and one without data is its tag. */
  lemma TaggedAlign(vs: seq<seq<Layout>>, isC: bool)
    requires isC ==> IsUnitOnly(vs)
    ensures var l, tag := SeparateLayout(vs, isC), PrimLayout(DiscriminantType(|vs|, isC));
      l.align == tag.align && (IsUnitOnly(vs) ==> l.size == tag.size)
  {}

  lemma {:induction false} FieldAlignCovers(ls: seq<Layout>, j: nat)
    requires j < |ls|
    ensures ls[j].align <= MaxFieldAlign(ls)
  {
    if j > 0 {
      FieldAlignCovers(ls[1..], j - 1);
    }
  }

  lemma {:induction false} VariantAlignCovers(vs: seq<seq<Layout>>, i: nat, j: nat)
    requires i < |vs| && j < |vs[i]|
    ensures vs[i][j].align <= MaxVariantAlign(vs)
  {
    if i == 0 {
      FieldAlignCovers(vs[0], j);
    } else {
      VariantAlignCovers(vs[1..], i - 1, j);
    }
  }

  lemma {:induction false} FieldAlignAttained(ls: seq<Layout>) returns (j: nat)
    requires MaxFieldAlign(ls) > 1
    ensures j < |ls| && ls[j].align == MaxFieldAlign(ls)
  {
    if ls[0].align == MaxFieldAlign(ls) {
      j := 0;
    } else {
      j := FieldAlignAttained(ls[1..]);
      j := j + 1;
    }
  }

  lemma {:induction false} VariantAlignAttained(vs: seq<seq<Layout>>) returns (i: nat, j: nat)
    requires MaxVariantAlign(vs) > 1
    ensures i < |vs| && j < |vs[i]| && vs[i][j].align == MaxVariantAlign(vs)
  {
    if MaxFieldAlign(vs[0]) == MaxVariantAlign(vs) {
      i := 0;
      j := FieldAlignAttained(vs[0]);
    } else {
      i, j := VariantAlignAttained(vs[1..]);
      i := i + 1;
    }
  }

  /** A C union is aligned as strictly as its `c_int` tag and every field of every variant, and no more. */
  lemma {:induction false} CUnionAlign(vs: seq<seq<Layout>>)
    requires !IsUnitOnly(vs)
    ensures var l := SeparateLayout(vs, true);
      4 <= l.align && (forall i, j :: 0 <= i < |vs| && 0 <= j < |vs[i]| ==> vs[i][j].align <= l.align) &&
      (l.align > 4 ==> exists i, j :: 0 <= i < |vs| && 0 <= j < |vs[i]| && vs[i][j].align == l.align)
  {
    var l := SeparateLayout(vs, true);
    forall i, j | 0 <= i < |vs| && 0 <= j < |vs[i]| ensures vs[i][j].align <= l.align {
      VariantAlignCovers(vs, i, j);
    }
    if l.align > 4 {
      var i, j := VariantAlignAttained(vs);
      assert vs[i][j].align == l.align;
    }
  }

  // ---- Leaves ------------------------------------------------------------------------------------------

  /** The numeric types whose names carry their width in bits. */
  predicate Sized(prim: Prim) { PrimTag(prim) < 8 || 10 <= PrimTag(prim) < 13 }

  /** `i8` to `f64` have the width of their names and are aligned to it. */
  lemma SizedPrims(prim: Prim)
    requires Sized(prim)
    ensures var l := PrimLayout(prim);
      PrimName(prim)[1..] == ToDec(8 * l.size) && l.size == l.align && l.niches == []
  {
    var l, bits := PrimLayout(prim), PrimName(prim)[1..];
    assert (l.size == 1 && bits == "8") || (l.size == 2 && bits == "16") ||
           (l.size == 4 && bits == "32") || (l.size == 8 && bits == "64");
    Widths();
  }

  lemma Widths()
    ensures ToDec(8) == "8" && ToDec(16) == "16" && ToDec(32) == "32" && ToDec(64) == "64"
  {
    TwoDigits(1, 6);
    TwoDigits(3, 2);
    TwoDigits(6, 4);
  }

  lemma TwoDigits(tens: nat, ones: nat)
    requires 0 < tens < 10 && ones < 10
    ensures ToDec(10 * tens + ones) == ToDec(tens) + ToDec(ones)
  {
    var n := 10 * tens + ones;
    assert n / 10 == tens && n % 10 == ones;
  }

  /** They hold every number of that width. */
  lemma SizedValues(prim: Prim, bits: nat)
    requires Sized(prim)
    ensures ValidLeaf(Prim(prim), bits) <==> bits < Pow256(PrimLayout(prim).size)
  {}

  /** The Gruel type that a C type stands for on an LP64 target. */
  function Counterpart(prim: Prim): Option<Prim> {
    match prim
    case CSchar => Some(I8) case CShort => Some(I16) case CInt => Some(I32)
    case CLong | CLonglong => Some(I64)
    case CUchar => Some(U8) case CUshort => Some(U16) case CUint => Some(U32)
    case CUlong | CUlonglong => Some(U64)
    case CFloat => Some(F32) case CDouble => Some(F64) case CVoid => Some(Unit)
    case _ => None
  }

  /** C types are laid out as their counterparts. */
  lemma CTypesLikeGruel(prim: Prim)
    requires Counterpart(prim).Some?
    ensures PrimLayout(prim) == PrimLayout(Counterpart(prim).value)
  {}

  /** `bool` is a byte and `char` four; `isize` and `usize`, pointers and references are laid out as `u64`;
      slices and interfaces are two words and vectors three. */
  lemma LeafWords(t: Type)
    requires IsLeaf(t)
    ensures var l, word := LeafLayout(t), PrimLayout(U64);
      (t == Prim(Isize) || t == Prim(Usize) || t.PtrConst? || t.PtrMut? || t.Ref? || t.MutRef? ==> l == word) &&
      (t.Slice? || t.MutSlice? || t.Interface? ==> l == word.(size := 2 * word.size)) &&
      (t.Vec? ==> l == word.(size := 3 * word.size)) &&
      (t.Module? || t == Prim(Unit) || t == Prim(Never) ==> l.size == 0 && l.align == 1) &&
      (t == Prim(Bool) ==> l.size == l.align == 1) && (t == Prim(Char) ==> l.size == l.align == 4)
  {}
}
