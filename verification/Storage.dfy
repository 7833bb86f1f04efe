/** Values in memory. `Stores` says which byte images a typed value may have under its layout
    (padding is free), `Read` and `Write` are the accesses the code generator makes, and the
    theorems say that niches are never hit, are clear of padding, and that every value reads back. */
module Storage {
  import opened Bytes
  import opened Types
  import opened Layout

  datatype Value =
    | Bits(bits: nat)
    | Aggregate(elems: seq<Value>)
    | Variant(index: nat, payload: seq<Value>)

  ghost predicate Placed(p: Pool) { WellFormed(p) && SizesFit(p) }

  /** Bit patterns of a leaf type: `bool` is 0 or 1 and `char` is a Unicode scalar value
      (section 3.9, D76 of the Unicode Standard). Types without run-time values have none. */
  predicate ValidLeaf(t: Type, bits: nat)
    requires IsLeaf(t)
  {
    match t
    case Prim(Bool) => bits < 2
    case Prim(Char) => bits < 0xD800 || 0xDFFF < bits < 0x110000
    case Prim(Never) | Prim(Error) | Prim(ComptimeType) | Prim(ComptimeStr) | Prim(ComptimeInt)
       | Prim(CVoid) | Module(_) => false
    case _ => bits < Pow256(LeafLayout(t).size)
  }

  // ---- Parts: struct fields, array elements, fields of one variant --------------------------

  /** `t` is a struct or array, or an enum whose variant `i` is meant. */
  ghost predicate HasParts(p: Pool, t: Type, i: nat) {
    WellFormed(p) && ValidType(p, t) && !IsLeaf(t) && (t.Enum? ==> i < |Variants(p, t)|)
  }

  function PartCount(p: Pool, t: Type, i: nat): nat
    requires HasParts(p, t, i)
  {
    match t
    case Struct(_) => |Fields(p, t)|
    case Array(id) => p[id].len
    case Enum(_) => |Variants(p, t)[i]|
  }

  function PartType(p: Pool, t: Type, i: nat, j: nat): (r: Type)
    requires HasParts(p, t, i) && j < PartCount(p, t, i)
    ensures ValidType(p, r) && Rank(p, r) < Rank(p, t)
  {
    match t
    case Struct(_) => FieldBelow(p, t, j); Fields(p, t)[j]
    case Array(id) => ElementBelow(p, t); ElementType(p, id)
    case Enum(_) => VariantFieldBelow(p, t, i, j); Variants(p, t)[i][j]
  }

  function VariantFieldOffset(strategy: Strategy, ls: seq<Layout>, j: nat): nat
    requires j < |ls|
  {
    match strategy
    case Separate(_, _, payloadOffset) => payloadOffset + PackedOffset(ls, j)
    case Niche(_, _, _, _, _) => 0
  }

  function PartOffset(p: Pool, t: Type, i: nat, j: nat): nat
    requires HasParts(p, t, i) && j < PartCount(p, t, i)
  {
    match t
    case Struct(_) => FieldOffset(FieldLayouts(p, t), j)
    case Array(_) => ElementOffset(j, ComputeLayout(p, PartType(p, t, i, j)).size)
    case Enum(_) => VariantFieldOffset(StrategyOf(p, t), VariantLayouts(p, t)[i], j)
  }

  function ElementOffset(j: nat, size: nat): nat { j * size }

  function PartSize(p: Pool, t: Type, i: nat, j: nat): nat
    requires HasParts(p, t, i) && j < PartCount(p, t, i)
  {
    ComputeLayout(p, PartType(p, t, i, j)).size
  }

  /** How a valid enum type encodes its variants. */
  function StrategyOf(p: Pool, t: Type): (s: Strategy)
    requires WellFormed(p) && t.Enum? && ValidType(p, t)
  {
    EnumLayout(VariantLayouts(p, t), p[t.id].enumDef.isCLayout).discriminant.value
  }

  lemma {:induction false} PackedMonotone(ls: seq<Layout>, i: nat, j: nat)
    requires i <= j <= |ls|
    ensures PackedOffset(ls, i) <= PackedOffset(ls, j)
    decreases j
  {
    if i < j {
      PackedMonotone(ls, i, j - 1);
    }
  }

  /** `l` is a tag of `width` bytes at 0 followed by room for `payload` bytes. */
  predicate TaggedWith(l: Layout, width: nat, payload: nat) {
    l.discriminant.Some? && l.discriminant.value.Separate? &&
    l.discriminant.value.tagOffset == 0 && l.discriminant.value.tagWidth == width &&
    width <= l.discriminant.value.payloadOffset &&
    l.discriminant.value.payloadOffset + payload <= l.size
  }

  lemma CTaggedInBounds(vs: seq<seq<Layout>>, discrim: Layout)
    requires discrim.size <= 8
    ensures TaggedWith(CTaggedLayout(vs, discrim), discrim.size, MaxPayload(vs))
  {
    var l, align := CTaggedLayout(vs, discrim), CTaggedLayout(vs, discrim).align;
    var off, inner := AlignUp(discrim.size, align), AlignUp(MaxPayload(vs), align);
    PayloadRoom(discrim.size, MaxPayload(vs), align, off, inner, l.size);
  }

  lemma PayloadRoom(tag: nat, payload: nat, align: Align, off: nat, inner: nat, size: nat)
    requires tag <= 8 && tag <= off < tag + align && payload <= inner && off + inner <= size
    ensures TruncU32(off) == off && off + payload <= size
  {}

  /** The tag is followed by the payload, and the largest payload fits. */
  lemma {:induction false} SeparateInBounds(vs: seq<seq<Layout>>, isC: bool, i: nat)
    requires i < |vs|
    ensures TaggedWith(SeparateLayout(vs, isC), PrimLayout(DiscriminantType(|vs|, isC)).size, PayloadSize(vs[i]))
  {
    var discrim := PrimLayout(DiscriminantType(|vs|, isC));
    assert PayloadSize(vs[i]) <= MaxPayload(vs);
    if IsUnitOnly(vs) {
      assert vs[i] == [];
    } else if isC {
      CTaggedInBounds(vs, discrim);
    }
  }

  lemma {:induction false} ElementInBounds(i: nat, len: nat, size: nat)
    requires i < len
    ensures i * size + size <= len * size
  {
    assert len * size == (len - 1) * size + size;
    if i < len - 1 {
      ElementInBounds(i, len - 1, size);
    }
  }

  /** Fields of one variant lie inside the enum, after the tag if there is one. */
  lemma {:induction false} VariantFieldInBounds(vs: seq<seq<Layout>>, isC: bool, i: nat, j: nat)
    requires i < |vs| && j < |vs[i]|
    ensures var l := EnumLayout(vs, isC);
      var off := VariantFieldOffset(l.discriminant.value, vs[i], j);
      off + vs[i][j].size <= l.size &&
      (l.discriminant.value.Separate? ==> l.discriminant.value.tagWidth <= off)
  {
    if TryNicheLayout(vs).None? {
      SeparateInBounds(vs, isC, i);
      PackedMonotone(vs[i], j + 1, |vs[i]|);
    }
  }

  /** Parts lie inside the type, after the tag if there is one. */
  lemma {:induction false} PartsInBounds(p: Pool, t: Type, i: nat, j: nat)
    requires Placed(p) && HasParts(p, t, i) && j < PartCount(p, t, i)
    ensures PartOffset(p, t, i, j) + PartSize(p, t, i, j) <= ComputeLayout(p, t).size
    ensures t.Enum? && StrategyOf(p, t).Separate? ==> StrategyOf(p, t).tagWidth <= PartOffset(p, t, i, j)
  {
    if t.Struct? {
      FieldInBounds(FieldLayouts(p, t), j);
    } else if t.Array? {
      ElementBelow(p, t);
      ElementInBounds(j, p[t.id].len, PartSize(p, t, i, j));
    } else {
      VariantFieldInBounds(VariantLayouts(p, t), p[t.id].enumDef.isCLayout, i, j);
    }
  }

  /** A part starts after every earlier part ends. */
  lemma {:induction false} PartsDisjoint(p: Pool, t: Type, i: nat, j: nat, k: nat)
    requires Placed(p) && HasParts(p, t, i) && j < k < PartCount(p, t, i)
    ensures PartOffset(p, t, i, j) + PartSize(p, t, i, j) <= PartOffset(p, t, i, k)
  {
    if t.Struct? {
      FieldsDisjoint(FieldLayouts(p, t), j, k);
    } else if t.Array? {
      ElementBelow(p, t);
      ElementInBounds(j, k, PartSize(p, t, i, j));
    } else {
      PackedMonotone(VariantLayouts(p, t)[i], j + 1, k);
    }
  }

  // ---- Typed values and their byte images ------------------------------------------------------

  ghost predicate HasType(p: Pool, t: Type, v: Value)
    requires WellFormed(p) && ValidType(p, t)
    decreases Rank(p, t), 1
  {
    if IsLeaf(t) then v.Bits? && ValidLeaf(t, v.bits)
    else if t.Enum? then
      // Variant indices are 32-bit throughout the compiler.
      v.Variant? && v.index < |Variants(p, t)| && v.index < U32_LIMIT && PartsTyped(p, t, v.index, v.payload)
    else v.Aggregate? && PartsTyped(p, t, 0, v.elems)
  }

  ghost predicate PartsTyped(p: Pool, t: Type, i: nat, vs: seq<Value>)
    requires HasParts(p, t, i)
    decreases Rank(p, t), 0
  {
    |vs| == PartCount(p, t, i) &&
    forall j :: 0 <= j < |vs| ==> HasType(p, PartType(p, t, i, j), vs[j])
  }

  function Size(p: Pool, t: Type): nat
    requires WellFormed(p) && ValidType(p, t)
  {
    ComputeLayout(p, t).size
  }

  function Part(p: Pool, t: Type, i: nat, j: nat, mem: seq<byte>): (r: seq<byte>)
    requires Placed(p) && HasParts(p, t, i) && j < PartCount(p, t, i)
    requires |mem| == Size(p, t)
    ensures |r| == PartSize(p, t, i, j)
  {
    PartsInBounds(p, t, i, j);
    mem[PartOffset(p, t, i, j)..][..PartSize(p, t, i, j)]
  }

  /** The bytes that hold the variant: the tag, or the niche. */
  function TagBytes(p: Pool, t: Type, mem: seq<byte>): (r: seq<byte>)
    requires Placed(p) && t.Enum? && ValidType(p, t) && |Variants(p, t)| > 0 && |mem| == Size(p, t)
    ensures |r| == match StrategyOf(p, t) case Separate(_, w, _) => w case Niche(_, _, _, w, _) => w
  {
    TagInBounds(p, t);
    match StrategyOf(p, t)
    case Separate(off, w, _) => mem[off..][..w]
    case Niche(_, _, off, w, _) => mem[off..][..w]
  }

  lemma {:induction false} TagInBounds(p: Pool, t: Type)
    requires Placed(p) && t.Enum? && ValidType(p, t) && |Variants(p, t)| > 0
    ensures match StrategyOf(p, t)
      case Separate(off, w, _) => off + w <= Size(p, t)
      case Niche(_, _, off, w, value) => off + w <= Size(p, t) && value < Pow256(w)
  {
    var vs := VariantLayouts(p, t);
    if TryNicheLayout(vs).None? {
      SeparateInBounds(vs, p[t.id].enumDef.isCLayout, 0);
    } else {
      var data := OptionShape(vs).value.1;
      VariantFieldBelow(p, t, data, 0);
      ComputedLayoutFits(p, Variants(p, t)[data][0]);
      assert NicheFits(vs[data][0].niches[0], vs[data][0].size);
    }
  }

  /** `mem` is an image of `v`; bytes that belong to no part may hold anything. */
  ghost predicate Stores(p: Pool, t: Type, v: Value, mem: seq<byte>)
    requires Placed(p) && ValidType(p, t) && HasType(p, t, v) && |mem| == Size(p, t)
    decreases Rank(p, t), 1
  {
    if IsLeaf(t) then FromLE(mem) == v.bits
    else if t.Enum? then
      match StrategyOf(p, t)
      case Separate(_, _, _) =>
        FromLE(TagBytes(p, t, mem)) == v.index && PartsStored(p, t, v.index, v.payload, mem)
      case Niche(unit, _, _, _, value) =>
        if v.index == unit then FromLE(TagBytes(p, t, mem)) == value
        else PartsStored(p, t, v.index, v.payload, mem)
    else PartsStored(p, t, 0, v.elems, mem)
  }

  ghost predicate PartsStored(p: Pool, t: Type, i: nat, vs: seq<Value>, mem: seq<byte>)
    requires Placed(p) && HasParts(p, t, i)
    requires PartsTyped(p, t, i, vs) && |mem| == Size(p, t)
    decreases Rank(p, t), 0
  {
    forall j :: 0 <= j < |vs| ==> Stores(p, PartType(p, t, i, j), vs[j], Part(p, t, i, j, mem))
  }

  /** The number stored in the bytes of niche `n`. */
  function NicheBytes(n: NicheRange, mem: seq<byte>): (r: seq<byte>)
    requires n.offset + n.width <= |mem|
    ensures |r| == n.width
  {
    mem[n.offset..][..n.width]
  }

  // ---- Niche soundness ------------------------------------------------------------------------------

  lemma SubSlice(mem: seq<byte>, off: nat, len: nat, n: NicheRange)
    requires off + len <= |mem| && n.offset + n.width <= len
    ensures NicheBytes(n, mem[off..][..len]) == NicheBytes(n.(offset := n.offset + off), mem)
  {}

  /** A struct's niche is a field's niche, moved by the field's offset. */
  lemma {:induction false} StructNicheField(p: Pool, t: Type, k: nat) returns (j: nat, m: nat)
    requires Placed(p) && ValidType(p, t) && t.Struct? && k < |ComputeLayout(p, t).niches|
    ensures j < PartCount(p, t, 0) && m < |ComputeLayout(p, PartType(p, t, 0, j)).niches|
    ensures var n, f := ComputeLayout(p, t).niches[k], ComputeLayout(p, PartType(p, t, 0, j)).niches[m];
      NicheFits(n, Size(p, t)) && NicheFits(f, PartSize(p, t, 0, j)) &&
      n == f.(offset := f.offset + PartOffset(p, t, 0, j)) &&
        PartOffset(p, t, 0, j) + PartSize(p, t, 0, j) <= Size(p, t)
  {
    var ls := FieldLayouts(p, t);
    j, m := StructNicheOrigin(ls, |ls|, k);
    ComputedLayoutFits(p, t);
    FieldBelow(p, t, j);
    ComputedLayoutFits(p, Fields(p, t)[j]);
    var f := ls[j].niches[m];
    assert NicheFits(f, ls[j].size);
    PartsInBounds(p, t, 0, j);
    ShiftExact(f, FieldOffset(ls, j), ls[j].size);
  }

  /** A struct's niche bytes are the niche bytes of the field it comes from. */
  lemma {:induction false} StructNicheBytes(p: Pool, t: Type, k: nat, mem: seq<byte>, other: seq<byte>)
    returns (j: nat, m: nat)
    requires Placed(p) && ValidType(p, t) && t.Struct? && k < |ComputeLayout(p, t).niches|
    requires |mem| == |other| == Size(p, t)
    ensures j < PartCount(p, t, 0) && m < |ComputeLayout(p, PartType(p, t, 0, j)).niches|
    ensures var n, f := ComputeLayout(p, t).niches[k], ComputeLayout(p, PartType(p, t, 0, j)).niches[m];
      n.width == f.width && n.start == f.start && n.end == f.end &&
      NicheFits(n, Size(p, t)) && NicheFits(f, PartSize(p, t, 0, j)) &&
      NicheBytes(n, mem) == NicheBytes(f, Part(p, t, 0, j, mem)) &&
      NicheBytes(n, other) == NicheBytes(f, Part(p, t, 0, j, other))
  {
    j, m := StructNicheField(p, t, k);
    var f := ComputeLayout(p, PartType(p, t, 0, j)).niches[m];
    MovedNicheBytes(p, t, j, f, mem);
    MovedNicheBytes(p, t, j, f, other);
  }

  lemma MovedNicheBytes(p: Pool, t: Type, j: nat, f: NicheRange, mem: seq<byte>)
    requires Placed(p) && ValidType(p, t) && t.Struct? && j < PartCount(p, t, 0) && |mem| == Size(p, t)
    requires NicheFits(f, PartSize(p, t, 0, j)) && PartOffset(p, t, 0, j) + PartSize(p, t, 0, j) <= Size(p, t)
    ensures NicheBytes(f.(offset := f.offset + PartOffset(p, t, 0, j)), mem) == NicheBytes(f, Part(p, t, 0, j, mem))
  {
    SubSlice(mem, PartOffset(p, t, 0, j), PartSize(p, t, 0, j), f);
  }

  /** What an enum exposes: the unused rest of its payload's first niche, or, when no variant
      has data, the tag values from the variant count on. */
  lemma {:induction false} EnumNicheCases(p: Pool, t: Type, k: nat)
    requires Placed(p) && ValidType(p, t) && t.Enum? && k < |ComputeLayout(p, t).niches|
    ensures k == 0 && |Variants(p, t)| > 0
    ensures var n := ComputeLayout(p, t).niches[0];
      match StrategyOf(p, t)
      case Niche(unit, data, off, w, value) =>
        data < |Variants(p, t)| && unit != data && |Variants(p, t)| == 2 && PartCount(p, t, data) == 1 &&
        (var payload := ComputeLayout(p, PartType(p, t, data, 0));
         payload.niches != [] && payload.size == Size(p, t) && value < n.end &&
         n == payload.niches[0].(start := value + 1) &&
         payload.niches[0] == NicheRange(off, w, value, n.end))
      case Separate(off, w, _) => n.offset == off && n.width == w && n.start == |Variants(p, t)|
  {
    var vs := VariantLayouts(p, t);
    if TryNicheLayout(vs).Some? {
      VariantFieldBelow(p, t, OptionShape(vs).value.1, 0);
    }
  }

  predicate Hit(n: NicheRange, mem: seq<byte>)
    requires n.offset + n.width <= |mem|
  {
    n.start <= FromLE(NicheBytes(n, mem)) <= n.end
  }

  lemma {:induction false} LeafNicheSound(t: Type, bits: nat, mem: seq<byte>, k: nat)
    requires IsLeaf(t) && ValidLeaf(t, bits) && |mem| == LeafLayout(t).size
    requires FromLE(mem) == bits && k < |LeafLayout(t).niches|
    ensures NicheBytes(LeafLayout(t).niches[k], mem) == mem && !Hit(LeafLayout(t).niches[k], mem)
  {}

  /** The niches of `bool` and `char` are exactly their invalid bit patterns: no valid pattern is
      forbidden, and every invalid one may stand for something else. */
  lemma LeafNichesExact(t: Type, bits: nat)
    requires (t == Prim(Bool) || t == Prim(Char)) && bits < Pow256(LeafLayout(t).size)
    ensures var ns := LeafLayout(t).niches;
      (exists k :: 0 <= k < |ns| && ns[k].start <= bits <= ns[k].end) <==> !ValidLeaf(t, bits)
  {
    assert Pow256(1) == 256 && Pow256(4) == 0x1_0000_0000;
    var ns := LeafLayout(t).niches;
    if t == Prim(Char) {
      assert ns[0] == NicheRange(0, 4, 0xD800, 0xDFFF) && ns[1] == NicheRange(0, 4, 0x110000, 0xFFFFFFFF);
    } else {
      assert ns[0] == NicheRange(0, 1, 2, 255);
    }
  }

  /** The niche of a unit-only enum is exactly the tag values that are no variant's index. */
  lemma UnitEnumNicheExact(count: nat, isC: bool, tag: nat)
    requires 0 < count < U32_LIMIT && tag < Pow256(PrimLayout(DiscriminantType(count, isC)).size)
    ensures var ns := UnitOnlyLayout(count, PrimLayout(DiscriminantType(count, isC))).niches;
      (|ns| == 1 && ns[0].start <= tag <= ns[0].end) <==> tag >= count
  {
    assert Pow256(1) == 256 && Pow256(2) == 65536 && Pow256(4) == U32_LIMIT;
  }

  /** An enum's niche bytes are its tag bytes, or the payload's niche bytes. */
  lemma {:induction false} EnumNicheBytes(p: Pool, t: Type, mem: seq<byte>)
    requires Placed(p) && ValidType(p, t) && t.Enum? && 0 < |ComputeLayout(p, t).niches|
    requires |mem| == Size(p, t)
    ensures |Variants(p, t)| > 0
    ensures var n := ComputeLayout(p, t).niches[0];
      NicheFits(n, |mem|) && NicheBytes(n, mem) == TagBytes(p, t, mem) &&
      (StrategyOf(p, t).Niche? ==>
         var data := StrategyOf(p, t).dataVariant;
         HasParts(p, t, data) && 0 < PartCount(p, t, data) && Part(p, t, data, 0, mem) == mem)
  {
    EnumNicheCases(p, t, 0);
    ComputedLayoutFits(p, t);
    assert NicheFits(ComputeLayout(p, t).niches[0], |mem|);
  }

  /** `n` is not hit, and its bytes are clear of padding: they agree in two images. */
  predicate Respected(n: NicheRange, mem: seq<byte>, other: seq<byte>) {
    NicheFits(n, |mem|) && |other| == |mem| && !Hit(n, mem) && NicheBytes(n, mem) == NicheBytes(n, other)
  }

  /** Reading a niche of any image of any valid value never gives a forbidden number, and the
      niche's bytes are clear of padding: they are the same in every image of the value. */
  lemma {:induction false} NicheSound(p: Pool, t: Type, v: Value, mem: seq<byte>, other: seq<byte>, k: nat)
    requires Placed(p) && ValidType(p, t) && HasType(p, t, v) && |mem| == |other| == Size(p, t)
    requires Stores(p, t, v, mem) && Stores(p, t, v, other) && k < |ComputeLayout(p, t).niches|
    ensures Respected(ComputeLayout(p, t).niches[k], mem, other)
    decreases Rank(p, t), 1
  {
    if IsLeaf(t) {
      LeafNicheSound(t, v.bits, mem, k);
      LeafNicheSound(t, v.bits, other, k);
      FromLEInjective(mem, other);
    } else if t.Struct? {
      StructNicheSound(p, t, v, mem, other, k);
    } else if t.Enum? {
      EnumNicheSound(p, t, v, mem, other, k);
    }
  }

  lemma {:induction false} StructNicheSound(p: Pool, t: Type, v: Value, mem: seq<byte>, other: seq<byte>, k: nat)
    requires Placed(p) && ValidType(p, t) && HasType(p, t, v) && |mem| == |other| == Size(p, t)
    requires Stores(p, t, v, mem) && Stores(p, t, v, other) && k < |ComputeLayout(p, t).niches|
    requires t.Struct?
    ensures Respected(ComputeLayout(p, t).niches[k], mem, other)
    decreases Rank(p, t), 0
  {
    var j, m := StructNicheBytes(p, t, k, mem, other);
    NicheSound(p, PartType(p, t, 0, j), v.elems[j], Part(p, t, 0, j, mem), Part(p, t, 0, j, other), m);
  }

  /** The case where the tag bytes hold the variant: an index below the variant count, or the
      niche value that the exposed rest no longer contains. */
  lemma {:induction false} TagRespected(p: Pool, t: Type, v: Value, mem: seq<byte>, other: seq<byte>, k: nat)
    requires Placed(p) && ValidType(p, t) && t.Enum? && HasType(p, t, v) && |mem| == |other| == Size(p, t)
    requires k < |ComputeLayout(p, t).niches|
    requires FromLE(TagBytes(p, t, mem)) == FromLE(TagBytes(p, t, other))
    requires FromLE(TagBytes(p, t, mem)) == if StrategyOf(p, t).Separate? then v.index else StrategyOf(p, t).nicheValue
    ensures Respected(ComputeLayout(p, t).niches[k], mem, other)
  {
    EnumNicheCases(p, t, k);
    EnumNicheBytes(p, t, mem);
    EnumNicheBytes(p, t, other);
    FromLEInjective(TagBytes(p, t, mem), TagBytes(p, t, other));
  }

  lemma RestRespected(n: NicheRange, mem: seq<byte>, other: seq<byte>)
    requires Respected(n, mem, other) && n.start < n.end
    ensures Respected(n.(start := n.start + 1), mem, other)
  {}

  /** A stored data variant of a niche-encoded enum is its payload's image. */
  lemma {:induction false} NichePayload(p: Pool, t: Type, v: Value, mem: seq<byte>)
    requires Placed(p) && ValidType(p, t) && t.Enum? && HasType(p, t, v) && |mem| == Size(p, t)
    requires Stores(p, t, v, mem) && StrategyOf(p, t).Niche? && v.index != StrategyOf(p, t).unitVariant
    ensures PartCount(p, t, v.index) == 1 == |v.payload|
    ensures var x := PartType(p, t, v.index, 0);
      Size(p, x) == Size(p, t) && HasType(p, x, v.payload[0]) && Stores(p, x, v.payload[0], mem) &&
      ComputeLayout(p, x).niches != [] &&
      (var n := ComputeLayout(p, x).niches[0];
       NicheFits(n, |mem|) && TagBytes(p, t, mem) == NicheBytes(n, mem) && StrategyOf(p, t).nicheValue == n.start &&
       ComputeLayout(p, t).niches == if n.start < n.end then [n.(start := n.start + 1)] else [])
  {
    var vs := VariantLayouts(p, t);
    var data := OptionShape(vs).value.1;
    VariantFieldBelow(p, t, data, 0);
    ComputedLayoutFits(p, PartType(p, t, data, 0));
    assert NicheFits(vs[data][0].niches[0], |mem|);
    assert Part(p, t, data, 0, mem) == mem;
  }

  lemma {:induction false} EnumNicheSound(p: Pool, t: Type, v: Value, mem: seq<byte>, other: seq<byte>, k: nat)
    requires Placed(p) && ValidType(p, t) && HasType(p, t, v) && |mem| == |other| == Size(p, t)
    requires Stores(p, t, v, mem) && Stores(p, t, v, other) && k < |ComputeLayout(p, t).niches|
    requires t.Enum?
    ensures Respected(ComputeLayout(p, t).niches[k], mem, other)
    decreases Rank(p, t), 0
  {
    if StrategyOf(p, t).Separate? || v.index == StrategyOf(p, t).unitVariant {
      TagRespected(p, t, v, mem, other, k);
    } else {
      NichePayload(p, t, v, mem);
      NichePayload(p, t, v, other);
      var x := PartType(p, t, v.index, 0);
      NicheSound(p, x, v.payload[0], mem, other, 0);
      RestRespected(ComputeLayout(p, x).niches[0], mem, other);
    }
  }

  // ---- Reading back ---------------------------------------------------------------------------------

  /** What the generated code reads from `mem`; garbage gives some value, never an error. */
  function Read(p: Pool, t: Type, mem: seq<byte>): Value
    requires Placed(p) && ValidType(p, t) && |mem| == Size(p, t)
    decreases Rank(p, t), 1
  {
    if IsLeaf(t) then Bits(FromLE(mem))
    else if t.Enum? then
      if Variants(p, t) == [] then Variant(0, [])
      else
        var i := ReadVariant(p, t, mem);
        Variant(i, if i < |Variants(p, t)| then ReadParts(p, t, i, mem) else [])
    else Aggregate(ReadParts(p, t, 0, mem))
  }

  /** The tag, or the niche compared with the unit variant's value. */
  function ReadVariant(p: Pool, t: Type, mem: seq<byte>): nat
    requires Placed(p) && t.Enum? && ValidType(p, t) && |Variants(p, t)| > 0 && |mem| == Size(p, t)
  {
    var tag := FromLE(TagBytes(p, t, mem));
    match StrategyOf(p, t)
    case Separate(_, _, _) => tag
    case Niche(unit, data, _, _, value) => if tag == value then unit else data
  }

  function ReadParts(p: Pool, t: Type, i: nat, mem: seq<byte>): (vs: seq<Value>)
    requires Placed(p) && HasParts(p, t, i) && |mem| == Size(p, t)
    ensures |vs| == PartCount(p, t, i)
    decreases Rank(p, t), 0
  {
    seq(PartCount(p, t, i), j requires 0 <= j < PartCount(p, t, i) =>
      Read(p, PartType(p, t, i, j), Part(p, t, i, j, mem)))
  }

  /** No image of a payload is mistaken for the unit variant: that is what the niche is for. */
  lemma {:induction false} VariantReadsBack(p: Pool, t: Type, v: Value, mem: seq<byte>)
    requires Placed(p) && ValidType(p, t) && t.Enum? && HasType(p, t, v) && |mem| == Size(p, t)
    requires Stores(p, t, v, mem)
    ensures ReadVariant(p, t, mem) == v.index
  {
    if StrategyOf(p, t).Niche? && v.index != StrategyOf(p, t).unitVariant {
      NichePayload(p, t, v, mem);
      NicheSound(p, PartType(p, t, v.index, 0), v.payload[0], mem, mem, 0);
    }
  }

  /** Every image of every valid value of every type reads back as that value. */
  lemma {:induction false} ReadBack(p: Pool, t: Type, v: Value, mem: seq<byte>)
    requires Placed(p) && ValidType(p, t) && HasType(p, t, v) && |mem| == Size(p, t)
    requires Stores(p, t, v, mem)
    ensures Read(p, t, mem) == v
    decreases Rank(p, t), 1
  {
    if t.Enum? {
      VariantReadsBack(p, t, v, mem);
      if StrategyOf(p, t).Niche? && v.index == StrategyOf(p, t).unitVariant {
        assert PartCount(p, t, v.index) == 0;
      } else {
        PartsReadBack(p, t, v.index, v.payload, mem);
      }
    } else if !IsLeaf(t) {
      PartsReadBack(p, t, 0, v.elems, mem);
    }
  }

  lemma {:induction false} PartsReadBack(p: Pool, t: Type, i: nat, vs: seq<Value>, mem: seq<byte>)
    requires Placed(p) && HasParts(p, t, i) && PartsTyped(p, t, i, vs) && |mem| == Size(p, t)
    requires PartsStored(p, t, i, vs, mem)
    ensures ReadParts(p, t, i, mem) == vs
    decreases Rank(p, t), 0
  {
    forall j | 0 <= j < |vs| ensures ReadParts(p, t, i, mem)[j] == vs[j] {
      ReadBack(p, PartType(p, t, i, j), vs[j], Part(p, t, i, j, mem));
    }
  }

  // ---- Writing ----------------------------------------------------------------------------------------

  function Splice(mem: seq<byte>, off: nat, part: seq<byte>): (r: seq<byte>)
    requires off + |part| <= |mem|
    ensures |r| == |mem| && r[off..][..|part|] == part && r[..off] == mem[..off]
  {
    mem[..off] + part + mem[off + |part|..]
  }

  predicate Ordered(offs: seq<nat>, parts: seq<seq<byte>>, size: nat) {
    |offs| == |parts| &&
    (forall j :: 0 <= j < |offs| ==> offs[j] + |parts[j]| <= size) &&
    (forall j, k :: 0 <= j < k < |offs| ==> offs[j] + |parts[j]| <= offs[k])
  }

  /** Writes the first `k` parts at their offsets. */
  function Overlay(mem: seq<byte>, offs: seq<nat>, parts: seq<seq<byte>>, k: nat): (r: seq<byte>)
    requires Ordered(offs, parts, |mem|) && k <= |offs|
    ensures |r| == |mem|
  {
    if k == 0 then mem else Splice(Overlay(mem, offs, parts, k - 1), offs[k - 1], parts[k - 1])
  }

  lemma {:induction false} OverlayHolds(mem: seq<byte>, offs: seq<nat>, parts: seq<seq<byte>>, k: nat, j: nat)
    requires Ordered(offs, parts, |mem|) && j < k <= |offs|
    ensures Overlay(mem, offs, parts, k)[offs[j]..][..|parts[j]|] == parts[j]
  {
    if j < k - 1 {
      OverlayHolds(mem, offs, parts, k - 1, j);
      var before, after := Overlay(mem, offs, parts, k - 1), Overlay(mem, offs, parts, k);
      var end := offs[j] + |parts[j]|;
      assert after[..end] == after[..offs[k - 1]][..end] == before[..end];
      assert after[offs[j]..][..|parts[j]|] == after[..end][offs[j]..];
      assert before[offs[j]..][..|parts[j]|] == before[..end][offs[j]..];
    }
  }

  lemma {:induction false} OverlayKeeps(mem: seq<byte>, offs: seq<nat>, parts: seq<seq<byte>>, k: nat, w: nat)
    requires Ordered(offs, parts, |mem|) && k <= |offs| && w <= |mem|
    requires forall j :: 0 <= j < k ==> w <= offs[j]
    ensures Overlay(mem, offs, parts, k)[..w] == mem[..w]
  {
    if k > 0 {
      OverlayKeeps(mem, offs, parts, k - 1, w);
      var before, after := Overlay(mem, offs, parts, k - 1), Overlay(mem, offs, parts, k);
      assert after[..w] == after[..offs[k - 1]][..w] == before[..w];
    }
  }

  /** Storing `v` over `mem`: leaves, the tag or the niche value, and the parts in order. */
  ghost function Write(p: Pool, t: Type, v: Value, mem: seq<byte>): (r: seq<byte>)
    requires Placed(p) && ValidType(p, t) && HasType(p, t, v) && |mem| == Size(p, t)
    ensures |r| == |mem|
    decreases Rank(p, t), 1
  {
    if IsLeaf(t) then ToLE(v.bits, |mem|)
    else if t.Enum? then
      TagInBounds(p, t);
      match StrategyOf(p, t)
      case Separate(off, w, _) => WriteParts(p, t, v.index, v.payload, Splice(mem, off, ToLE(v.index, w)))
      case Niche(unit, _, off, w, value) =>
        if v.index == unit then Splice(mem, off, ToLE(value, w))
        else WriteParts(p, t, v.index, v.payload, mem)
    else WriteParts(p, t, 0, v.elems, mem)
  }

  ghost function PartOffsets(p: Pool, t: Type, i: nat): (offs: seq<nat>)
    requires Placed(p) && HasParts(p, t, i)
    ensures |offs| == PartCount(p, t, i)
    ensures forall j :: 0 <= j < |offs| ==> offs[j] == PartOffset(p, t, i, j)
  {
    seq(PartCount(p, t, i), j requires 0 <= j < PartCount(p, t, i) => PartOffset(p, t, i, j))
  }

  ghost function PartImages(p: Pool, t: Type, i: nat, vs: seq<Value>, mem: seq<byte>): (parts: seq<seq<byte>>)
    requires Placed(p) && HasParts(p, t, i) && PartsTyped(p, t, i, vs) && |mem| == Size(p, t)
    ensures Ordered(PartOffsets(p, t, i), parts, |mem|)
    ensures forall j :: 0 <= j < |parts| ==>
              parts[j] == Write(p, PartType(p, t, i, j), vs[j], Part(p, t, i, j, mem))
    decreases Rank(p, t), 0, 0
  {
    var parts := seq(|vs|, j requires 0 <= j < |vs| =>
      Write(p, PartType(p, t, i, j), vs[j], Part(p, t, i, j, mem)));
    assert Ordered(PartOffsets(p, t, i), parts, |mem|) by {
      forall j | 0 <= j < |vs| ensures PartOffset(p, t, i, j) + |parts[j]| <= |mem| {
        PartsInBounds(p, t, i, j);
      }
      forall j, k | 0 <= j < k < |vs| ensures PartOffset(p, t, i, j) + |parts[j]| <= PartOffset(p, t, i, k) {
        PartsDisjoint(p, t, i, j, k);
      }
    }
    parts
  }

  ghost function WriteParts(p: Pool, t: Type, i: nat, vs: seq<Value>, mem: seq<byte>): (r: seq<byte>)
    requires Placed(p) && HasParts(p, t, i) && PartsTyped(p, t, i, vs) && |mem| == Size(p, t)
    ensures |r| == |mem|
    decreases Rank(p, t), 0, 1
  {
    Overlay(mem, PartOffsets(p, t, i), PartImages(p, t, i, vs, mem), |vs|)
  }

  /** The tag is wide enough for every variant index. */
  lemma TagHoldsIndex(count: nat, isC: bool, index: nat)
    requires index < count && index < U32_LIMIT
    ensures index < Pow256(PrimLayout(DiscriminantType(count, isC)).size)
  {
    assert Pow256(1) == 256 && Pow256(2) == 65536 && Pow256(4) == U32_LIMIT;
    assert Pow256(8) >= U32_LIMIT;
  }

  /** Whatever `mem` held before, it is an image of `v` after writing `v`. */
  lemma {:induction false} WriteStores(p: Pool, t: Type, v: Value, mem: seq<byte>)
    requires Placed(p) && ValidType(p, t) && HasType(p, t, v) && |mem| == Size(p, t)
    ensures Stores(p, t, v, Write(p, t, v, mem))
    decreases Rank(p, t), 1
  {
    if IsLeaf(t) {
      FromToLE(v.bits, |mem|);
    } else if t.Enum? {
      EnumWriteStores(p, t, v, mem);
    } else {
      WritePartsStores(p, t, 0, v.elems, mem);
    }
  }

  lemma {:induction false} EnumWriteStores(p: Pool, t: Type, v: Value, mem: seq<byte>)
    requires Placed(p) && ValidType(p, t) && t.Enum? && HasType(p, t, v) && |mem| == Size(p, t)
    ensures Stores(p, t, v, Write(p, t, v, mem))
    decreases Rank(p, t), 0, 1
  {
    TagInBounds(p, t);
    match StrategyOf(p, t)
    case Separate(off, w, _) =>
      SeparateInBounds(VariantLayouts(p, t), p[t.id].enumDef.isCLayout, v.index);
      TagHoldsIndex(|Variants(p, t)|, p[t.id].enumDef.isCLayout, v.index);
      FromToLE(v.index, w);
      var tagged := Splice(mem, off, ToLE(v.index, w));
      WritePartsStores(p, t, v.index, v.payload, tagged);
      forall j | 0 <= j < |v.payload| ensures w <= PartOffset(p, t, v.index, j) {
        PartsInBounds(p, t, v.index, j);
      }
      OverlayKeeps(tagged, PartOffsets(p, t, v.index), PartImages(p, t, v.index, v.payload, tagged), |v.payload|, w);
      assert TagBytes(p, t, Write(p, t, v, mem)) == Write(p, t, v, mem)[..w];
      assert tagged[..w] == tagged[off..][..w];
    case Niche(unit, _, _, w, value) =>
      if v.index == unit {
        FromToLE(value, w);
      } else {
        WritePartsStores(p, t, v.index, v.payload, mem);
      }
  }

  lemma {:induction false} WritePartsStores(p: Pool, t: Type, i: nat, vs: seq<Value>, mem: seq<byte>)
    requires Placed(p) && HasParts(p, t, i) && PartsTyped(p, t, i, vs) && |mem| == Size(p, t)
    ensures PartsStored(p, t, i, vs, WriteParts(p, t, i, vs, mem))
    decreases Rank(p, t), 0, 0
  {
    var r := WriteParts(p, t, i, vs, mem);
    forall j | 0 <= j < |vs| ensures Stores(p, PartType(p, t, i, j), vs[j], Part(p, t, i, j, r)) {
      OverlayHolds(mem, PartOffsets(p, t, i), PartImages(p, t, i, vs, mem), |vs|, j);
      WriteStores(p, PartType(p, t, i, j), vs[j], Part(p, t, i, j, mem));
    }
  }

  /** Store, then load: the value comes back whatever the memory held and whatever its type. */
  lemma WriteThenRead(p: Pool, t: Type, v: Value, mem: seq<byte>)
    requires Placed(p) && ValidType(p, t) && HasType(p, t, v) && |mem| == Size(p, t)
    ensures Read(p, t, Write(p, t, v, mem)) == v
  {
    WriteStores(p, t, v, mem);
    ReadBack(p, t, v, Write(p, t, v, mem));
  }
}
