/** The pool object: the atomic steps of `InternPool` and the layout queries with their cache,
    as methods that update the pool in place. */
module TypeInternPool {
  import opened Bytes
  import opened Types
  import opened Layout
  import opened InternPool
  import opened LayoutCache

  /** Cached types stay cached. */
  ghost predicate Grown(c: Cache, c': Cache) {
    forall t :: t in c ==> t in c'
  }

  /** The first `i` of the types are cached. */
  ghost predicate FirstIn(ts: seq<Type>, i: nat, c: Cache) {
    forall j :: 0 <= j < i && j < |ts| ==> ts[j] in c
  }

  lemma OneMoreIn(ts: seq<Type>, i: nat, c: Cache, c': Cache)
    requires FirstIn(ts, i, c) && Grown(c, c') && i < |ts| && ts[i] in c'
    ensures FirstIn(ts, i + 1, c')
  {}

  lemma StructParts(p: seq<TypeData>, t: Type, c: Cache)
    requires WellFormed(p) && t.Struct? && ValidType(p, t) && FirstIn(Fields(p, t), |Fields(p, t)|, c)
    ensures PartsIn(p, t, c) && ComputeLayout(p, t) == StructLayout(FieldLayouts(p, t))
  {}

  /** The three loop variables of the struct case after the first `i` fields. */
  ghost predicate PlacedUpTo(ls: seq<Layout>, i: nat, offset: nat, maxAlign: Align, niches: seq<NicheRange>)
    requires i <= |ls|
  {
    (offset, maxAlign, niches) == (End(ls, i), MaxAlign(ls, i), StructNiches(ls, i))
  }

  class Pool {
    var types: seq<TypeData>
    var dedup: map<Key, InternedType>
    var layoutCache: Cache
    ghost var reserved: set<nat>

    ghost function Current(): State
      reads this
    {
      State(types, dedup, reserved)
    }

    ghost predicate Valid()
      reads this
    {
      Inv(Current())
    }

    ghost predicate CacheValid()
      reads this
    {
      WellFormed(types) && Agrees(types, layoutCache) && PartsCached(types, layoutCache)
    }

    constructor ()
      ensures Valid() && Current() == EMPTY && layoutCache == map[] && CacheValid()
    {
      types, dedup, layoutCache, reserved := [], map[], map[], {};
      assert Ranks([], []);
    }

    /** `register_struct`, `register_enum` and every `intern_*`, without interference between the
        two lookups; `Interleaving` models what other threads do in between. */
    method InternType(d: TypeData) returns (id: InternedType, isNew: bool)
      requires Valid() && KnownTargets(d, |types|)
      modifies this`types, this`dedup
      ensures Valid() && (Current(), id, isNew) == Intern(old(Current()), d)
      ensures PRIMITIVE_COUNT <= id < Interned(|types|) && Matches(d, types[id - PRIMITIVE_COUNT])
      ensures types == if isNew then old(types) + [d] else old(types)
      ensures old(CacheValid()) && WellFormed(types) ==> CacheValid()
    {
      InternKeepsInv(Current(), d);
      InternAnswers(Current(), d);
      var key := KeyOf(d);
      if key in dedup {
        return dedup[key], false;
      }
      id, isNew := Interned(|types|), true;
      types, dedup := types + [d], dedup[key := id];
      if old(CacheValid()) && WellFormed(types) {
        AppendKeepsCache(old(types), d, layoutCache);
      }
    }

    method ReserveStructId() returns (slot: nat)
      requires Valid()
      modifies this`types, this`reserved
      ensures Valid() && (Current(), slot) == Reserve(old(Current()))
      ensures slot == |old(types)| && types == old(types) + [PLACEHOLDER]
      ensures old(CacheValid()) && WellFormed(types) ==> CacheValid()
    {
      ReserveKeepsInv(Current());
      slot := |types|;
      types, reserved := types + [PLACEHOLDER], reserved + {slot};
      if old(CacheValid()) && WellFormed(types) {
        AppendKeepsCache(old(types), PLACEHOLDER, layoutCache);
      }
    }

    method CompleteStructRegistration(slot: nat, name: Spur, def: StructDef)
      requires Valid() && CanComplete(Current(), slot, name)
      modifies this`types, this`dedup, this`reserved
      ensures Current() == Complete(old(Current()), slot, name, def)
      ensures types == old(types)[slot := StructData(name, def)]
      ensures dedup == old(dedup)[StructKey(name) := Interned(slot)]
      ensures Valid() <==> slot in old(reserved)
      ensures old(CacheValid()) && WellFormed(types) && slot in old(reserved) && Struct(slot) !in layoutCache ==>
        CacheValid()
    {
      CompleteExact(Current(), slot, name, def);
      assert EntryOk(Current(), slot);
      types := types[slot := StructData(name, def)];
      dedup := dedup[StructKey(name) := Interned(slot)];
      reserved := reserved - {slot};
      if old(CacheValid()) && WellFormed(types) && slot in old(reserved) {
        UpdateCacheExact(old(types), slot, StructData(name, def), layoutCache);
      }
    }

    /** `update_struct_def` and `update_enum_def`; the layout cache is left as it is. */
    method UpdateDef(slot: nat, d: TypeData)
      requires Valid() && slot < |types| && SameHeader(types[slot], d)
      modifies this`types
      ensures Valid() && Current() == Update(old(Current()), slot, d) && types == old(types)[slot := d]
      ensures old(CacheValid()) && WellFormed(types) && EntryType(old(types), slot) !in layoutCache ==> CacheValid()
    {
      UpdateKeepsInv(Current(), slot, d);
      types := types[slot := d];
      if old(CacheValid()) && WellFormed(types) {
        UpdateCacheExact(old(types), slot, d, layoutCache);
      }
    }

    /** `clone_snapshot` and deserialization: copy the entries, rebuild the map as they are pushed. */
    method CloneSnapshot() returns (copy: Pool)
      requires Valid()
      ensures fresh(copy) && copy.types == types && copy.layoutCache == map[]
      ensures copy.dedup == dedup <==> Rebuildable(Current())
    {
      RebuildExact(Current());
      copy := new Pool();
      for i := 0 to |types|
        invariant copy.types == types[..i] && copy.layoutCache == map[]
        invariant copy.dedup == RebuildMap(Keys(types), i)
        invariant types == old(types) && dedup == old(dedup) && reserved == old(reserved)
      {
        copy.dedup := copy.dedup[KeyOf(types[i]) := Interned(|copy.types|)];
        copy.types := copy.types + [types[i]];
      }
    }

    /** The cached layout, or a computed one that is cached from now on: either way the layout. */
    method LayoutOf(t: Type) returns (l: Layout)
      requires CacheValid() && ValidType(types, t)
      modifies this`layoutCache
      ensures CacheValid() && l == ComputeLayout(types, t)
      ensures t in layoutCache && Grown(old(layoutCache), layoutCache)
      decreases Rank(types, t), 1
    {
      if t in layoutCache {
        assert EntryAgrees(types, layoutCache, t);
        return layoutCache[t];
      }
      if t.Struct? {
        l := ComputeStruct(t);
      } else if t.Enum? {
        var vs := VariantFieldLayouts(t);
        l := EnumLayout(vs, types[t.id].enumDef.isCLayout);
      } else if t.Array? {
        ElementBelow(types, t);
        var e := LayoutOf(ElementType(types, t.id));
        l := ArrayLayout(e, types[t.id].len);
      } else {
        l := LeafLayout(t);
      }
      CacheInsert(types, layoutCache, t);
      layoutCache := layoutCache[t := l];
    }

    /** A field's niches move with the field. */
    static method InheritNiches(niches: seq<NicheRange>, ns: seq<NicheRange>, offset: nat)
      returns (r: seq<NicheRange>)
      ensures r == niches + ShiftAll(ns, offset)
    {
      r := niches;
      for k := 0 to |ns|
        invariant r == niches + ShiftAll(ns, offset)[..k]
      {
        r := r + [Shift(ns[k], offset)];
      }
    }

    /** The loop body of the struct case: field `f` is number `i` of the fields laid out as `ls`. */
    static method PlaceField(offset: nat, maxAlign: Align, niches: seq<NicheRange>, f: Layout,
                             ghost ls: seq<Layout>, ghost i: nat)
      returns (offset': nat, maxAlign': Align, niches': seq<NicheRange>)
      requires i < |ls| && f == ls[i]
      requires PlacedUpTo(ls, i, offset, maxAlign, niches)
      ensures PlacedUpTo(ls, i + 1, offset', maxAlign', niches')
    {
      if f.size == 0 {
        assert StructNiches(ls, i + 1) == StructNiches(ls, i);
        return offset, maxAlign, niches;
      }
      maxAlign' := if f.align > maxAlign then f.align else maxAlign;
      offset' := AlignUp(offset, f.align);
      niches' := InheritNiches(niches, f.niches, offset');
      offset' := offset' + f.size;
    }

    static method FinishStruct(offset: nat, maxAlign: Align, niches: seq<NicheRange>, ghost ls: seq<Layout>)
      returns (l: Layout)
      requires PlacedUpTo(ls, |ls|, offset, maxAlign, niches)
      ensures l == StructLayout(ls)
    {
      var size := offset;
      if maxAlign > 1 {
        size := AlignUp(size, maxAlign);
      }
      l := Layout(size, maxAlign, niches, None);
    }

    /** One round of that loop, with the field's layout looked up or computed. */
    method PlaceNext(t: Type, i: nat, offset: nat, maxAlign: Align, niches: seq<NicheRange>, ghost ls: seq<Layout>)
      returns (offset': nat, maxAlign': Align, niches': seq<NicheRange>)
      requires CacheValid() && t.Struct? && ValidType(types, t) && i < |Fields(types, t)|
      requires ls == FieldLayouts(types, t) && PlacedUpTo(ls, i, offset, maxAlign, niches)
      requires FirstIn(Fields(types, t), i, layoutCache)
      modifies this`layoutCache
      ensures CacheValid() && PlacedUpTo(ls, i + 1, offset', maxAlign', niches')
      ensures Grown(old(layoutCache), layoutCache) && FirstIn(Fields(types, t), i + 1, layoutCache)
      decreases Rank(types, t), 0, 0
    {
      FieldBelow(types, t, i);
      ghost var before := layoutCache;
      var f := LayoutOf(Fields(types, t)[i]);
      OneMoreIn(Fields(types, t), i, before, layoutCache);
      offset', maxAlign', niches' := PlaceField(offset, maxAlign, niches, f, ls, i);
    }

    method PlaceFields(t: Type, ghost ls: seq<Layout>)
      returns (offset: nat, maxAlign: Align, niches: seq<NicheRange>)
      requires CacheValid() && t.Struct? && ValidType(types, t) && ls == FieldLayouts(types, t)
      modifies this`layoutCache
      ensures CacheValid() && PlacedUpTo(ls, |ls|, offset, maxAlign, niches)
      ensures Grown(old(layoutCache), layoutCache)
      ensures FirstIn(Fields(types, t), |ls|, layoutCache)
      decreases Rank(types, t), 0, 1
    {
      offset, maxAlign, niches := 0, 1, [];
      var n := |Fields(types, t)|;
      for i := 0 to n
        invariant PlacedUpTo(ls, i, offset, maxAlign, niches)
        invariant CacheValid() && FirstIn(Fields(types, t), i, layoutCache)
        invariant Grown(old(layoutCache), layoutCache)
      {
        offset, maxAlign, niches := PlaceNext(t, i, offset, maxAlign, niches, ls);
      }
    }

    method ComputeStruct(t: Type) returns (l: Layout)
      requires CacheValid() && t.Struct? && ValidType(types, t)
      modifies this`layoutCache
      ensures CacheValid() && l == ComputeLayout(types, t)
      ensures Grown(old(layoutCache), layoutCache)
      ensures PartsIn(types, t, layoutCache)
      decreases Rank(types, t), 0, 2
    {
      ghost var ls := FieldLayouts(types, t);
      var offset, maxAlign, niches := PlaceFields(t, ls);
      l := FinishStruct(offset, maxAlign, niches, ls);
      StructParts(types, t, layoutCache);
    }

    /** The layouts of every field of every variant, in order. */
    method VariantFieldLayouts(t: Type) returns (vs: seq<seq<Layout>>)
      requires CacheValid() && t.Enum? && ValidType(types, t)
      modifies this`layoutCache
      ensures CacheValid() && vs == VariantLayouts(types, t)
      ensures Grown(old(layoutCache), layoutCache)
      ensures PartsIn(types, t, layoutCache)
      decreases Rank(types, t), 0, 1
    {
      var variants := Variants(types, t);
      vs := [];
      for v := 0 to |variants|
        invariant CacheValid() && Grown(old(layoutCache), layoutCache)
        invariant forall u, j :: 0 <= u < v && 0 <= j < |variants[u]| ==> variants[u][j] in layoutCache
        invariant |vs| == v && forall u :: 0 <= u < v ==> vs[u] == VariantLayouts(types, t)[u]
      {
        var ls := OneVariantLayouts(t, v);
        vs := vs + [ls];
      }
    }

    method OneVariantLayouts(t: Type, v: nat) returns (ls: seq<Layout>)
      requires CacheValid() && t.Enum? && ValidType(types, t) && v < |Variants(types, t)|
      modifies this`layoutCache
      ensures CacheValid() && ls == VariantLayouts(types, t)[v]
      ensures Grown(old(layoutCache), layoutCache)
      ensures forall j :: 0 <= j < |Variants(types, t)[v]| ==> Variants(types, t)[v][j] in layoutCache
      decreases Rank(types, t), 0, 0
    {
      var fs := Variants(types, t)[v];
      ls := [];
      for j := 0 to |fs|
        invariant CacheValid() && Grown(old(layoutCache), layoutCache)
        invariant forall k :: 0 <= k < j ==> fs[k] in layoutCache
        invariant ls == VariantLayouts(types, t)[v][..j]
      {
        VariantFieldBelow(types, t, v, j);
        var f := LayoutOf(fs[j]);
        ls := ls + [f];
      }
    }
  }
}
