/** When a cached layout is still the layout: the cache agrees with recomputation after every
    append, and after a definition update in exactly the states described here. */
module LayoutCache {
  import opened Bytes
  import opened Types
  import opened Layout
  import opened InternPool

  type Cache = map<Type, Layout>

  ghost predicate EntryAgrees(p: Pool, c: Cache, t: Type)
    requires WellFormed(p) && t in c
  {
    ValidType(p, t) && c[t] == ComputeLayout(p, t)
  }

  /** Every cached entry is what an uncached computation would give. */
  ghost predicate Agrees(p: Pool, c: Cache)
    requires WellFormed(p)
  {
    forall t {:trigger EntryAgrees(p, c, t)} :: t in c ==> EntryAgrees(p, c, t)
  }

  /** `x` is contained by value in `t`: a field, a variant's field or the element. */
  ghost predicate IsPart(p: Pool, t: Type, x: Type)
    requires WellFormed(p) && ValidType(p, t)
  {
    match t
    case Struct(_) => exists j :: 0 <= j < |Fields(p, t)| && x == Fields(p, t)[j]
    case Enum(_) =>
      exists v, j :: 0 <= v < |Variants(p, t)| && 0 <= j < |Variants(p, t)[v]| && x == Variants(p, t)[v][j]
    case Array(id) => ElementBelow(p, t); x == ElementType(p, id)
    case _ => false
  }

  /** All parts of `t` are cached. */
  ghost predicate PartsIn(p: Pool, t: Type, c: Cache)
    requires WellFormed(p) && ValidType(p, t)
  {
    match t
    case Struct(_) => forall j :: 0 <= j < |Fields(p, t)| ==> Fields(p, t)[j] in c
    case Enum(_) =>
      forall v, j :: 0 <= v < |Variants(p, t)| && 0 <= j < |Variants(p, t)[v]| ==> Variants(p, t)[v][j] in c
    case Array(id) => ElementBelow(p, t); ElementType(p, id) in c
    case _ => true
  }

  /** Computing a layout caches the layouts of all parts first. */
  ghost predicate PartsCached(p: Pool, c: Cache)
    requires WellFormed(p)
  {
    forall t {:trigger PartsIn(p, t, c)} :: t in c && ValidType(p, t) ==> PartsIn(p, t, c)
  }

  /** A computed layout may be added once its parts are there. */
  lemma CacheInsert(p: Pool, c: Cache, t: Type)
    requires WellFormed(p) && Agrees(p, c) && PartsCached(p, c) && ValidType(p, t) && PartsIn(p, t, c)
    ensures var c' := c[t := ComputeLayout(p, t)]; Agrees(p, c') && PartsCached(p, c')
  {
    var c' := c[t := ComputeLayout(p, t)];
    forall u | u in c' ensures EntryAgrees(p, c', u) {
      assert u in c ==> EntryAgrees(p, c, u);
    }
    forall u | u in c' && ValidType(p, u) ensures PartsIn(p, u, c') {
      assert PartsIn(p, u, c);
    }
  }

  /** `t` has the same definition in both pools. */
  ghost predicate SameDefinition(p: Pool, q: Pool, t: Type)
    requires WellFormed(p) && WellFormed(q) && ValidType(p, t) && ValidType(q, t)
  {
    match t
    case Struct(_) => Fields(p, t) == Fields(q, t)
    case Enum(id) => Variants(p, t) == Variants(q, t) && p[id].enumDef.isCLayout == q[id].enumDef.isCLayout
    case Array(id) =>
      ElementBelow(p, t); ElementBelow(q, t);
      ElementType(p, id) == ElementType(q, id) && p[id].len == q[id].len
    case _ => true
  }

  ghost predicate SameLayout(p: Pool, q: Pool, t: Type)
    requires WellFormed(p) && WellFormed(q)
  {
    ValidType(p, t) && ValidType(q, t) && ComputeLayout(p, t) == ComputeLayout(q, t)
  }

  /** A layout depends on the definition and on the layouts of the parts, nothing else. */
  lemma {:induction false} LayoutFromParts(p: Pool, q: Pool, t: Type)
    requires WellFormed(p) && WellFormed(q) && ValidType(p, t) && ValidType(q, t) && SameDefinition(p, q, t)
    requires forall x {:trigger SameLayout(p, q, x)} :: IsPart(p, t, x) ==> SameLayout(p, q, x)
    ensures ComputeLayout(p, t) == ComputeLayout(q, t)
  {
    if t.Struct? {
      forall j | 0 <= j < |Fields(p, t)| ensures FieldLayouts(p, t)[j] == FieldLayouts(q, t)[j] {
        assert IsPart(p, t, Fields(p, t)[j]) && SameLayout(p, q, Fields(p, t)[j]);
      }
      assert FieldLayouts(p, t) == FieldLayouts(q, t);
    } else if t.Enum? {
      forall v | 0 <= v < |Variants(p, t)| ensures VariantLayouts(p, t)[v] == VariantLayouts(q, t)[v] {
        forall j | 0 <= j < |Variants(p, t)[v]| ensures VariantLayouts(p, t)[v][j] == VariantLayouts(q, t)[v][j] {
          assert IsPart(p, t, Variants(p, t)[v][j]) && SameLayout(p, q, Variants(p, t)[v][j]);
        }
      }
      assert VariantLayouts(p, t) == VariantLayouts(q, t);
    } else if t.Array? {
      ElementBelow(p, t);
      assert IsPart(p, t, ElementType(p, t.id)) && SameLayout(p, q, ElementType(p, t.id));
    }
  }

  lemma PartBelow(p: Pool, t: Type, x: Type)
    requires WellFormed(p) && ValidType(p, t) && IsPart(p, t, x)
    ensures ValidType(p, x) && Rank(p, x) < Rank(p, t)
  {
    if t.Struct? {
      var j :| 0 <= j < |Fields(p, t)| && x == Fields(p, t)[j];
      FieldBelow(p, t, j);
    } else if t.Enum? {
      var v, j :| 0 <= v < |Variants(p, t)| && 0 <= j < |Variants(p, t)[v]| && x == Variants(p, t)[v][j];
      VariantFieldBelow(p, t, v, j);
    } else {
      ElementBelow(p, t);
    }
  }

  lemma PartInCache(p: Pool, t: Type, c: Cache, x: Type)
    requires WellFormed(p) && PartsCached(p, c) && t in c && ValidType(p, t) && IsPart(p, t, x)
    ensures x in c
  {
    assert PartsIn(p, t, c);
  }

  // ---- Appending -------------------------------------------------------------------------------

  lemma AppendKeepsDefinition(p: Pool, d: TypeData, t: Type)
    requires WellFormed(p) && WellFormed(p + [d]) && ValidType(p, t)
    ensures ValidType(p + [d], t) && SameDefinition(p, p + [d], t)
  {
    if t.Array? {
      ElementBelow(p, t);
    }
  }

  lemma {:induction false} AppendKeepsLayout(p: Pool, d: TypeData, t: Type)
    requires WellFormed(p) && WellFormed(p + [d]) && ValidType(p, t)
    ensures ValidType(p + [d], t) && ComputeLayout(p + [d], t) == ComputeLayout(p, t)
    decreases Rank(p, t)
  {
    var q := p + [d];
    AppendKeepsDefinition(p, d, t);
    forall x | IsPart(p, t, x) ensures SameLayout(p, q, x) {
      PartBelow(p, t, x);
      AppendKeepsLayout(p, d, x);
    }
    LayoutFromParts(p, q, t);
  }

  /** Interning or registering a type never invalidates a cached layout. */
  lemma AppendKeepsCache(p: Pool, d: TypeData, c: Cache)
    requires WellFormed(p) && WellFormed(p + [d]) && Agrees(p, c) && PartsCached(p, c)
    ensures Agrees(p + [d], c) && PartsCached(p + [d], c)
  {
    forall t | t in c ensures EntryAgrees(p + [d], c, t) {
      assert EntryAgrees(p, c, t);
      AppendKeepsLayout(p, d, t);
    }
    forall t | t in c && ValidType(p + [d], t) ensures PartsIn(p + [d], t, c) {
      assert EntryAgrees(p, c, t);
      AppendKeepsDefinition(p, d, t);
      assert PartsIn(p, t, c);
    }
  }

  // ---- Updating a definition ------------------------------------------------------------------------

  /** A struct stays a struct and an enum an enum; the name may change, as when a reserved slot is completed. */
  predicate SameKind(d: TypeData, e: TypeData) {
    (d.StructData? && e.StructData?) || (d.EnumData? && e.EnumData?)
  }

  lemma UpdateKeepsDefinition(p: Pool, slot: nat, d: TypeData, t: Type)
    requires slot < |p| && SameKind(p[slot], d) && WellFormed(p) && WellFormed(p[slot := d])
    requires ValidType(p, t)
    ensures ValidType(p[slot := d], t)
    ensures t != EntryType(p, slot) ==> SameDefinition(p, p[slot := d], t)
  {
    if t.Array? {
      ElementBelow(p, t);
    }
  }

  lemma {:induction false} UpdateKeepsLayout(p: Pool, slot: nat, d: TypeData, c: Cache, t: Type)
    requires slot < |p| && SameKind(p[slot], d) && WellFormed(p) && WellFormed(p[slot := d])
    requires Agrees(p, c) && PartsCached(p, c) && t in c
    requires var u := EntryType(p, slot); u in c ==>
      ValidType(p[slot := d], u) && ComputeLayout(p[slot := d], u) == c[u]
    ensures ValidType(p[slot := d], t) && ComputeLayout(p[slot := d], t) == c[t]
    decreases Rank(p, t)
  {
    var q := p[slot := d];
    assert EntryAgrees(p, c, t);
    UpdateKeepsDefinition(p, slot, d, t);
    if t != EntryType(p, slot) {
      forall x | IsPart(p, t, x) ensures SameLayout(p, q, x) {
        PartBelow(p, t, x);
        PartInCache(p, t, c, x);
        UpdateKeepsLayout(p, slot, d, c, x);
        assert EntryAgrees(p, c, x);
      }
      LayoutFromParts(p, q, t);
    }
  }

  /** Nothing clears the cache on an update, so it keeps agreeing exactly when the updated type was
      never queried or its new layout happens to be the cached one. */
  lemma UpdateCacheExact(p: Pool, slot: nat, d: TypeData, c: Cache)
    requires slot < |p| && SameKind(p[slot], d) && WellFormed(p) && WellFormed(p[slot := d])
    requires Agrees(p, c) && PartsCached(p, c)
    ensures ValidType(p[slot := d], EntryType(p, slot))
    ensures Agrees(p[slot := d], c) <==>
      (EntryType(p, slot) in c ==> ComputeLayout(p[slot := d], EntryType(p, slot)) == c[EntryType(p, slot)])
    ensures EntryType(p, slot) !in c ==> PartsCached(p[slot := d], c)
  {
    var u := EntryType(p, slot);
    UpdateKeepsDefinition(p, slot, d, u);
    if u !in c {
      forall t | t in c && ValidType(p[slot := d], t) ensures PartsIn(p[slot := d], t, c) {
        assert EntryAgrees(p, c, t);
        UpdateKeepsDefinition(p, slot, d, t);
        assert PartsIn(p, t, c);
      }
    }
    if u in c ==> ComputeLayout(p[slot := d], u) == c[u] {
      forall t | t in c ensures EntryAgrees(p[slot := d], c, t) {
        UpdateKeepsLayout(p, slot, d, c, t);
      }
    }
    if Agrees(p[slot := d], c) && u in c {
      assert EntryAgrees(p[slot := d], c, u);
    }
  }

  /** A struct of one `i8`, cached and then updated to one `i32`. */
  lemma StaleCacheExample()
    ensures var p := [StructData(1, StructDef("S", [Prim(I8)], None, false))];
      var d := StructData(1, StructDef("S", [Prim(I32)], None, false));
      WellFormed(p) && WellFormed(p[0 := d]) && SameHeader(p[0], d) && ValidType(p, Struct(0)) &&
      var c := map[Prim(I8) := ComputeLayout(p, Prim(I8)), Struct(0) := ComputeLayout(p, Struct(0))];
      Agrees(p, c) && PartsCached(p, c) && !Agrees(p[0 := d], c)
  {
    var p := [StructData(1, StructDef("S", [Prim(I8)], None, false))];
    var d := StructData(1, StructDef("S", [Prim(I32)], None, false));
    assert Ranks(p, [0]) && Ranks(p[0 := d], [0]);
    StructOfOne(p, I8);
    StructOfOne(p[0 := d], I32);
    var c := map[Prim(I8) := ComputeLayout(p, Prim(I8)), Struct(0) := ComputeLayout(p, Struct(0))];
    UpdateCacheExact(p, 0, d, c);
  }

  lemma StructOfOne(p: Pool, x: Prim)
    requires WellFormed(p) && ValidType(p, Struct(0)) && Fields(p, Struct(0)) == [Prim(x)] && PrimLayout(x).size > 0
    ensures ComputeLayout(p, Struct(0)).size >= PrimLayout(x).size &&
      (x == I8 ==> ComputeLayout(p, Struct(0)).size == 1)
  {
    var ls := FieldLayouts(p, Struct(0));
    assert ls[0] == ComputeLayout(p, Fields(p, Struct(0))[0]) == PrimLayout(x);
    FieldInBounds(ls, 0);
    assert x == I8 ==> End(ls, 1) == 1 && MaxAlign(ls, 1) == 1;
  }
}
