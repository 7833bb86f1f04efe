/** The type intern pool: hash-consing of structural types, registration of nominal ones, two-phase
    reservation, and rebuilding the lookup map from the type list. */
module InternPool {
  import opened Bytes
  import opened Types
  import opened Layout

  /** One key per lookup map of the pool; the ten maps have disjoint keys, so they are kept as one. */
  datatype Key =
    | StructKey(name: Spur) | EnumKey(name: Spur)
    | ArrayKey(element: InternedType, len: nat)
    | PtrConstKey(target: InternedType) | PtrMutKey(target: InternedType)
    | RefKey(target: InternedType) | MutRefKey(target: InternedType)
    | SliceKey(target: InternedType) | MutSliceKey(target: InternedType)
    | VecKey(target: InternedType)

  function KeyOf(d: TypeData): Key {
    match d
    case StructData(name, _) => StructKey(name)
    case EnumData(name, _) => EnumKey(name)
    case ArrayData(e, n) => ArrayKey(e, n)
    case PtrConstData(t) => PtrConstKey(t)
    case PtrMutData(t) => PtrMutKey(t)
    case RefData(t) => RefKey(t)
    case MutRefData(t) => MutRefKey(t)
    case SliceData(t) => SliceKey(t)
    case MutSliceData(t) => MutSliceKey(t)
    case VecData(t) => VecKey(t)
  }

  /** `Spur::default()`, the name of a reserved slot. */
  const DEFAULT_SPUR: Spur := 0

  const PLACEHOLDER: TypeData := StructData(DEFAULT_SPUR, StructDef("", [], None, false))

  /** The interned index of pool entry `i`. */
  function Interned(i: nat): InternedType { i + PRIMITIVE_COUNT }

  /** What the lock protects. `reserved` are the slots handed out and not yet completed. */
  datatype State = State(types: Pool, dedup: map<Key, InternedType>, reserved: set<nat>)

  const EMPTY: State := State([], map[], {})

  /** A structural type refers to primitives and entries that exist. */
  predicate KnownTargets(d: TypeData, size: nat) {
    match d
    case StructData(_, _) | EnumData(_, _) => true
    case ArrayData(t, _) => t < Interned(size)
    case _ => d.target < Interned(size)
  }

  /** Entry `i` is a placeholder, or is found under its own key; it refers backwards only. */
  ghost predicate EntryOk(s: State, i: nat)
    requires i < |s.types|
  {
    KnownTargets(s.types[i], i) &&
    if i in s.reserved then s.types[i].StructData? && s.types[i].name == DEFAULT_SPUR
    else KeyOf(s.types[i]) in s.dedup && s.dedup[KeyOf(s.types[i])] == Interned(i)
  }

  /** A key leads to a completed entry with that key. */
  ghost predicate KeyOk(s: State, k: Key)
    requires k in s.dedup
  {
    PRIMITIVE_COUNT <= s.dedup[k] < Interned(|s.types|) &&
    s.dedup[k] - PRIMITIVE_COUNT !in s.reserved && KeyOf(s.types[s.dedup[k] - PRIMITIVE_COUNT]) == k
  }

  /** The map is the inverse of `KeyOf` on the completed entries. */
  ghost predicate Inv(s: State) {
    (forall r :: r in s.reserved ==> r < |s.types|) &&
    (forall i :: 0 <= i < |s.types| ==> EntryOk(s, i)) &&
    (forall k :: k in s.dedup ==> KeyOk(s, k))
  }

  // ---- The operations as atomic steps --------------------------------------------------------

  /** Look the key up; append an entry if it is missing. */
  function Intern(s: State, d: TypeData): (r: (State, InternedType, bool)) {
    var k := KeyOf(d);
    if k in s.dedup then (s, s.dedup[k], false)
    else
      var id := Interned(|s.types|);
      (s.(types := s.types + [d], dedup := s.dedup[k := id]), id, true)
  }

  function Reserve(s: State): (State, nat) {
    (s.(types := s.types + [PLACEHOLDER], reserved := s.reserved + {|s.types|}), |s.types|)
  }

  /** The two assertions of the source: the slot exists and the name is free. */
  predicate CanComplete(s: State, slot: nat, name: Spur) {
    slot < |s.types| && StructKey(name) !in s.dedup
  }

  function Complete(s: State, slot: nat, name: Spur, def: StructDef): State
    requires CanComplete(s, slot, name)
  {
    s.(types := s.types[slot := StructData(name, def)], dedup := s.dedup[StructKey(name) := Interned(slot)],
       reserved := s.reserved - {slot})
  }

  /** Updating a definition keeps the entry's kind and name. */
  predicate SameHeader(d: TypeData, e: TypeData) {
    (d.StructData? && e.StructData? && d.name == e.name) || (d.EnumData? && e.EnumData? && d.name == e.name)
  }

  function Update(s: State, slot: nat, d: TypeData): State
    requires slot < |s.types| && SameHeader(s.types[slot], d)
  {
    s.(types := s.types[slot := d])
  }

  lemma InternKeepsInv(s: State, d: TypeData)
    requires Inv(s) && KnownTargets(d, |s.types|)
    ensures Inv(Intern(s, d).0)
  {
    var s' := Intern(s, d).0;
    forall i | 0 <= i < |s'.types| ensures EntryOk(s', i) {
      assert i < |s.types| ==> EntryOk(s, i) && s'.types[i] == s.types[i];
    }
    forall k | k in s'.dedup ensures KeyOk(s', k) {
      assert k in s.dedup ==> KeyOk(s, k);
    }
  }

  lemma ReserveKeepsInv(s: State)
    requires Inv(s)
    ensures Inv(Reserve(s).0)
  {
    var s' := Reserve(s).0;
    forall i | 0 <= i < |s'.types| ensures EntryOk(s', i) {
      assert i < |s.types| ==> EntryOk(s, i) && s'.types[i] == s.types[i];
    }
    forall k | k in s'.dedup ensures KeyOk(s', k) {
      assert KeyOk(s, k);
    }
  }

  lemma UpdateKeepsInv(s: State, slot: nat, d: TypeData)
    requires Inv(s) && slot < |s.types| && SameHeader(s.types[slot], d)
    ensures Inv(Update(s, slot, d))
  {
    var s' := Update(s, slot, d);
    forall i | 0 <= i < |s'.types| ensures EntryOk(s', i) {
      assert EntryOk(s, i);
    }
    forall k | k in s'.dedup ensures KeyOk(s', k) {
      assert KeyOk(s, k);
    }
  }

  /** Completing keeps the pool consistent exactly for a slot that is reserved and not completed.
      The source documents a panic for any other slot but only checks the bounds and the name. */
  lemma CompleteExact(s: State, slot: nat, name: Spur, def: StructDef)
    requires Inv(s) && CanComplete(s, slot, name)
    ensures Inv(Complete(s, slot, name, def)) <==> slot in s.reserved
  {
    var s' := Complete(s, slot, name, def);
    assert EntryOk(s, slot);
    if slot in s.reserved {
      forall i | 0 <= i < |s'.types| ensures EntryOk(s', i) {
        assert EntryOk(s, i);
      }
      forall k | k in s'.dedup ensures KeyOk(s', k) {
        assert k in s.dedup ==> KeyOk(s, k);
      }
    } else {
      var k := KeyOf(s.types[slot]);
      assert k in s'.dedup && !KeyOk(s', k);
    }
  }

  // ---- What the operations read and write ---------------------------------------------------------

  /** The entry `e` is the type that `d` describes: structural types by all their data, nominal ones
      by kind and name. */
  predicate Matches(d: TypeData, e: TypeData) {
    match d
    case StructData(name, _) => e.StructData? && e.name == name
    case EnumData(name, _) => e.EnumData? && e.name == name
    case _ => e == d
  }

  /** Keys agree exactly for matching data. */
  lemma SameKeyExactly(d: TypeData, e: TypeData)
    ensures KeyOf(d) == KeyOf(e) <==> Matches(d, e)
  {}

  /** Interning answers with an entry that is the type asked for, says it is new exactly when no
      completed entry was, and touches nothing else. */
  lemma InternAnswers(s: State, d: TypeData)
    requires Inv(s)
    ensures var (s', id, isNew) := Intern(s, d);
      PRIMITIVE_COUNT <= id < Interned(|s'.types|) && Matches(d, s'.types[id - PRIMITIVE_COUNT]) &&
      s'.types == (if isNew then s.types + [d] else s.types) && s'.reserved == s.reserved &&
      (isNew <==> forall i :: 0 <= i < |s.types| && i !in s.reserved ==> !Matches(d, s.types[i]))
  {
    var k := KeyOf(d);
    if k in s.dedup {
      assert KeyOk(s, k);
      SameKeyExactly(d, s.types[s.dedup[k] - PRIMITIVE_COUNT]);
    } else {
      forall i | 0 <= i < |s.types| && i !in s.reserved ensures !Matches(d, s.types[i]) {
        assert EntryOk(s, i);
        SameKeyExactly(d, s.types[i]);
      }
    }
  }

  /** After an update or a completion the slot reads the new definition, a completed name leads to its
      slot, and every other slot and name reads as before. */
  lemma DefinitionRead(s: State, slot: nat, name: Spur, def: StructDef, d: TypeData, i: nat)
    requires i < |s.types|
    ensures slot < |s.types| && SameHeader(s.types[slot], d) ==>
      var u := Update(s, slot, d);
      |u.types| == |s.types| && u.types[i] == (if i == slot then d else s.types[i]) && u.dedup == s.dedup
    ensures CanComplete(s, slot, name) ==>
      var c := Complete(s, slot, name, def);
      |c.types| == |s.types| && c.types[i] == (if i == slot then StructData(name, def) else s.types[i]) &&
      c.dedup == s.dedup[StructKey(name) := Interned(slot)]
  {}

  /** Completing a slot a second time, under another name, leaves the first name leading to the wrong entry. */
  lemma CompletedTwiceExample()
    ensures var s := Complete(Reserve(EMPTY).0, 0, 1, StructDef("A", [], None, false));
      Inv(s) && CanComplete(s, 0, 2) && !Inv(Complete(s, 0, 2, StructDef("B", [], None, false)))
  {
    ReserveKeepsInv(EMPTY);
    var r := Reserve(EMPTY).0;
    CompleteExact(r, 0, 1, StructDef("A", [], None, false));
    var s := Complete(r, 0, 1, StructDef("A", [], None, false));
    CompleteExact(s, 0, 2, StructDef("B", [], None, false));
  }

  // ---- Identity of types -----------------------------------------------------------------------

  /** A type written out in full: structural types by structure, nominal ones by name. */
  datatype Tree =
    | PrimTree(index: nat)
    | Named(isEnum: bool, name: Spur)
    | Unnamed(slot: nat)
    | ArrayTree(element: Tree, len: nat)
    | Wrapped(constructor_: nat, target: Tree)

  function WrapperIndex(d: TypeData): nat {
    match d
    case PtrConstData(_) => 0 case PtrMutData(_) => 1 case RefData(_) => 2 case MutRefData(_) => 3
    case SliceData(_) => 4 case MutSliceData(_) => 5 case _ => 6
  }

  ghost function Unfold(s: State, id: InternedType): Tree
    requires Inv(s) && id < Interned(|s.types|)
  {
    if id < PRIMITIVE_COUNT then PrimTree(id)
    else
      var i := id - PRIMITIVE_COUNT;
      assert EntryOk(s, i);
      match s.types[i]
      case StructData(name, _) => if i in s.reserved then Unnamed(i) else Named(false, name)
      case EnumData(name, _) => Named(true, name)
      case ArrayData(e, n) => ArrayTree(Unfold(s, e), n)
      case d => Wrapped(WrapperIndex(d), Unfold(s, d.target))
  }

  /** Two ids are equal exactly when the types they stand for are structurally equal. */
  lemma {:induction false} IdsAreCanonical(s: State, a: InternedType, b: InternedType)
    requires Inv(s) && a < Interned(|s.types|) && b < Interned(|s.types|)
    ensures a == b <==> Unfold(s, a) == Unfold(s, b)
    decreases a
  {
    if Unfold(s, a) == Unfold(s, b) && a >= PRIMITIVE_COUNT && b >= PRIMITIVE_COUNT {
      var i, j := a - PRIMITIVE_COUNT, b - PRIMITIVE_COUNT;
      assert EntryOk(s, i) && EntryOk(s, j);
      var d, e := s.types[i], s.types[j];
      if d.ArrayData? {
        IdsAreCanonical(s, d.element, e.element);
      } else if !d.StructData? && !d.EnumData? {
        IdsAreCanonical(s, d.target, e.target);
      }
    }
  }

  /** The type that `d` describes, written out in full. */
  ghost function TreeOf(s: State, d: TypeData): Tree
    requires Inv(s) && KnownTargets(d, |s.types|)
  {
    match d
    case StructData(name, _) => Named(false, name)
    case EnumData(name, _) => Named(true, name)
    case ArrayData(e, n) => ArrayTree(Unfold(s, e), n)
    case _ => Wrapped(WrapperIndex(d), Unfold(s, d.target))
  }

  lemma {:induction false} UnfoldStays(s: State, s': State, id: InternedType)
    requires Inv(s) && Inv(s') && s.types <= s'.types && s.reserved == s'.reserved && id < Interned(|s.types|)
    ensures Unfold(s', id) == Unfold(s, id)
    decreases id
  {
    if id >= PRIMITIVE_COUNT {
      var i := id - PRIMITIVE_COUNT;
      assert EntryOk(s, i) && s'.types[i] == s.types[i];
      var d := s.types[i];
      if d.ArrayData? {
        UnfoldStays(s, s', d.element);
      } else if !d.StructData? && !d.EnumData? {
        UnfoldStays(s, s', d.target);
      }
    }
  }

  /** The id answered stands for the type asked for. */
  lemma InternUnfolds(s: State, d: TypeData)
    requires Inv(s) && KnownTargets(d, |s.types|)
    ensures var (s', id, _) := Intern(s, d);
      Inv(s') && id < Interned(|s'.types|) && Unfold(s', id) == TreeOf(s, d)
  {
    var (s', id, isNew) := Intern(s, d);
    InternKeepsInv(s, d);
    InternAnswers(s, d);
    assert KeyOk(s', KeyOf(d));
    if d.ArrayData? {
      UnfoldStays(s, s', d.element);
    } else if !d.StructData? && !d.EnumData? {
      UnfoldStays(s, s', d.target);
    }
  }

  // ---- Rebuilding the map from the type list ---------------------------------------------------------

  function Keys(types: Pool): (ks: seq<Key>)
    ensures |ks| == |types| && forall i :: 0 <= i < |ks| ==> ks[i] == KeyOf(types[i])
  {
    seq(|types|, i requires 0 <= i < |types| => KeyOf(types[i]))
  }

  /** The map after walking the first `n` keys, later entries overwriting earlier ones. */
  function RebuildMap(ks: seq<Key>, n: nat): map<Key, InternedType>
    requires n <= |ks|
  {
    if n == 0 then map[] else RebuildMap(ks, n - 1)[ks[n - 1] := Interned(n - 1)]
  }

  /** Every key is found, at or after its entry. */
  lemma {:induction false} RebuildFinds(ks: seq<Key>, n: nat, i: nat)
    requires i < n <= |ks|
    ensures ks[i] in RebuildMap(ks, n) && Interned(i) <= RebuildMap(ks, n)[ks[i]]
  {
    if i < n - 1 {
      RebuildFinds(ks, n - 1, i);
    }
  }

  /** A key leads to an entry that has it. */
  lemma {:induction false} RebuildLeads(ks: seq<Key>, n: nat, k: Key)
    requires n <= |ks| && k in RebuildMap(ks, n)
    ensures PRIMITIVE_COUNT <= RebuildMap(ks, n)[k] < Interned(n)
    ensures ks[RebuildMap(ks, n)[k] - PRIMITIVE_COUNT] == k
  {
    if k != ks[n - 1] {
      RebuildLeads(ks, n - 1, k);
    }
  }

  /** No slot is waiting to be completed, or the default name is registered after all that are. */
  ghost predicate Rebuildable(s: State) {
    s.reserved == {} ||
    (StructKey(DEFAULT_SPUR) in s.dedup &&
     forall r :: r in s.reserved ==> Interned(r) < s.dedup[StructKey(DEFAULT_SPUR)])
  }

  function Rebuilt(s: State): map<Key, InternedType> { RebuildMap(Keys(s.types), |s.types|) }

  lemma RebuiltKey(s: State, k: Key)
    requires Inv(s) && Rebuildable(s) && k in s.dedup
    ensures k in Rebuilt(s) && Rebuilt(s)[k] == s.dedup[k]
  {
    assert KeyOk(s, k);
    RebuildFinds(Keys(s.types), |s.types|, s.dedup[k] - PRIMITIVE_COUNT);
    RebuildLeads(Keys(s.types), |s.types|, k);
    assert EntryOk(s, Rebuilt(s)[k] - PRIMITIVE_COUNT);
  }

  lemma RebuiltKeyKnown(s: State, k: Key)
    requires Inv(s) && Rebuildable(s) && k in Rebuilt(s)
    ensures k in s.dedup
  {
    RebuildLeads(Keys(s.types), |s.types|, k);
    assert EntryOk(s, Rebuilt(s)[k] - PRIMITIVE_COUNT);
  }

  lemma WaitingSlotShows(s: State, r: nat)
    requires Inv(s) && Rebuilt(s) == s.dedup && r in s.reserved
    ensures StructKey(DEFAULT_SPUR) in s.dedup && Interned(r) < s.dedup[StructKey(DEFAULT_SPUR)]
  {
    assert EntryOk(s, r);
    RebuildFinds(Keys(s.types), |s.types|, r);
    assert KeyOk(s, StructKey(DEFAULT_SPUR));
  }

  /** A pool rebuilt from its type list has the original's lookup map in exactly these states;
      a waiting placeholder otherwise turns up under the default name. */
  lemma RebuildExact(s: State)
    requires Inv(s)
    ensures Rebuilt(s) == s.dedup <==> Rebuildable(s)
  {
    if Rebuilt(s) == s.dedup {
      forall r | r in s.reserved
        ensures StructKey(DEFAULT_SPUR) in s.dedup && Interned(r) < s.dedup[StructKey(DEFAULT_SPUR)]
      {
        WaitingSlotShows(s, r);
      }
    }
    if Rebuildable(s) {
      forall k | k in s.dedup ensures k in Rebuilt(s) && Rebuilt(s)[k] == s.dedup[k] { RebuiltKey(s, k); }
      forall k | k in Rebuilt(s) ensures k in s.dedup { RebuiltKeyKnown(s, k); }
      assert Rebuilt(s) == s.dedup;
    }
  }

  /** The ids given out by interning `ds` one after another. */
  function Answers(s: State, ds: seq<TypeData>): seq<InternedType>
    decreases ds
  {
    if ds == [] then [] else [Intern(s, ds[0]).1] + Answers(Intern(s, ds[0]).0, ds[1..])
  }

  lemma {:induction false} ReservedIrrelevant(s: State, reserved: set<nat>, ds: seq<TypeData>)
    ensures Answers(s.(reserved := reserved), ds) == Answers(s, ds)
    decreases ds
  {
    if ds != [] {
      ReservedIrrelevant(Intern(s, ds[0]).0, reserved, ds[1..]);
      assert Intern(s.(reserved := reserved), ds[0]).0 == Intern(s, ds[0]).0.(reserved := reserved);
    }
  }

  /** Where rebuilding gives the original map, the copy answers every later sequence of calls as the original. */
  lemma CopyAnswersAlike(s: State, ds: seq<TypeData>)
    requires Inv(s) && Rebuildable(s)
    ensures Answers(State(s.types, Rebuilt(s), {}), ds) == Answers(s, ds)
  {
    RebuildExact(s);
    ReservedIrrelevant(s, {}, ds);
  }

  /** Reserve in an empty pool, then snapshot: the copy knows a struct the original does not. */
  lemma WaitingSlotExample()
    ensures var s := Reserve(EMPTY).0;
      Inv(s) && StructKey(DEFAULT_SPUR) !in s.dedup && StructKey(DEFAULT_SPUR) in Rebuilt(s)
  {
    var s := Reserve(EMPTY).0;
    ReserveKeepsInv(EMPTY);
    RebuildFinds(Keys(s.types), 1, 0);
  }
}
