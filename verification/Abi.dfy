/** Values as arguments: the words a typed value is passed in, and the slot counts that the
    drop functions number their parameters by. */
module Abi {
  import opened Bytes
  import opened Types
  import opened Layout
  import opened Storage
  import opened DropTrace

  // ---- Words ---------------------------------------------------------------------------------------

  /** A machine word: up to eight bytes of a leaf, or an enum, which is passed as a unit. */
  datatype AbiWord = Chunk(bytes: seq<byte>) | Whole(value: Value)

  function Chunks(bytes: seq<byte>): (ws: seq<AbiWord>)
    ensures |ws| == (|bytes| + 7) / 8
  {
    if bytes == [] then []
    else if |bytes| <= 8 then [Chunk(bytes)]
    else [Chunk(bytes[..8])] + Chunks(bytes[8..])
  }

  /** A leaf is passed in one word per eight bytes, a struct or array as its parts in order. */
  ghost function Words(p: Pool, t: Type, v: Value): seq<AbiWord>
    requires WellFormed(p) && ValidType(p, t) && HasType(p, t, v)
    decreases Rank(p, t), 1
  {
    if IsLeaf(t) then Chunks(ToLE(v.bits, LeafLayout(t).size))
    else if t.Enum? then [Whole(v)]
    else Flatten(PartWords(p, t, v.elems), |v.elems|)
  }

  ghost function PartWords(p: Pool, t: Type, vs: seq<Value>): (r: seq<seq<AbiWord>>)
    requires HasParts(p, t, 0) && !t.Enum? && PartsTyped(p, t, 0, vs)
    ensures |r| == |vs|
    decreases Rank(p, t), 0
  {
    seq(|vs|, j requires 0 <= j < |vs| => Words(p, PartType(p, t, 0, j), vs[j]))
  }

  // ---- Slots ---------------------------------------------------------------------------------------

  function AbiSlots(p: Pool, t: Type): nat
    requires WellFormed(p) && ValidType(p, t)
    decreases Rank(p, t), 1, 0
  {
    match t
    case Struct(_) => FieldSlots(p, t, |Fields(p, t)|)
    case Array(id) => ElementBelow(p, t); AbiSlots(p, ElementType(p, id)) * p[id].len
    case Prim(Unit) | Prim(Never) | Prim(ComptimeType) | Prim(ComptimeStr) | Prim(ComptimeInt) | Module(_) => 0
    case Slice(_) | MutSlice(_) | Interface(_) => 2
    case Vec(_) => 3
    case _ => 1
  }

  function FieldSlots(p: Pool, t: Type, k: nat): nat
    requires WellFormed(p) && t.Struct? && ValidType(p, t) && k <= |Fields(p, t)|
    decreases Rank(p, t), 0, k
  {
    if k == 0 then 0 else FieldBelow(p, t, k - 1); FieldSlots(p, t, k - 1) + AbiSlots(p, Fields(p, t)[k - 1])
  }

  /** The slot where element `i` starts. */
  function SlotStart(i: nat, slots: nat): nat { i * slots }

  function SlotStarts(len: nat, slots: nat): (starts: seq<nat>)
    ensures |starts| == len && forall i :: 0 <= i < len ==> starts[i] == SlotStart(i, slots)
  {
    seq(len, i requires 0 <= i => SlotStart(i, slots))
  }

  // ---- The slot count is the number of words -------------------------------------------------------

  lemma LeafSlots(p: Pool, t: Type, bits: nat)
    requires WellFormed(p) && ValidType(p, t) && IsLeaf(t) && ValidLeaf(t, bits)
    ensures AbiSlots(p, t) == (LeafLayout(t).size + 7) / 8
  {}

  lemma SlotsStep(k: nat, slots: nat)
    requires k > 0
    ensures SlotStart(k - 1, slots) + slots == SlotStart(k, slots)
    ensures SlotStart(0, slots) == 0 && SlotStart(k, slots) == slots * k
  {}

  /** Any value of a type is passed in as many words as the type has slots. */
  lemma {:induction false} WordCount(p: Pool, t: Type, v: Value)
    requires WellFormed(p) && ValidType(p, t) && HasType(p, t, v)
    ensures |Words(p, t, v)| == AbiSlots(p, t)
    decreases Rank(p, t), 1
  {
    if IsLeaf(t) {
      LeafSlots(p, t, v.bits);
    } else if t.Struct? {
      FieldWordCount(p, t, v.elems, |v.elems|);
    } else if t.Array? {
      ElementBelow(p, t);
      ElementWordCount(p, t, v.elems, |v.elems|);
      if v.elems != [] {
        SlotsStep(|v.elems|, AbiSlots(p, ElementType(p, t.id)));
      }
    }
  }

  lemma {:induction false} FieldWordCount(p: Pool, t: Type, vs: seq<Value>, k: nat)
    requires HasParts(p, t, 0) && t.Struct? && PartsTyped(p, t, 0, vs) && k <= |vs|
    ensures |Flatten(PartWords(p, t, vs), k)| == FieldSlots(p, t, k)
    decreases Rank(p, t), 0, k
  {
    if k > 0 {
      FieldBelow(p, t, k - 1);
      FieldWordCount(p, t, vs, k - 1);
      WordCount(p, PartType(p, t, 0, k - 1), vs[k - 1]);
    }
  }

  lemma {:induction false} ElementWordCount(p: Pool, t: Type, vs: seq<Value>, k: nat)
    requires HasParts(p, t, 0) && t.Array? && PartsTyped(p, t, 0, vs) && k <= |vs|
    ensures InternedToType(p, p[t.id].element).Some?
    ensures |Flatten(PartWords(p, t, vs), k)| == SlotStart(k, AbiSlots(p, ElementType(p, t.id)))
    decreases Rank(p, t), 0, k
  {
    ElementBelow(p, t);
    if k > 0 {
      ElementWordCount(p, t, vs, k - 1);
      WordCount(p, PartType(p, t, 0, k - 1), vs[k - 1]);
      SlotsStep(k, AbiSlots(p, ElementType(p, t.id)));
    }
  }

  // ---- Arrays ----------------------------------------------------------------------------------------

  /** Where each element's words start in the words of the array. */
  ghost function WordStarts(p: Pool, t: Type, v: Value): (starts: seq<nat>)
    requires WellFormed(p) && ValidType(p, t) && t.Array? && HasType(p, t, v)
    ensures |starts| == |v.elems|
  {
    seq(|v.elems|, i requires 0 <= i < |v.elems| => |Flatten(PartWords(p, t, v.elems), i)|)
  }

  /** Stepping by the element's slot count gives exactly these places. */
  lemma WordStartsAreSlots(p: Pool, t: Type, v: Value)
    requires WellFormed(p) && ValidType(p, t) && t.Array? && HasType(p, t, v)
    ensures InternedToType(p, p[t.id].element).Some?
    ensures WordStarts(p, t, v) == SlotStarts(p[t.id].len, AbiSlots(p, ElementType(p, t.id)))
  {
    ElementBelow(p, t);
    forall i | 0 <= i < |v.elems|
      ensures WordStarts(p, t, v)[i] == SlotStart(i, AbiSlots(p, ElementType(p, t.id)))
    {
      ElementWordCount(p, t, v.elems, i);
    }
  }

  lemma {:induction false} FlattenAt<T>(ss: seq<seq<T>>, k: nat, j: nat)
    requires j < k <= |ss|
    ensures |Flatten(ss, j)| + |ss[j]| <= |Flatten(ss, k)|
    ensures Flatten(ss, k)[|Flatten(ss, j)|..][..|ss[j]|] == ss[j]
  {
    if j < k - 1 {
      FlattenAt(ss, k - 1, j);
      var a, n := Flatten(ss, k - 1), |Flatten(ss, j)|;
      assert (a + ss[k - 1])[n..][..|ss[j]|] == a[n..][..|ss[j]|];
    }
  }

  /** The words of element `i`, and no others, are those from slot `i` times the element's count on. */
  lemma ElementWords(p: Pool, t: Type, v: Value, i: nat)
    requires WellFormed(p) && ValidType(p, t) && t.Array? && HasType(p, t, v) && i < |v.elems|
    ensures InternedToType(p, p[t.id].element).Some? && HasType(p, ElementType(p, t.id), v.elems[i])
    ensures var e := ElementType(p, t.id);
      var slots, words := AbiSlots(p, e), Words(p, t, v);
      SlotStart(i, slots) + slots <= |words| && words[SlotStart(i, slots)..][..slots] == Words(p, e, v.elems[i])
  {
    ElementBelow(p, t);
    assert PartType(p, t, 0, i) == ElementType(p, t.id);
    ElementWordCount(p, t, v.elems, i);
    WordCount(p, ElementType(p, t.id), v.elems[i]);
    FlattenAt(PartWords(p, t, v.elems), |v.elems|, i);
  }

  // ---- The words determine the value -------------------------------------------------------------------

  lemma {:induction false} ChunksInjective(a: seq<byte>, b: seq<byte>)
    requires |a| == |b| && Chunks(a) == Chunks(b)
    ensures a == b
    decreases |a|
  {
    if 0 < |a| <= 8 {
      assert Chunks(a)[0] == Chunks(b)[0];
    } else if |a| > 8 {
      assert Chunks(a)[0] == Chunks(b)[0] && Chunks(a)[1..] == Chunks(b)[1..];
      ChunksInjective(a[8..], b[8..]);
      assert a == a[..8] + a[8..] && b == b[..8] + b[8..];
    }
  }

  lemma {:induction false} FlattenInjective<T>(ss: seq<seq<T>>, ts: seq<seq<T>>, k: nat)
    requires k <= |ss| == |ts| && forall j :: 0 <= j < k ==> |ss[j]| == |ts[j]|
    requires Flatten(ss, k) == Flatten(ts, k)
    ensures forall j :: 0 <= j < k ==> ss[j] == ts[j]
  {
    if k > 0 {
      SameLength(ss, ts, k - 1);
      var n := |Flatten(ss, k - 1)|;
      assert Flatten(ss, k)[..n] == Flatten(ss, k - 1) && Flatten(ts, k)[..n] == Flatten(ts, k - 1);
      assert Flatten(ss, k)[n..] == ss[k - 1] && Flatten(ts, k)[n..] == ts[k - 1];
      FlattenInjective(ss, ts, k - 1);
    }
  }

  lemma {:induction false} SameLength<T>(ss: seq<seq<T>>, ts: seq<seq<T>>, k: nat)
    requires k <= |ss| == |ts| && forall j :: 0 <= j < k ==> |ss[j]| == |ts[j]|
    ensures |Flatten(ss, k)| == |Flatten(ts, k)|
  {
    if k > 0 {
      SameLength(ss, ts, k - 1);
    }
  }

  /** Two values of one type that are passed in the same words are equal. */
  lemma {:induction false} WordsInjective(p: Pool, t: Type, v: Value, x: Value)
    requires WellFormed(p) && ValidType(p, t) && HasType(p, t, v) && HasType(p, t, x)
    requires Words(p, t, v) == Words(p, t, x)
    ensures v == x
    decreases Rank(p, t), 1
  {
    if IsLeaf(t) {
      var size := LeafLayout(t).size;
      LeafBits(t, v.bits);
      LeafBits(t, x.bits);
      ChunksInjective(ToLE(v.bits, size), ToLE(x.bits, size));
      ToLEInjective(v.bits, x.bits, size);
    } else if t.Struct? || t.Array? {
      PartWordsInjective(p, t, v.elems, x.elems);
    }
  }

  lemma LeafBits(t: Type, bits: nat)
    requires IsLeaf(t) && ValidLeaf(t, bits)
    ensures bits < Pow256(LeafLayout(t).size)
  {}

  lemma {:induction false} PartWordsInjective(p: Pool, t: Type, vs: seq<Value>, xs: seq<Value>)
    requires HasParts(p, t, 0) && !t.Enum? && PartsTyped(p, t, 0, vs) && PartsTyped(p, t, 0, xs)
    requires Flatten(PartWords(p, t, vs), |vs|) == Flatten(PartWords(p, t, xs), |xs|)
    ensures vs == xs
    decreases Rank(p, t), 0
  {
    var ss, ts := PartWords(p, t, vs), PartWords(p, t, xs);
    forall j | 0 <= j < |vs| ensures |ss[j]| == |ts[j]| {
      WordCount(p, PartType(p, t, 0, j), vs[j]);
      WordCount(p, PartType(p, t, 0, j), xs[j]);
    }
    FlattenInjective(ss, ts, |vs|);
    forall j | 0 <= j < |vs| ensures vs[j] == xs[j] {
      assert ss[j] == ts[j];
      WordsInjective(p, PartType(p, t, 0, j), vs[j], xs[j]);
    }
  }
}
