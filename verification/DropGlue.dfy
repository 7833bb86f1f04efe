/** Synthesized drop functions as values: the instructions and words that each builder emits. */
module DropGlue {
  import opened Bytes
  import opened Types
  import opened Layout
  import opened Storage
  import opened DropNames
  import opened DropTrace
  import opened Abi
  import opened Air
  import P = Patterns

  const UNIT_TYPE: Type := Prim(Unit)

  /** The source's `as u32` on references and ids. */
  function Word(n: nat): P.u32 { n % 0x1_0000_0000 }

  function WordsOf(refs: seq<AirRef>): (ws: seq<P.u32>)
    ensures |ws| == |refs|
  {
    seq(|refs|, k requires 0 <= k < |refs| => Word(refs[k]))
  }

  // ---- Pieces of a body -------------------------------------------------------------------------

  /** Code so far and the statements to run, in order. */
  datatype Draft = Draft(code: Body, stmts: seq<AirRef>)

  function Add(b: Body, data: InstData, ty: Type): Body { b.(insts := b.insts + [Inst(data, ty)]) }

  function AddWords(b: Body, ws: seq<P.u32>): Body { b.(extra := b.extra + ws) }

  function StartWith(t: Type): Draft {
    Draft(Body([Inst(Param(0), t)], [], map[], [0]), [])
  }

  /** Call the user destructor on the parameter. */
  function CallDestructor(d: Draft, destructor: Option<Name>): Draft {
    match destructor
    case None => d
    case Some(name) =>
      var code := AddWords(d.code, [0, 0]);
      Draft(Add(code, Call(name, |d.code.extra|, 1), UNIT_TYPE), d.stmts + [|d.code.insts|])
  }

  /** Fetch a part and drop it. */
  function DropPart(d: Draft, fetch: InstData, ty: Type): Draft {
    var r := |d.code.insts|;
    Draft(Add(Add(d.code, fetch, ty), Drop(r), UNIT_TYPE), d.stmts + [r + 1])
  }

  /** A unit constant, wrapped in a block of the statements if there are any: code and value. */
  function UnitBlock(d: Draft): (Body, AirRef) {
    var unit := |d.code.insts|;
    var code := Add(d.code, UnitConst, UNIT_TYPE);
    if d.stmts == [] then (code, unit)
    else
      (Add(AddWords(code, WordsOf(d.stmts)), Block(|code.extra|, |d.stmts|, unit), UNIT_TYPE), unit + 1)
  }

  function Seal(b: Body, result: AirRef): Body { Add(b, Ret(Some(result)), UNIT_TYPE) }

  // ---- Struct glue ------------------------------------------------------------------------------

  function StructDraft(p: Pool, t: Type, k: nat): Draft
    requires WellFormed(p) && t.Struct? && ValidType(p, t) && k <= |Fields(p, t)|
  {
    if k == 0 then CallDestructor(StartWith(t), p[t.id].structDef.destructor)
    else
      FieldBelow(p, t, k - 1);
      var d, f := StructDraft(p, t, k - 1), Fields(p, t)[k - 1];
      if NeedsDrop(p, f) then DropPart(d, FieldGet(0, t.id, k - 1), f) else d
  }

  function StructGlue(p: Pool, t: Type): Body
    requires WellFormed(p) && t.Struct? && ValidType(p, t)
  {
    var (b, r) := UnitBlock(StructDraft(p, t, |Fields(p, t)|));
    Seal(b, r)
  }

  // ---- Array glue -------------------------------------------------------------------------------

  function ArrayDraft(p: Pool, e: Type, len: nat, k: nat): Draft
    requires WellFormed(p) && ValidType(p, e)
  {
    if k == 0 then Draft(Body([], [], map[], SlotStarts(len, AbiSlots(p, e))), [])
    else
      var d := ArrayDraft(p, e, len, k - 1);
      if e.Struct? || e.Array? then DropPart(d, Param(SlotStart(k - 1, AbiSlots(p, e))), e) else d
  }

  function ArrayGlue(p: Pool, t: Type): Body
    requires WellFormed(p) && t.Array? && ValidType(p, t)
  {
    ElementBelow(p, t);
    var (b, r) := UnitBlock(ArrayDraft(p, ElementType(p, t.id), p[t.id].len, p[t.id].len));
    Seal(b, r)
  }

  // ---- Enum glue --------------------------------------------------------------------------------

  /** The drops of one variant's first `k` fields. */
  function VariantDraft(p: Pool, t: Type, code: Body, i: nat, k: nat): Draft
    requires WellFormed(p) && t.Enum? && ValidType(p, t) && i < |Variants(p, t)| && k <= |Variants(p, t)[i]|
    decreases k
  {
    if k == 0 then Draft(code, [])
    else
      VariantFieldBelow(p, t, i, k - 1);
      var d, f := VariantDraft(p, t, code, i, k - 1), Variants(p, t)[i][k - 1];
      if NeedsDrop(p, f) then DropPart(d, EnumPayloadGet(0, i, k - 1), f) else d
  }

  /** Code and arms of the first `n` variants. */
  function ArmsDraft(p: Pool, t: Type, n: nat): (Body, seq<P.Arm>)
    requires WellFormed(p) && t.Enum? && ValidType(p, t) && n <= |Variants(p, t)|
  {
    if n == 0 then (CallDestructor(StartWith(t), p[t.id].enumDef.destructor).code, [])
    else
      var (code, arms) := ArmsDraft(p, t, n - 1);
      var (b, body) := UnitBlock(VariantDraft(p, t, code, n - 1, |Variants(p, t)[n - 1]|));
      (b, arms + [P.Arm(P.EnumVariant(Word(t.id), Word(n - 1)), Word(body))])
  }

  /** The match on the parameter. */
  function MatchDraft(p: Pool, t: Type): Body
    requires WellFormed(p) && t.Enum? && ValidType(p, t)
  {
    var (b, arms) := ArmsDraft(p, t, |Variants(p, t)|);
    Add(AddWords(b, P.EncodeArms(arms)), Match(0, |b.extra|, |arms|), UNIT_TYPE)
  }

  function EnumGlue(p: Pool, t: Type): Body
    requires WellFormed(p) && t.Enum? && ValidType(p, t)
  {
    var b := MatchDraft(p, t);
    var m := |b.insts| - 1;
    if p[t.id].enumDef.destructor.None? then Seal(b, m)
    else
      var (b', r) := UnitBlock(Draft(b, [1, m]));
      Seal(b', r)
  }

  function Glue(p: Pool, t: Type): Body
    requires WellFormed(p) && ValidType(p, t) && !IsLeaf(t)
  {
    if t.Struct? then StructGlue(p, t) else if t.Array? then ArrayGlue(p, t) else EnumGlue(p, t)
  }
}
