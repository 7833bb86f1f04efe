/** Literals collected per function and merged into one table: after any number of merges, in any
    iteration order, every function's remapped ids still mean the literals they meant. */
module Merge {
  import opened Bytes
  import opened A = Air

  type Blob = seq<byte>

  /** `table` finds every string of `strings` at its index, and nothing else; so there are no duplicates. */
  predicate Indexed(strings: seq<string>, table: map<string, nat>) {
    (forall i :: 0 <= i < |strings| ==> strings[i] in table && table[strings[i]] == i) &&
    (forall c :: c in table ==> table[c] < |strings| && strings[table[c]] == c)
  }

  lemma IndexedHasNoDuplicates(strings: seq<string>, table: map<string, nat>, i: nat, j: nat)
    requires Indexed(strings, table) && i < |strings| && j < |strings| && strings[i] == strings[j]
    ensures i == j
  {
    assert table[strings[i]] == i && table[strings[j]] == j;
  }

  class FunctionAnalysisState {
    var stringTable: map<string, nat>
    var strings: seq<string>
    var bytes: seq<Blob>
    var warnings: seq<string>

    ghost predicate Valid()
      reads this
    {
      Indexed(strings, stringTable)
    }

    constructor ()
      ensures Valid() && strings == [] && bytes == [] && warnings == []
    {
      stringTable, strings, bytes, warnings := map[], [], [], [];
    }

    method AddString(content: string) returns (id: nat)
      requires Valid()
      modifies this`stringTable, this`strings
      ensures Valid() && id < |strings| && strings[id] == content
      ensures strings == if content in old(strings) then old(strings) else old(strings) + [content]
    {
      if content in stringTable {
        return stringTable[content];
      }
      id := |strings|;
      strings := strings + [content];
      stringTable := stringTable[content := id];
    }
  }

  datatype Remapping = Remapping(stringRemap: map<nat, nat>, bytesRemap: map<nat, nat>)

  function RemapString(r: Remapping, id: nat): nat {
    Mapped(r.stringRemap, id)
  }

  function RemapBytes(r: Remapping, id: nat): nat {
    Mapped(r.bytesRemap, id)
  }

  /** The remapped ids of a function mean in the merged tables what its own ids mean in its own. */
  ghost predicate Resolves(strings: seq<string>, bytes: seq<Blob>, r: Remapping, merged: seq<string>,
                           blobs: seq<Blob>) {
    (forall i {:trigger RemapString(r, i)} :: 0 <= i < |strings| ==>
      RemapString(r, i) < |merged| && merged[RemapString(r, i)] == strings[i]) &&
    (forall i {:trigger RemapBytes(r, i)} :: 0 <= i < |bytes| ==>
      RemapBytes(r, i) < |blobs| && blobs[RemapBytes(r, i)] == bytes[i])
  }

  /** Growing the tables keeps all ids valid. */
  lemma ResolvesGrow(strings: seq<string>, bytes: seq<Blob>, r: Remapping, merged: seq<string>, blobs: seq<Blob>,
                     merged': seq<string>, blobs': seq<Blob>)
    requires Resolves(strings, bytes, r, merged, blobs) && merged <= merged' && blobs <= blobs'
    ensures Resolves(strings, bytes, r, merged', blobs')
  {}

  class MergedAnalysisState {
    var strings: seq<string>
    var stringMap: map<string, nat>
    var bytes: seq<Blob>
    var warnings: seq<string>

    ghost predicate Valid()
      reads this
    {
      Indexed(strings, stringMap)
    }

    constructor ()
      ensures Valid() && strings == [] && bytes == [] && warnings == []
    {
      strings, stringMap, bytes, warnings := [], map[], [], [];
    }

    method MergeString(content: string) returns (id: nat)
      requires Valid()
      modifies this`strings, this`stringMap
      ensures Valid() && id < |strings| && strings[id] == content
      ensures strings == if content in old(strings) then old(strings) else old(strings) + [content]
    {
      if content in stringMap {
        return stringMap[content];
      }
      id := |strings|;
      strings := strings + [content];
      stringMap := stringMap[content := id];
    }

    /** Strings in the arbitrary order of the function's table, then byte blobs by offset. */
    method MergeFunctionState(state: FunctionAnalysisState) returns (r: Remapping)
      requires Valid() && state.Valid()
      modifies this
      ensures Valid() && old(strings) <= strings && old(bytes) <= bytes
      ensures Resolves(state.strings, state.bytes, r, strings, bytes)
      ensures forall c :: c in strings <==> c in old(strings) || c in state.strings
      ensures bytes == old(bytes) + state.bytes && warnings == old(warnings) + state.warnings
    {
      var stringRemap := MergeStrings(state);
      var bytesRemap := MergeBytes(state);
      warnings := warnings + state.warnings;
      r := Remapping(stringRemap, bytesRemap);
      forall i | 0 <= i < |state.bytes| ensures RemapBytes(r, i) == |old(bytes)| + i {
        assert Mapped(bytesRemap, i) == |old(bytes)| + i;
      }
    }

    method MergeStrings(state: FunctionAnalysisState) returns (remap: map<nat, nat>)
      requires Valid() && state.Valid()
      modifies this`strings, this`stringMap
      ensures Valid() && old(strings) <= strings
      ensures forall c :: c in strings <==> c in old(strings) || c in state.strings
      ensures StringsMapped(state.strings, state.stringTable, {}, remap, strings)
    {
      remap := map[];
      var todo := state.stringTable.Keys;
      while todo != {}
        invariant Valid() && old(strings) <= strings && todo <= state.stringTable.Keys
        invariant forall c :: c in strings <==> c in old(strings) || (c in state.stringTable && c !in todo)
        invariant StringsMapped(state.strings, state.stringTable, todo, remap, strings)
      {
        var content :| content in todo;
        var oldId := state.stringTable[content];
        ghost var before := strings;
        var newId := MergeString(content);
        MapOne(state.strings, state.stringTable, todo, remap, before, strings, content, newId);
        if oldId != newId {
          remap := remap[oldId := newId];
        }
        todo := todo - {content};
      }
      assert forall c :: c in state.strings ==> c in state.stringTable;
      assert forall c :: c in state.stringTable ==> state.strings[state.stringTable[c]] == c;
    }

    method MergeBytes(state: FunctionAnalysisState) returns (remap: map<nat, nat>)
      modifies this`bytes
      ensures bytes == old(bytes) + state.bytes
      ensures Shifted(remap, |old(bytes)|, |state.bytes|)
    {
      remap := map[];
      var offset := |bytes|;
      for localId := 0 to |state.bytes|
        invariant bytes == old(bytes) + state.bytes[..localId]
        invariant Shifted(remap, offset, localId)
      {
        var newId := offset + localId;
        ShiftOne(remap, offset, localId);
        bytes := bytes + [state.bytes[localId]];
        if localId != newId {
          remap := remap[localId := newId];
        }
      }
    }
  }

  function Mapped(remap: map<nat, nat>, id: nat): nat { if id in remap then remap[id] else id }

  /** The first `n` ids move up by `offset`. */
  ghost predicate Shifted(remap: map<nat, nat>, offset: nat, n: nat) {
    (forall i :: i in remap ==> i < n) &&
    (forall i {:trigger Mapped(remap, i)} :: 0 <= i < n ==> Mapped(remap, i) == offset + i)
  }

  lemma ShiftOne(remap: map<nat, nat>, offset: nat, n: nat)
    requires Shifted(remap, offset, n)
    ensures Shifted(if offset != 0 then remap[n := offset + n] else remap, offset, n + 1)
  {
    var remap' := if offset != 0 then remap[n := offset + n] else remap;
    forall i | 0 <= i < n + 1 ensures Mapped(remap', i) == offset + i {
      assert i < n ==> Mapped(remap, i) == offset + i;
    }
  }

  /** The strings not in `todo` are mapped to where they are in `merged`; the others are not mapped yet. */
  ghost predicate StringsMapped(strings: seq<string>, table: map<string, nat>, todo: set<string>, remap: map<nat,
                                nat>, merged: seq<string>)
    requires Indexed(strings, table)
  {
    forall i :: 0 <= i < |strings| ==>
      if strings[i] in todo then i !in remap else Mapped(remap, i) < |merged| && merged[Mapped(remap, i)] == strings[i]
  }

  lemma MapOne(strings: seq<string>, table: map<string, nat>, todo: set<string>, remap: map<nat, nat>,
               merged: seq<string>, merged': seq<string>, content: string, newId: nat)
    requires Indexed(strings, table) && StringsMapped(strings, table, todo, remap, merged)
    requires content in todo && content in table && merged <= merged' && newId < |merged'| && merged'[newId] == content
    ensures var remap' := if table[content] != newId then remap[table[content] := newId] else remap;
      StringsMapped(strings, table, todo - {content}, remap', merged')
  {
    var k := table[content];
    forall i | 0 <= i < |strings| && i != k ensures strings[i] != content { assert table[strings[i]] == i; }
  }

  // ---- Whole runs ----------------------------------------------------------------------------------------

  ghost predicate AllValid(states: seq<FunctionAnalysisState>)
    reads states
  {
    forall f :: 0 <= f < |states| ==> states[f].Valid()
  }

  /** The first `n` functions' ids resolve in the merged tables. */
  ghost predicate ResolveAll(states: seq<FunctionAnalysisState>, n: nat, rs: seq<Remapping>, merged: seq<string>,
                             blobs: seq<Blob>)
    reads states
  {
    |rs| == n <= |states| &&
    forall f :: 0 <= f < n ==> Resolves(states[f].strings, states[f].bytes, rs[f], merged, blobs)
  }

  /** Merging any list of functions, one after another. */
  method MergeAll(states: seq<FunctionAnalysisState>) returns (merged: MergedAnalysisState, rs: seq<Remapping>)
    requires AllValid(states)
    ensures merged.Valid() && ResolveAll(states, |states|, rs, merged.strings, merged.bytes)
    ensures forall c :: c in merged.strings <==> exists f :: 0 <= f < |states| && c in states[f].strings
  {
    merged := new MergedAnalysisState();
    rs := [];
    for n := 0 to |states|
      invariant fresh(merged) && merged.Valid() && ResolveAll(states, n, rs, merged.strings, merged.bytes)
      invariant forall c :: c in merged.strings <==> exists f :: 0 <= f < n && c in states[f].strings
    {
      ghost var strings, bytes := merged.strings, merged.bytes;
      var r := merged.MergeFunctionState(states[n]);
      forall f | 0 <= f < n ensures Resolves(states[f].strings, states[f].bytes, rs[f], merged.strings, merged.bytes) {
        ResolvesGrow(states[f].strings, states[f].bytes, rs[f], strings, bytes, merged.strings, merged.bytes);
      }
      rs := rs + [r];
    }
  }

  // ---- Remapping a body ----------------------------------------------------------------------------------

  function RemapData(data: InstData, r: Remapping): InstData {
    match data
    case StringConst(id) => StringConst(RemapString(r, id))
    case BytesConst(id) => BytesConst(RemapBytes(r, id))
    case _ => data
  }

  datatype Literal = Text(text: string) | Binary(blob: Blob)

  /** What a literal instruction stands for; `None` if it is no literal or has no entry. */
  function LiteralOf(data: InstData, strings: seq<string>, bytes: seq<Blob>): Option<Literal> {
    match data
    case StringConst(id) => if id < |strings| then Some(Text(strings[id])) else None
    case BytesConst(id) => if id < |bytes| then Some(Binary(bytes[id])) else None
    case _ => None
  }

  /** A literal instruction keeps its meaning, and every other instruction stays as it is. */
  lemma LiteralKept(data: InstData, strings: seq<string>, bytes: seq<Blob>, r: Remapping, merged: seq<string>,
                    blobs: seq<Blob>)
    requires Resolves(strings, bytes, r, merged, blobs)
    ensures LiteralOf(data, strings, bytes).Some? ==>
      LiteralOf(RemapData(data, r), merged, blobs) == LiteralOf(data, strings, bytes)
    ensures !data.StringConst? && !data.BytesConst? ==> RemapData(data, r) == data
  {}

  method RemapStringIds(air: A.Air, r: Remapping)
    modifies air`insts
    ensures |air.insts| == |old(air.insts)|
    ensures forall i :: 0 <= i < |air.insts| ==>
      air.insts[i] ==
        if old(air.insts)[i].data.StringConst? then Inst(RemapData(old(air.insts)[i].data, r),
          old(air.insts)[i].ty) else old(air.insts)[i]
  {
    for i := 0 to |air.insts|
      invariant |air.insts| == |old(air.insts)|
      invariant forall j :: i <= j < |air.insts| ==> air.insts[j] == old(air.insts)[j]
      invariant forall j :: 0 <= j < i ==>
        air.insts[j] ==
          if old(air.insts)[j].data.StringConst? then Inst(RemapData(old(air.insts)[j].data, r),
            old(air.insts)[j].ty) else old(air.insts)[j]
    {
      var data := air.insts[i].data;
      if data.StringConst? {
        air.RewriteInstData(i, StringConst(RemapString(r, data.id)));
      }
    }
  }

  method RemapBytesIds(air: A.Air, r: Remapping)
    modifies air`insts
    ensures |air.insts| == |old(air.insts)|
    ensures forall i :: 0 <= i < |air.insts| ==>
      air.insts[i] ==
        if old(air.insts)[i].data.BytesConst? then Inst(RemapData(old(air.insts)[i].data, r),
          old(air.insts)[i].ty) else old(air.insts)[i]
  {
    for i := 0 to |air.insts|
      invariant |air.insts| == |old(air.insts)|
      invariant forall j :: i <= j < |air.insts| ==> air.insts[j] == old(air.insts)[j]
      invariant forall j :: 0 <= j < i ==>
        air.insts[j] ==
          if old(air.insts)[j].data.BytesConst? then Inst(RemapData(old(air.insts)[j].data, r),
            old(air.insts)[j].ty) else old(air.insts)[j]
    {
      var data := air.insts[i].data;
      if data.BytesConst? {
        air.RewriteInstData(i, BytesConst(RemapBytes(r, data.id)));
      }
    }
  }

  /** After both walks every literal of the body means in the merged tables what it meant in the
      function's own, and nothing else has changed. */
  method RemapLiterals(air: A.Air, r: Remapping, ghost strings: seq<string>, ghost bytes: seq<Blob>,
                       ghost merged: seq<string>, ghost blobs: seq<Blob>)
    requires Resolves(strings, bytes, r, merged, blobs)
    modifies air`insts
    ensures |air.insts| == |old(air.insts)|
    ensures forall i :: 0 <= i < |air.insts| ==>
      air.insts[i] == Inst(RemapData(old(air.insts)[i].data, r), old(air.insts)[i].ty) &&
      (LiteralOf(old(air.insts)[i].data, strings, bytes).Some? ==>
        LiteralOf(air.insts[i].data, merged, blobs) == LiteralOf(old(air.insts)[i].data, strings, bytes))
  {
    RemapStringIds(air, r);
    RemapBytesIds(air, r);
    forall i | 0 <= i < |air.insts| && LiteralOf(old(air.insts)[i].data, strings, bytes).Some?
      ensures LiteralOf(RemapData(old(air.insts)[i].data, r), merged, blobs) ==
        LiteralOf(old(air.insts)[i].data, strings, bytes)
    {
      LiteralKept(old(air.insts)[i].data, strings, bytes, r, merged, blobs);
    }
  }
}
