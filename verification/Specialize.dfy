/** Generic specialization: collecting the keys of generic calls, rewriting the calls in place,
    synthesizing the missing bodies until nothing is missing. */
module Specialize {
  import opened Bytes
  import opened Types
  import opened Storage
  import opened Mangling
  import opened A = Air

  // ---- Keys and rewriting ------------------------------------------------------------------------

  predicate IsGeneric(b: Body, i: AirRef) { i < |b.insts| && b.insts[i].data.CallGeneric? }

  /** The type arguments of every generic call can be read; the source panics otherwise. */
  predicate Readable(b: Body) {
    forall i :: 0 <= i < |b.insts| && IsGeneric(b, i) ==> KeyAt(b, i).Some?
  }

  /** `b` asks for specialization `k`. */
  ghost predicate AsksFor(b: Body, k: Key) {
    exists i :: 0 <= i < |b.insts| && IsGeneric(b, i) && KeyAt(b, i) == Some(k)
  }

  function RewriteAt(b: Body, i: AirRef, names: map<Key, Name>): Inst
    requires i < |b.insts|
  {
    var inst := b.insts[i];
    if IsGeneric(b, i) && KeyAt(b, i).Some? && KeyAt(b, i).value in names
    then Inst(Call(names[KeyAt(b, i).value], inst.data.argsStart, inst.data.argsLen), inst.ty)
    else inst
  }

  /** Every generic call with a known key becomes a call by name. */
  function Rewrite(b: Body, names: map<Key, Name>): (c: Body)
    ensures |c.insts| == |b.insts|
    ensures forall i :: 0 <= i < |b.insts| ==> c.insts[i] == RewriteAt(b, i, names)
  {
    b.(insts := seq(|b.insts|, i requires 0 <= i < |b.insts| => RewriteAt(b, i, names)))
  }

  predicate NoGenericCalls(b: Body) {
    forall i :: 0 <= i < |b.insts| ==> !b.insts[i].data.CallGeneric?
  }

  ghost predicate Agrees(m: map<Key, Name>, m': map<Key, Name>) {
    forall k :: k in m ==> k in m' && m'[k] == m[k]
  }

  /** An instruction that survives a rewrite has the key it had. */
  lemma KeySurvives(b: Body, names: map<Key, Name>, i: AirRef)
    requires i < |b.insts| && IsGeneric(Rewrite(b, names), i)
    ensures IsGeneric(b, i) && KeyAt(Rewrite(b, names), i) == KeyAt(b, i)
  {}

  lemma RewriteTwice(b: Body, m: map<Key, Name>, m': map<Key, Name>)
    requires Agrees(m, m')
    ensures Rewrite(Rewrite(b, m), m') == Rewrite(b, m')
  {
    var c := Rewrite(b, m);
    forall i | 0 <= i < |b.insts| ensures RewriteAt(c, i, m') == RewriteAt(b, i, m') {
      assert c.insts[i] == RewriteAt(b, i, m);
      if IsGeneric(c, i) {
        KeySurvives(b, m, i);
      }
    }
    assert Rewrite(c, m').insts == Rewrite(b, m').insts;
  }

  lemma RewriteWithNone(b: Body)
    ensures Rewrite(b, map[]) == b
  {
    assert Rewrite(b, map[]).insts == b.insts;
  }

  /** Rewriting with a name for every key leaves no generic call. */
  lemma RewriteClears(b: Body, names: map<Key, Name>)
    requires Readable(b) && forall k :: AsksFor(b, k) ==> k in names
    ensures NoGenericCalls(Rewrite(b, names))
  {
    forall i | 0 <= i < |b.insts| ensures !Rewrite(b, names).insts[i].data.CallGeneric? {
      if IsGeneric(b, i) {
        assert AsksFor(b, KeyAt(b, i).value);
      }
    }
  }

  // ---- Collecting and rewriting one body -----------------------------------------------------------

  ghost predicate CollectedUpTo(b: Body, n: nat, seen: set<Key>, more: set<Key>) {
    n <= |b.insts| && forall k :: k in more <==> k in seen || AsksBelow(b, n, k)
  }

  ghost predicate AsksBelow(b: Body, n: nat, k: Key)
    requires n <= |b.insts|
  {
    exists i :: 0 <= i < n && IsGeneric(b, i) && KeyAt(b, i) == Some(k)
  }

  lemma CollectOne(b: Body, n: nat, seen: set<Key>, more: set<Key>)
    requires CollectedUpTo(b, n, seen, more) && n < |b.insts| && Readable(b)
    ensures CollectedUpTo(b, n + 1, seen, if IsGeneric(b, n) then more + {KeyAt(b, n).value} else more)
  {
    var more' := if IsGeneric(b, n) then more + {KeyAt(b, n).value} else more;
    forall k | k in more' ensures k in seen || AsksBelow(b, n + 1, k) {
      if k in more && k !in seen {
        var i :| 0 <= i < n && IsGeneric(b, i) && KeyAt(b, i) == Some(k);
        assert AsksBelow(b, n + 1, k);
      }
    }
  }

  method CollectSpecializations(b: Body, seen: map<Key, Name>) returns (more: map<Key, Name>)
    requires Readable(b) && forall k :: k in seen ==> seen[k] == Mangle(k)
    ensures forall k :: k in more <==> k in seen || AsksFor(b, k)
    ensures forall k :: k in more ==> more[k] == Mangle(k)
  {
    more := seen;
    for i := 0 to |b.insts|
      invariant forall k :: k in more ==> more[k] == Mangle(k)
      invariant CollectedUpTo(b, i, seen.Keys, more.Keys)
    {
      CollectOne(b, i, seen.Keys, more.Keys);
      if b.insts[i].data.CallGeneric? {
        assert IsGeneric(b, i);
        var key := KeyAt(b, i).value;
        if key !in more {
          var mangled := MangleSpecializedName(key.base, key.typeArgs, key.valueArgs);
          ghost var before := more.Keys;
          more := more[key := mangled];
          assert more.Keys == before + {key};
        } else {
          assert more.Keys == more.Keys + {key};
        }
      }
    }
  }

  ghost predicate Covers(rewrites: seq<(AirRef, InstData)>, i: AirRef) {
    exists j :: 0 <= j < |rewrites| && rewrites[j].0 == i
  }

  /** `rewrites` are the changes below `n`. */
  ghost predicate Listed(b: Body, names: map<Key, Name>, n: nat, rewrites: seq<(AirRef, InstData)>) {
    n <= |b.insts| &&
    (forall j :: 0 <= j < |rewrites| ==> IsRewrite(b, names, rewrites[j])) &&
    (forall i {:trigger Covers(rewrites, i)} :: 0 <= i < n && RewriteAt(b, i, names) != b.insts[i] ==>
      Covers(rewrites, i))
  }

  predicate IsRewrite(b: Body, names: map<Key, Name>, rewrite: (AirRef, InstData)) {
    rewrite.0 < |b.insts| && Inst(rewrite.1, b.insts[rewrite.0].ty) == RewriteAt(b, rewrite.0, names)
  }

  lemma ListMore(b: Body, names: map<Key, Name>, n: nat, rewrites: seq<(AirRef, InstData)>, data: InstData)
    requires Listed(b, names, n, rewrites) && n < |b.insts| && IsRewrite(b, names, (n, data))
    ensures Listed(b, names, n + 1, rewrites + [(n, data)])
  {
    var more := rewrites + [(n, data)];
    assert more[|rewrites|].0 == n;
    forall i | 0 <= i < n + 1 && RewriteAt(b, i, names) != b.insts[i] ensures Covers(more, i) {
      if i < n {
        assert Covers(rewrites, i);
        var j :| 0 <= j < |rewrites| && rewrites[j].0 == i;
        assert more[j].0 == i;
      }
    }
  }

  lemma ListSame(b: Body, names: map<Key, Name>, n: nat, rewrites: seq<(AirRef, InstData)>)
    requires Listed(b, names, n, rewrites) && n < |b.insts| && RewriteAt(b, n, names) == b.insts[n]
    ensures Listed(b, names, n + 1, rewrites)
  {}

  method ListRewrites(b: Body, names: map<Key, Name>) returns (rewrites: seq<(AirRef, InstData)>)
    requires Readable(b)
    ensures Listed(b, names, |b.insts|, rewrites)
  {
    rewrites := [];
    for i := 0 to |b.insts|
      invariant Listed(b, names, i, rewrites)
    {
      var data := b.insts[i].data;
      if data.CallGeneric? && KeyAt(b, i).value in names {
        var call := Call(names[KeyAt(b, i).value], data.argsStart, data.argsLen);
        ListMore(b, names, i, rewrites, call);
        rewrites := rewrites + [(i, call)];
      } else {
        ListSame(b, names, i, rewrites);
      }
    }
  }

  /** The first `n` rewrites are done. */
  ghost predicate Applied(b: Body, names: map<Key, Name>, rewrites: seq<(AirRef, InstData)>, n: nat, insts: seq<Inst>) {
    n <= |rewrites| && |insts| == |b.insts| &&
    (forall i :: 0 <= i < |b.insts| ==> insts[i].ty == b.insts[i].ty) &&
    (forall i :: 0 <= i < |b.insts| ==> insts[i] == b.insts[i] || insts[i] == RewriteAt(b, i, names)) &&
    (forall j :: 0 <= j < n ==> rewrites[j].0 < |b.insts| && insts[rewrites[j].0] == RewriteAt(b, rewrites[j].0, names))
  }

  lemma ApplyOne(b: Body, names: map<Key, Name>, rewrites: seq<(AirRef, InstData)>, n: nat, insts: seq<Inst>)
    requires Applied(b, names, rewrites, n, insts) && n < |rewrites| && IsRewrite(b, names, rewrites[n])
    ensures Applied(b, names, rewrites, n + 1, insts[rewrites[n].0 := Inst(rewrites[n].1, insts[rewrites[n].0].ty)])
  {}

  lemma AllApplied(b: Body, names: map<Key, Name>, rewrites: seq<(AirRef, InstData)>, insts: seq<Inst>)
    requires Listed(b, names, |b.insts|, rewrites) && Applied(b, names, rewrites, |rewrites|, insts)
    ensures insts == Rewrite(b, names).insts
  {
    forall i | 0 <= i < |insts| ensures insts[i] == RewriteAt(b, i, names) {
      if RewriteAt(b, i, names) != b.insts[i] {
        assert Covers(rewrites, i);
      }
    }
  }

  /** The rewrites are collected first and applied afterwards. */
  method RewriteCallGeneric(air: A.Air, names: map<Key, Name>)
    requires Readable(air.Code())
    modifies air
    ensures air.Code() == Rewrite(old(air.Code()), names)
  {
    var b := Body(air.insts, air.extra, air.valueArgs, []);
    var rewrites := ListRewrites(b, names);
    for n := 0 to |rewrites|
      invariant Applied(b, names, rewrites, n, air.insts) && air.Code() == b.(insts := air.insts)
    {
      assert IsRewrite(b, names, rewrites[n]);
      ApplyOne(b, names, rewrites, n, air.insts);
      air.RewriteInstData(rewrites[n].0, rewrites[n].1);
    }
    AllApplied(b, names, rewrites, air.insts);
  }

  // ---- The accumulator of rows -----------------------------------------------------------------------

  /** An analyzed function: its name, its code, and the slots of its parameters. */
  datatype Row = Row(name: Name, air: A.Air, paramSlots: seq<nat>)

  ghost function RowFunction(row: Row): Function
    reads row.air
  {
    Function(row.name, row.air.Code().(paramSlots := row.paramSlots))
  }

  ghost function Airs(rows: seq<Row>): set<A.Air> { set i | 0 <= i < |rows| :: rows[i].air }

  ghost function Functions(rows: seq<Row>): (fs: seq<Function>)
    reads Airs(rows)
    ensures |fs| == |rows| && forall i :: 0 <= i < |rows| ==> fs[i] == RowFunction(rows[i])
  {
    seq(|rows|, i requires 0 <= i < |rows| reads Airs(rows) => RowFunction(rows[i]))
  }

  /** No two rows share their code. */
  ghost predicate Separate(rows: seq<Row>) {
    forall i, j :: 0 <= i < j < |rows| ==> rows[i].air != rows[j].air
  }

  predicate AllReadable(fs: seq<Function>) {
    forall i :: 0 <= i < |fs| ==> Readable(fs[i].body)
  }

  ghost predicate AnyAsksFor(fs: seq<Function>, k: Key) {
    exists i :: 0 <= i < |fs| && AsksFor(fs[i].body, k)
  }

  predicate Mangled(names: map<Key, Name>) {
    forall k :: k in names ==> names[k] == Mangle(k)
  }

  lemma SlotsIrrelevant(b: Body, slots: seq<nat>, names: map<Key, Name>)
    ensures Rewrite(b.(paramSlots := slots), names) == Rewrite(b, names).(paramSlots := slots)
    ensures Readable(b.(paramSlots := slots)) <==> Readable(b)
  {
    var c := b.(paramSlots := slots);
    forall i | 0 <= i < |b.insts| ensures (IsGeneric(b, i) <==> IsGeneric(c, i)) &&
      RewriteAt(c, i, names) == RewriteAt(b, i, names) {}
    assert Rewrite(c, names).insts == Rewrite(b, names).insts;
  }

  lemma SlotsAskOneWay(b: Body, slots: seq<nat>, k: Key)
    requires AsksFor(b, k)
    ensures AsksFor(b.(paramSlots := slots), k)
  {
    var i :| 0 <= i < |b.insts| && IsGeneric(b, i) && KeyAt(b, i) == Some(k);
    assert IsGeneric(b.(paramSlots := slots), i);
  }

  lemma SlotsAsk(b: Body, slots: seq<nat>, k: Key)
    ensures AsksFor(b.(paramSlots := slots), k) <==> AsksFor(b, k)
  {
    var c := b.(paramSlots := slots);
    if AsksFor(b, k) {
      SlotsAskOneWay(b, slots, k);
    } else if AsksFor(c, k) {
      SlotsAskOneWay(c, b.paramSlots, k);
    }
  }

  method CollectRow(row: Row, seen: map<Key, Name>) returns (more: map<Key, Name>)
    requires Readable(RowFunction(row).body) && Mangled(seen)
    ensures Mangled(more) && forall k :: k in more <==> k in seen || AsksFor(RowFunction(row).body, k)
  {
    var b := Body(row.air.insts, row.air.extra, row.air.valueArgs, []);
    SlotsIrrelevant(b, row.paramSlots, map[]);
    more := CollectSpecializations(b, seen);
    forall k ensures AsksFor(RowFunction(row).body, k) <==> AsksFor(b, k) {
      SlotsAsk(b, row.paramSlots, k);
    }
  }

  /** `keys` are the keys that `fs` ask for. */
  ghost predicate CollectedFrom(fs: seq<Function>, keys: set<Key>) {
    forall k :: k in keys <==> AnyAsksFor(fs, k)
  }

  method CollectAll(rows: seq<Row>) returns (seen: map<Key, Name>)
    requires AllReadable(Functions(rows))
    ensures Mangled(seen) && CollectedFrom(Functions(rows), seen.Keys)
  {
    seen := map[];
    ghost var fs := Functions(rows);
    for i := 0 to |rows|
      invariant Mangled(seen) && CollectedFrom(fs[..i], seen.Keys)
    {
      assert fs[i] == RowFunction(rows[i]);
      AsksSnoc(fs[..i], fs[i]);
      assert fs[..i] + [fs[i]] == fs[..i + 1];
      seen := CollectRow(rows[i], seen);
    }
    assert fs[..|rows|] == fs;
  }

  lemma AsksSnoc(fs: seq<Function>, f: Function)
    ensures forall k :: AnyAsksFor(fs + [f], k) <==> AnyAsksFor(fs, k) || AsksFor(f.body, k)
  {
    forall k ensures AnyAsksFor(fs + [f], k) <==> AnyAsksFor(fs, k) || AsksFor(f.body, k) {
      AsksJoin(fs, [f], k);
      assert [f][0] == f;
    }
  }

  lemma AsksJoin(fs: seq<Function>, gs: seq<Function>, k: Key)
    ensures AnyAsksFor(fs + gs, k) <==> AnyAsksFor(fs, k) || AnyAsksFor(gs, k)
  {
    var all := fs + gs;
    if AnyAsksFor(fs, k) {
      var i :| 0 <= i < |fs| && AsksFor(fs[i].body, k);
      assert AsksFor(all[i].body, k);
    }
    if AnyAsksFor(gs, k) {
      var i :| 0 <= i < |gs| && AsksFor(gs[i].body, k);
      assert AsksFor(all[|fs| + i].body, k);
    }
  }

  /** `ks` lists the keys of `seen` that have no name yet, each once; the order is arbitrary. */
  ghost predicate NewKeys(seen: map<Key, Name>, names: map<Key, Name>, ks: seq<Key>) {
    DistinctKeys(ks) && forall k :: k in ks <==> k in seen && k !in names
  }

  predicate DistinctKeys(ks: seq<Key>) { forall i, j :: 0 <= i < j < |ks| ==> ks[i] != ks[j] }

  /** `longer` is `names` with the mangled names of `ks`. */
  ghost predicate Extends(names: map<Key, Name>, ks: seq<Key>, longer: map<Key, Name>) {
    Agrees(names, longer) && Mangled(longer) && forall k :: k in longer <==> k in names || k in ks
  }

  method NameNewKeys(seen: map<Key, Name>, names: map<Key, Name>) returns (ks: seq<Key>, longer: map<Key, Name>)
    requires Mangled(seen) && Mangled(names)
    ensures NewKeys(seen, names, ks) && Extends(names, ks, longer)
  {
    var todo := seen.Keys - names.Keys;
    ks, longer := [], names;
    while todo != {}
      invariant DistinctKeys(ks) && Extends(names, ks, longer)
      invariant forall k :: k in ks <==> k in seen && k !in names && k !in todo
      invariant todo <= seen.Keys - names.Keys
    {
      var k :| k in todo;
      ks, longer, todo := ks + [k], longer[k := seen[k]], todo - {k};
    }
  }

  ghost predicate AllRewritten(fs: seq<Function>, names: map<Key, Name>, gs: seq<Function>) {
    |gs| == |fs| && forall i :: 0 <= i < |fs| ==> gs[i] == RewriteFunction(fs[i], names)
  }

  function RewriteFunction(f: Function, names: map<Key, Name>): Function {
    Function(f.name, Rewrite(f.body, names))
  }

  method RewriteAll(rows: seq<Row>, names: map<Key, Name>)
    requires Separate(rows) && AllReadable(Functions(rows))
    modifies Airs(rows)
    ensures AllRewritten(old(Functions(rows)), names, Functions(rows))
  {
    ghost var fs := Functions(rows);
    for i := 0 to |rows|
      invariant forall j :: 0 <= j < i ==> RowFunction(rows[j]) == RewriteFunction(fs[j], names)
      invariant forall j :: i <= j < |rows| ==> RowFunction(rows[j]) == fs[j]
    {
      assert RowFunction(rows[i]) == fs[i];
      SlotsIrrelevant(rows[i].air.Code(), rows[i].paramSlots, names);
      RewriteCallGeneric(rows[i].air, names);
    }
  }

  /** The synthesizer, as far as this pass can see: a body for a key, or an error. */
  type Synthesizer = Key -> Option<Body>

  ghost predicate ReadableBodies(create: Synthesizer) {
    forall k {:trigger create(k)} :: create(k).Some? ==> Readable(create(k).value)
  }

  predicate IsBodyOf(create: Synthesizer, k: Key, g: Function) {
    create(k).Some? && g == Function(Mangle(k), create(k).value)
  }

  ghost predicate Created(create: Synthesizer, ks: seq<Key>, gs: seq<Function>) {
    |gs| == |ks| && forall i {:trigger IsBodyOf(create, ks[i], gs[i])} :: 0 <= i < |ks| ==>
      IsBodyOf(create, ks[i], gs[i])
  }

  lemma CreatedJoin(create: Synthesizer, ks: seq<Key>, gs: seq<Function>, nk: seq<Key>, hs: seq<Function>)
    requires Created(create, ks, gs) && Created(create, nk, hs)
    ensures Created(create, ks + nk, gs + hs)
  {
    forall i | 0 <= i < |ks + nk| ensures IsBodyOf(create, (ks + nk)[i], (gs + hs)[i]) {
      if i < |ks| {
        assert IsBodyOf(create, ks[i], gs[i]);
      } else {
        assert IsBodyOf(create, nk[i - |ks|], hs[i - |ks|]);
      }
    }
  }

  lemma CreatedSnoc(create: Synthesizer, ks: seq<Key>, i: nat, gs: seq<Function>, g: Function)
    requires i < |ks| && Created(create, ks[..i], gs) && IsBodyOf(create, ks[i], g)
    ensures Created(create, ks[..i + 1], gs + [g])
  {
    assert Created(create, [ks[i]], [g]);
    CreatedJoin(create, ks[..i], gs, [ks[i]], [g]);
    assert ks[..i] + [ks[i]] == ks[..i + 1];
  }

  lemma FunctionsSnoc(rows: seq<Row>, row: Row)
    ensures Functions(rows + [row]) == Functions(rows) + [RowFunction(row)]
  {}

  /** Appends the bodies of `ks`, up to the first that cannot be made. */
  method SynthesizeBodies(rows: seq<Row>, ks: seq<Key>, names: map<Key, Name>, create: Synthesizer)
    returns (longer: seq<Row>, failed: Option<Key>, ghost made: seq<Function>)
    requires Separate(rows) && Mangled(names) && forall k :: k in ks ==> k in names
    ensures Separate(longer) && fresh(Airs(longer) - Airs(rows)) && rows <= longer
    ensures Functions(longer) == Functions(rows) + made
    ensures failed.Some? ==> failed.value in ks && create(failed.value).None?
    ensures failed.None? ==> Created(create, ks, made)
  {
    longer, failed, made := rows, None, [];
    for i := 0 to |ks|
      invariant Separate(longer) && fresh(Airs(longer) - Airs(rows)) && rows <= longer
      invariant Functions(longer) == Functions(rows) + made && Created(create, ks[..i], made)
    {
      var body := create(ks[i]);
      if body.None? {
        failed := Some(ks[i]);
        return;
      }
      ghost var g := Function(names[ks[i]], body.value);
      CreatedSnoc(create, ks, i, made, g);
      longer := AppendRow(longer, names[ks[i]], body.value);
      made := made + [g];
    }
    assert ks[..|ks|] == ks;
  }

  method AppendRow(rows: seq<Row>, name: Name, body: Body) returns (longer: seq<Row>)
    requires Separate(rows)
    ensures Separate(longer) && fresh(Airs(longer) - Airs(rows)) && rows <= longer
    ensures Functions(longer) == Functions(rows) + [Function(name, body)]
  {
    var row := MakeRow(name, body);
    assert row.air !in Airs(rows);
    FunctionsSnoc(rows, row);
    longer := rows + [row];
  }

  method MakeRow(name: Name, body: Body) returns (row: Row)
    ensures fresh(row.air) && RowFunction(row) == Function(name, body)
  {
    var air := new A.Air();
    air.insts, air.extra, air.valueArgs := body.insts, body.extra, body.valueArgs;
    row := Row(name, air, body.paramSlots);
  }

  // ---- Which keys are needed --------------------------------------------------------------------------

  /** `s` has every key asked for by the functions, and by the bodies of its own keys. */
  ghost predicate Closed(fs: seq<Function>, names: map<Key, Name>, create: Synthesizer, s: iset<Key>) {
    (forall k :: AnyAsksFor(fs, k) ==> k in s) &&
    (forall k, l :: k in s && k !in names && create(k).Some? && AsksFor(create(k).value, l) ==> l in s)
  }

  /** `k` is reachable from the functions through bodies that are not there yet. */
  ghost predicate Needed(fs: seq<Function>, names: map<Key, Name>, create: Synthesizer, k: Key) {
    forall s {:trigger Closed(fs, names, create, s)} :: Closed(fs, names, create, s) ==> k in s
  }

  // ---- What every round keeps -------------------------------------------------------------------------

  /** `f` is `o` rewritten with some of the names. */
  ghost predicate Behind(f: Function, o: Function, names: map<Key, Name>) {
    exists m :: Agrees(m, names) && f == RewriteFunction(o, m)
  }

  /** `origin` are the given functions and the bodies of the keys `ks`, as they were made. */
  ghost predicate Origin(fs: seq<Function>, create: Synthesizer, ks: seq<Key>, origin: seq<Function>) {
    |origin| == |fs| + |ks| && origin[..|fs|] == fs && Created(create, ks, origin[|fs|..])
  }

  ghost predicate KeysUnderway(fs: seq<Function>, names: map<Key, Name>, create: Synthesizer, ks: seq<Key>) {
    DistinctKeys(ks) && forall k :: k in ks ==> k !in names && Needed(fs, names, create, k)
  }

  ghost predicate AllBehind(fs: seq<Function>, origin: seq<Function>, names: map<Key, Name>) {
    |fs| == |origin| && forall i :: 0 <= i < |fs| ==> Behind(fs[i], origin[i], names)
  }

  lemma BehindAsks(f: Function, o: Function, names: map<Key, Name>, k: Key)
    requires Behind(f, o, names) && AsksFor(f.body, k)
    ensures AsksFor(o.body, k)
  {
    var m :| Agrees(m, names) && f == RewriteFunction(o, m);
    var i :| 0 <= i < |f.body.insts| && IsGeneric(f.body, i) && KeyAt(f.body, i) == Some(k);
    KeySurvives(o.body, m, i);
  }

  lemma BehindReadable(f: Function, o: Function, names: map<Key, Name>)
    requires Behind(f, o, names) && Readable(o.body)
    ensures Readable(f.body)
  {
    var m :| Agrees(m, names) && f == RewriteFunction(o, m);
    forall i | 0 <= i < |f.body.insts| && IsGeneric(f.body, i) ensures KeyAt(f.body, i).Some? {
      KeySurvives(o.body, m, i);
    }
  }

  lemma BehindRewrites(f: Function, o: Function, names: map<Key, Name>, longer: map<Key, Name>)
    requires Behind(f, o, names) && Agrees(names, longer)
    ensures RewriteFunction(f, longer) == RewriteFunction(o, longer)
  {
    var m :| Agrees(m, names) && f == RewriteFunction(o, m);
    RewriteTwice(o.body, m, longer);
  }

  lemma NotYetRewritten(o: Function, names: map<Key, Name>)
    ensures Behind(o, o, names)
  {
    RewriteWithNone(o.body);
    assert Agrees(map[], names) && o == RewriteFunction(o, map[]);
  }

  lemma RootIsNeeded(fs0: seq<Function>, names0: map<Key, Name>, create: Synthesizer, k: Key)
    requires AnyAsksFor(fs0, k)
    ensures Needed(fs0, names0, create, k)
  {}

  lemma BodyIsNeeded(fs0: seq<Function>, names0: map<Key, Name>, create: Synthesizer, k: Key, l: Key)
    requires Needed(fs0, names0, create, k) && k !in names0 && create(k).Some? && AsksFor(create(k).value, l)
    ensures Needed(fs0, names0, create, l)
  {}

  /** Whatever the functions so far ask for is needed. */
  lemma AskedIsNeeded(fs0: seq<Function>, names0: map<Key, Name>, create: Synthesizer, ks: seq<Key>,
                      origin: seq<Function>, k: Key)
    requires KeysUnderway(fs0, names0, create, ks) && Origin(fs0, create, ks, origin) && AnyAsksFor(origin, k)
    ensures Needed(fs0, names0, create, k)
  {
    var i :| 0 <= i < |origin| && AsksFor(origin[i].body, k);
    if i < |fs0| {
      assert origin[..|fs0|][i] == origin[i];
      assert AnyAsksFor(fs0, k);
      RootIsNeeded(fs0, names0, create, k);
    } else {
      var j := i - |fs0|;
      assert origin[|fs0|..][j] == origin[i];
      assert IsBodyOf(create, ks[j], origin[|fs0|..][j]) && ks[j] in ks;
      BodyIsNeeded(fs0, names0, create, ks[j], k);
    }
  }

  lemma OriginReadable(fs0: seq<Function>, create: Synthesizer, ks: seq<Key>, origin: seq<Function>)
    requires AllReadable(fs0) && ReadableBodies(create) && Origin(fs0, create, ks, origin)
    ensures AllReadable(origin)
  {
    forall i | 0 <= i < |origin| ensures Readable(origin[i].body) {
      if i < |fs0| {
        assert origin[i] == origin[..|fs0|][i];
      } else {
        assert IsBodyOf(create, ks[i - |fs0|], origin[|fs0|..][i - |fs0|]);
      }
    }
  }

  lemma RoundReadable(fs: seq<Function>, origin: seq<Function>, names: map<Key, Name>)
    requires AllBehind(fs, origin, names) && AllReadable(origin)
    ensures AllReadable(fs)
  {
    forall i | 0 <= i < |fs| ensures Readable(fs[i].body) {
      BehindReadable(fs[i], origin[i], names);
    }
  }

  lemma RoundAsks(fs: seq<Function>, origin: seq<Function>, names: map<Key, Name>, k: Key)
    requires AllBehind(fs, origin, names) && AnyAsksFor(fs, k)
    ensures AnyAsksFor(origin, k)
  {
    var i :| 0 <= i < |fs| && AsksFor(fs[i].body, k);
    BehindAsks(fs[i], origin[i], names, k);
  }

  /** Rewriting with the longer map gives what rewriting the originals would. */
  lemma RoundRewrites(fs: seq<Function>, origin: seq<Function>, names: map<Key, Name>, longer: map<Key, Name>,
                      gs: seq<Function>)
    requires AllBehind(fs, origin, names) && Agrees(names, longer) && AllRewritten(fs, longer, gs)
    ensures AllRewritten(origin, longer, gs)
  {
    forall i | 0 <= i < |fs| ensures gs[i] == RewriteFunction(origin[i], longer) {
      BehindRewrites(fs[i], origin[i], names, longer);
    }
  }

  /** The keys of this round join those of earlier rounds. */
  lemma KeysJoin(fs0: seq<Function>, names0: map<Key, Name>, create: Synthesizer, ks: seq<Key>, names: map<Key,
                 Name>, nk: seq<Key>,
                 longer: map<Key, Name>)
    requires KeysUnderway(fs0, names0, create, ks) && Extends(names0, ks, names)
    requires DistinctKeys(nk) && Extends(names, nk, longer)
    requires forall k :: k in nk ==> k !in names && Needed(fs0, names0, create, k)
    ensures KeysUnderway(fs0, names0, create, ks + nk) && Extends(names0, ks + nk, longer)
  {
    var all := ks + nk;
    forall i, j | 0 <= i < j < |all| ensures all[i] != all[j] {
      assert i < |ks| ==> ks[i] in ks && ks[i] in names;
      assert j >= |ks| ==> nk[j - |ks|] in nk;
    }
  }

  lemma OriginJoin(fs0: seq<Function>, create: Synthesizer, ks: seq<Key>, origin: seq<Function>, nk: seq<Key>,
                   gs: seq<Function>)
    requires Origin(fs0, create, ks, origin) && Created(create, nk, gs)
    ensures Origin(fs0, create, ks + nk, origin + gs)
  {
    assert (origin + gs)[..|fs0|] == fs0;
    assert (origin + gs)[|fs0|..] == origin[|fs0|..] + gs;
    CreatedJoin(create, ks, origin[|fs0|..], nk, gs);
  }

  lemma BehindJoin(origin: seq<Function>, names: map<Key, Name>, fs: seq<Function>, gs: seq<Function>)
    requires AllRewritten(origin, names, fs)
    ensures AllBehind(fs + gs, origin + gs, names)
  {
    forall i | 0 <= i < |fs + gs| ensures Behind((fs + gs)[i], (origin + gs)[i], names) {
      if i < |fs| {
        assert fs[i] == RewriteFunction(origin[i], names);
      } else {
        NotYetRewritten(gs[i - |fs|], names);
      }
    }
  }

  // ---- The result -------------------------------------------------------------------------------------

  /** The outcome of a successful pass over `fs0` with `names0` already specialized: `ks` are the
      needed keys, each once; `fs` are the functions and one body per key, all rewritten with the
      extended map; no generic call is left. */
  ghost predicate Specialized(fs0: seq<Function>, names0: map<Key, Name>, create: Synthesizer,
                              fs: seq<Function>, names: map<Key, Name>, ks: seq<Key>)
  {
    DistinctKeys(ks) && Extends(names0, ks, names) &&
    (forall k :: k in ks <==> k !in names0 && Needed(fs0, names0, create, k)) &&
    (exists origin :: Origin(fs0, create, ks, origin) && AllRewritten(origin, names, fs)) &&
    (forall i :: 0 <= i < |fs| ==> NoGenericCalls(fs[i].body))
  }

  /** A round without new keys ends the pass. */
  lemma Finished(fs0: seq<Function>, names0: map<Key, Name>, create: Synthesizer, ks: seq<Key>, names: map<Key, Name>,
                 origin: seq<Function>, fs: seq<Function>)
    requires KeysUnderway(fs0, names0, create, ks) && Extends(names0, ks, names) && Origin(fs0, create, ks, origin)
    requires AllReadable(origin) && AllRewritten(origin, names, fs)
    requires forall k :: AnyAsksFor(origin, k) ==> k in names
    ensures Specialized(fs0, names0, create, fs, names, ks)
  {
    forall i | 0 <= i < |fs| ensures NoGenericCalls(fs[i].body) {
      forall k | AsksFor(origin[i].body, k) ensures k in names { assert AnyAsksFor(origin, k); }
      RewriteClears(origin[i].body, names);
    }
    NamedIsClosed(fs0, names0, create, ks, names, origin);
    forall k | k !in names0 && Needed(fs0, names0, create, k) ensures k in ks {
      assert k in (iset k | k in names);
    }
  }

  lemma NamedIsClosed(fs0: seq<Function>, names0: map<Key, Name>, create: Synthesizer, ks: seq<Key>,
                      names: map<Key, Name>, origin: seq<Function>)
    requires Extends(names0, ks, names) && Origin(fs0, create, ks, origin)
    requires forall k :: AnyAsksFor(origin, k) ==> k in names
    ensures Closed(fs0, names0, create, iset k | k in names)
  {
    forall k | AnyAsksFor(fs0, k) ensures k in names {
      var i :| 0 <= i < |fs0| && AsksFor(fs0[i].body, k);
      assert origin[..|fs0|][i] == origin[i];
      assert AnyAsksFor(origin, k);
    }
    forall k, l | k in names && k !in names0 && create(k).Some? && AsksFor(create(k).value, l) ensures l in names {
      var j :| 0 <= j < |ks| && ks[j] == k;
      assert IsBodyOf(create, ks[j], origin[|fs0|..][j]) && origin[|fs0|..][j] == origin[|fs0| + j];
      assert AsksFor(origin[|fs0| + j].body, l);
      assert AnyAsksFor(origin, l);
    }
  }

  datatype Result = Ok | Err(key: Key)

  /** What a round finds: unnamed keys that are all needed. */
  lemma NewAreNeeded(fs0: seq<Function>, names0: map<Key, Name>, create: Synthesizer, ks: seq<Key>, names: map<Key,
                     Name>,
                     origin: seq<Function>, fs: seq<Function>, seen: map<Key, Name>, nk: seq<Key>)
    requires KeysUnderway(fs0, names0, create, ks) && Origin(fs0, create, ks, origin) && AllBehind(fs, origin, names)
    requires CollectedFrom(fs, seen.Keys) && NewKeys(seen, names, nk)
    ensures forall k :: k in nk ==> k !in names && Needed(fs0, names0, create, k)
  {
    forall k | k in nk ensures Needed(fs0, names0, create, k) {
      RoundAsks(fs, origin, names, k);
      AskedIsNeeded(fs0, names0, create, ks, origin, k);
    }
  }

  /** With nothing new, every key the originals ask for has a name. */
  lemma AllNamed(origin: seq<Function>, names: map<Key, Name>, fs: seq<Function>, seen: map<Key, Name>)
    requires AllBehind(fs, origin, names) && CollectedFrom(fs, seen.Keys) && NewKeys(seen, names, [])
    ensures forall k :: AnyAsksFor(origin, k) ==> k in names
  {
    forall k | AnyAsksFor(origin, k) ensures k in names {
      var i :| 0 <= i < |origin| && AsksFor(origin[i].body, k);
      var m :| Agrees(m, names) && fs[i] == RewriteFunction(origin[i], m);
      if k !in m {
        StillAsks(origin[i].body, m, k);
        assert AnyAsksFor(fs, k);
      }
    }
  }

  lemma StillAsks(b: Body, m: map<Key, Name>, k: Key)
    requires AsksFor(b, k) && k !in m
    ensures AsksFor(Rewrite(b, m), k)
  {
    var i :| 0 <= i < |b.insts| && IsGeneric(b, i) && KeyAt(b, i) == Some(k);
    assert Rewrite(b, m).insts[i] == RewriteAt(b, i, m) == b.insts[i];
    assert IsGeneric(Rewrite(b, m), i) && KeyAt(Rewrite(b, m), i) == Some(k);
  }

  lemma Shrinks(universe: set<Key>, names: map<Key, Name>, longer: map<Key, Name>, k: Key)
    requires Agrees(names, longer) && k in universe && k !in names && k in longer
    ensures |universe - longer.Keys| < |universe - names.Keys|
  {
    assert universe - longer.Keys <= universe - names.Keys - {k};
    SubsetSize(universe - longer.Keys, universe - names.Keys - {k});
  }

  lemma SubsetSize<T>(a: set<T>, b: set<T>)
    requires a <= b
    ensures |a| <= |b|
  {
    assert b == a + (b - a);
  }

  /** Between rounds: `fs` is behind `origin`, which holds the bodies of the keys named so far. */
  ghost predicate Underway(fs0: seq<Function>, names0: map<Key, Name>, create: Synthesizer, ks: seq<Key>,
                           names: map<Key, Name>, origin: seq<Function>, fs: seq<Function>)
  {
    KeysUnderway(fs0, names0, create, ks) && Extends(names0, ks, names) &&
    Origin(fs0, create, ks, origin) && AllReadable(origin) && AllBehind(fs, origin, names)
  }

  /** The first two phases of a round leave the functions rewritten with `longer`. */
  ghost predicate Caught(fs0: seq<Function>, names0: map<Key, Name>, create: Synthesizer, ks: seq<Key>,
                         names: map<Key, Name>, origin: seq<Function>, nk: seq<Key>, longer: map<Key, Name>,
                         fs: seq<Function>)
  {
    KeysUnderway(fs0, names0, create, ks + nk) && Extends(names0, ks + nk, longer) && Extends(names, nk, longer) &&
    (forall k :: k in nk ==> k !in names) &&
    Origin(fs0, create, ks, origin) && AllReadable(origin) && AllRewritten(origin, longer, fs) &&
    (nk == [] ==> forall k :: AnyAsksFor(origin, k) ==> k in names)
  }

  method CollectAndRewrite(rows: seq<Row>, names: map<Key, Name>, ghost fs0: seq<Function>, ghost names0: map<Key,
                           Name>,
                           ghost create: Synthesizer, ghost ks: seq<Key>, ghost origin: seq<Function>)
    returns (nk: seq<Key>, longer: map<Key, Name>)
    requires Separate(rows) && Underway(fs0, names0, create, ks, names, origin, Functions(rows))
    modifies Airs(rows)
    ensures Caught(fs0, names0, create, ks, names, origin, nk, longer, Functions(rows))
  {
    ghost var fs := Functions(rows);
    RoundReadable(fs, origin, names);
    var seen := CollectAll(rows);
    nk, longer := NameNewKeys(seen, names);
    NewAreNeeded(fs0, names0, create, ks, names, origin, fs, seen, nk);
    RewriteAll(rows, longer);
    RoundRewrites(fs, origin, names, longer, Functions(rows));
    KeysJoin(fs0, names0, create, ks, names, nk, longer);
    if nk == [] {
      AllNamed(origin, names, fs, seen);
    }
  }

  lemma StartsUnderway(fs0: seq<Function>, names0: map<Key, Name>, create: Synthesizer)
    requires AllReadable(fs0) && Mangled(names0)
    ensures Underway(fs0, names0, create, [], names0, fs0, fs0)
  {
    forall i | 0 <= i < |fs0| ensures Behind(fs0[i], fs0[i], names0) { NotYetRewritten(fs0[i], names0); }
  }

  lemma CaughtUp(fs0: seq<Function>, names0: map<Key, Name>, create: Synthesizer, ks: seq<Key>,
                 names: map<Key, Name>, origin: seq<Function>, longer: map<Key, Name>, fs: seq<Function>)
    requires Caught(fs0, names0, create, ks, names, origin, [], longer, fs)
    ensures Specialized(fs0, names0, create, fs, longer, ks)
  {
    assert ks + [] == ks;
    Finished(fs0, names0, create, ks, longer, origin, fs);
  }

  lemma StaysUnderway(fs0: seq<Function>, names0: map<Key, Name>, create: Synthesizer, ks: seq<Key>,
                      names: map<Key, Name>,
                      origin: seq<Function>, nk: seq<Key>, longer: map<Key, Name>, fs: seq<Function>,
                      made: seq<Function>)
    requires Caught(fs0, names0, create, ks, names, origin, nk, longer, fs)
    requires AllReadable(fs0) && ReadableBodies(create) && Created(create, nk, made)
    ensures Underway(fs0, names0, create, ks + nk, longer, origin + made, fs + made)
  {
    OriginJoin(fs0, create, ks, origin, nk, made);
    OriginReadable(fs0, create, ks + nk, origin + made);
    BehindJoin(origin, longer, fs, made);
  }

  /** A failed key was needed, and a round with new keys comes closer to the end. */
  lemma RoundProgress(fs0: seq<Function>, names0: map<Key, Name>, create: Synthesizer, ks: seq<Key>,
                      names: map<Key, Name>,
                      origin: seq<Function>, nk: seq<Key>, longer: map<Key, Name>, fs: seq<Function>,
                      universe: set<Key>, k: Key)
    requires Caught(fs0, names0, create, ks, names, origin, nk, longer, fs) && k in nk
    requires Closed(fs0, names0, create, iset k | k in universe)
    ensures k in longer && k !in names0 && Needed(fs0, names0, create, k)
    ensures |universe - longer.Keys| < |universe - names.Keys|
  {
    assert k in ks + nk;
    assert k in (iset k | k in universe);
    Shrinks(universe, names, longer, k);
  }

  datatype Step = Done | Failed(key: Key) | Again

  /** `k` is needed and cannot be made. */
  ghost predicate Lacks(fs: seq<Function>, names: map<Key, Name>, create: Synthesizer, k: Key) {
    k !in names && Needed(fs, names, create, k) && create(k).None?
  }

  lemma CaughtNames(fs0: seq<Function>, names0: map<Key, Name>, create: Synthesizer, ks: seq<Key>, names: map<Key,
                    Name>,
                    origin: seq<Function>, nk: seq<Key>, longer: map<Key, Name>, fs: seq<Function>)
    requires Caught(fs0, names0, create, ks, names, origin, nk, longer, fs)
    ensures Mangled(longer) && forall k :: k in nk ==> k in longer
  {}

  /** The third phase of a round that found new keys. */
  method ExtendRound(rows: seq<Row>, nk: seq<Key>, longer: map<Key, Name>, create: Synthesizer,
                     ghost fs0: seq<Function>,
                     ghost names0: map<Key, Name>, ghost ks: seq<Key>, ghost names: map<Key, Name>,
                     ghost origin: seq<Function>)
    returns (more: seq<Row>, step: Step, ghost made: seq<Function>)
    requires Separate(rows) && Caught(fs0, names0, create, ks, names, origin, nk, longer, Functions(rows))
    requires AllReadable(fs0) && ReadableBodies(create) && nk != []
    ensures Separate(more) && rows <= more && fresh(Airs(more) - Airs(rows))
    ensures step.Failed? || step.Again?
    ensures step.Failed? ==> step.key in nk && create(step.key).None?
    ensures step.Again? ==> Underway(fs0, names0, create, ks + nk, longer, origin + made, Functions(more))
  {
    CaughtNames(fs0, names0, create, ks, names, origin, nk, longer, Functions(rows));
    var failed;
    more, failed, made := SynthesizeBodies(rows, nk, longer, create);
    if failed.Some? {
      step := Failed(failed.value);
    } else {
      StaysUnderway(fs0, names0, create, ks, names, origin, nk, longer, Functions(rows), made);
      step := Again;
    }
  }

  /** One round of all three phases. */
  method Round(rows: seq<Row>, names: map<Key, Name>, create: Synthesizer, ghost fs0: seq<Function>,
               ghost names0: map<Key, Name>, ghost ks: seq<Key>, ghost origin: seq<Function>, ghost universe: set<Key>)
    returns (more: seq<Row>, longer: map<Key, Name>, step: Step, ghost nk: seq<Key>, ghost made: seq<Function>)
    requires Separate(rows) && Underway(fs0, names0, create, ks, names, origin, Functions(rows))
    requires AllReadable(fs0) && ReadableBodies(create) && Closed(fs0, names0, create, iset k | k in universe)
    modifies Airs(rows)
    ensures Separate(more) && rows <= more && fresh(Airs(more) - Airs(rows))
    ensures step.Done? ==> Specialized(fs0, names0, create, Functions(more), longer, ks)
    ensures step.Failed? ==> Lacks(fs0, names0, create, step.key)
    ensures step.Again? ==>
      Underway(fs0, names0, create, ks + nk, longer, origin + made, Functions(more)) &&
      |universe - longer.Keys| < |universe - names.Keys|
  {
    var keys;
    keys, longer := CollectAndRewrite(rows, names, fs0, names0, create, ks, origin);
    more, nk, made := rows, keys, [];
    ghost var fs := Functions(rows);
    if keys == [] {
      CaughtUp(fs0, names0, create, ks, names, origin, longer, fs);
      step := Done;
    } else {
      more, step, made := ExtendRound(rows, keys, longer, create, fs0, names0, ks, names, origin);
      ghost var k := if step.Failed? then step.key else keys[0];
      RoundProgress(fs0, names0, create, ks, names, origin, keys, longer, fs, universe, k);
    }
  }

  method Specialize(rows0: seq<Row>, names0: map<Key, Name>, create: Synthesizer, ghost universe: set<Key>)
    returns (rows: seq<Row>, names: map<Key, Name>, r: Result, ghost ks: seq<Key>)
    requires Separate(rows0) && AllReadable(Functions(rows0)) && Mangled(names0) && ReadableBodies(create)
    requires Closed(Functions(rows0), names0, create, iset k | k in universe)
    modifies Airs(rows0)
    ensures Separate(rows) && rows0 <= rows && fresh(Airs(rows) - Airs(rows0))
    ensures r.Ok? ==> Specialized(old(Functions(rows0)), names0, create, Functions(rows), names, ks)
    ensures r.Err? ==> Lacks(old(Functions(rows0)), names0, create, r.key)
  {
    ghost var fs0, origin := Functions(rows0), Functions(rows0);
    ghost var nk, made;
    rows, names, ks, r := rows0, names0, [], Ok;
    StartsUnderway(fs0, names0, create);
    while true
      invariant Underway(fs0, names0, create, ks, names, origin, Functions(rows))
      invariant Separate(rows) && rows0 <= rows && fresh(Airs(rows) - Airs(rows0))
      decreases |universe - names.Keys|
    {
      var step;
      rows, names, step, nk, made := Round(rows, names, create, fs0, names0, ks, origin, universe);
      if step.Done? {
        return;
      }
      if step.Failed? {
        r := Err(step.key);
        return;
      }
      ks, origin := ks + nk, origin + made;
    }
  }

  // ---- Success ----------------------------------------------------------------------

  /** A pass succeeds only if every needed key can be made; with the contract of `Specialize`, exactly then. */
  lemma SuccessLacksNothing(fs0: seq<Function>, names0: map<Key, Name>, create: Synthesizer, fs: seq<Function>,
                            names: map<Key, Name>, ks: seq<Key>, k: Key)
    requires Specialized(fs0, names0, create, fs, names, ks)
    ensures !Lacks(fs0, names0, create, k)
  {
    if k in ks {
      var origin :| Origin(fs0, create, ks, origin) && AllRewritten(origin, names, fs);
      var i :| 0 <= i < |ks| && ks[i] == k;
      assert IsBodyOf(create, ks[i], origin[|fs0|..][i]);
    }
  }

  lemma NothingToRewrite(f: Function, names: map<Key, Name>)
    requires NoGenericCalls(f.body)
    ensures RewriteFunction(f, names) == f
  {
    assert Rewrite(f.body, names).insts == f.body.insts;
  }
}
