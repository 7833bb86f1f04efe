/** Repeated specialization: the analyzer calls the pass again and again with one name map and an
    accumulator that grows in between. */
module SpecializePasses {
  import opened Bytes
  import opened Mangling
  import opened S = Specialize
  import opened A = Air

  /** Where a function of the accumulator came from. */
  datatype Entry = Added(f: Function) | Made(k: Key)

  function EntryName(e: Entry): Name { match e case Added(f) => f.name case Made(k) => Mangle(k) }

  predicate Makeable(create: Synthesizer, e: Entry) { e.Made? ==> create(e.k).Some? }

  /** The function as it was added or made. */
  function Original(create: Synthesizer, e: Entry): Function
    requires Makeable(create, e)
  {
    match e case Added(f) => f case Made(k) => Function(Mangle(k), create(k).value)
  }

  function Adds(fs: seq<Function>): (es: seq<Entry>)
    ensures |es| == |fs| && forall i :: 0 <= i < |fs| ==> es[i] == Added(fs[i])
  {
    seq(|fs|, i requires 0 <= i < |fs| => Added(fs[i]))
  }

  function Mades(ks: seq<Key>): (es: seq<Entry>)
    ensures |es| == |ks| && forall i :: 0 <= i < |ks| ==> es[i] == Made(ks[i])
  {
    seq(|ks|, i requires 0 <= i < |ks| => Made(ks[i]))
  }

  /** No key was made twice. */
  predicate DistinctMade(es: seq<Entry>) {
    forall i, j :: 0 <= i < j < |es| && es[i].Made? ==> es[i] != es[j]
  }

  predicate EntryDone(create: Synthesizer, e: Entry, names: map<Key, Name>, f: Function) {
    Makeable(create, e) && f == RewriteFunction(Original(create, e), names) && NoGenericCalls(f.body)
  }

  /** The state after any number of passes: every function is its original rewritten with the whole
      map, without generic calls, and every key in the map has exactly one body. */
  ghost predicate Reached(create: Synthesizer, es: seq<Entry>, fs: seq<Function>, names: map<Key, Name>) {
    |fs| == |es| && DistinctMade(es) && Mangled(names) &&
    (forall i {:trigger EntryDone(create, es[i], names, fs[i])} :: 0 <= i < |es| ==>
      EntryDone(create, es[i], names, fs[i])) &&
    (forall k {:trigger k in names} :: k in names <==> Made(k) in es)
  }

  // ---- One more pass --------------------------------------------------------------------------------------

  lemma LongerMapSame(o: Function, m: map<Key, Name>, m': map<Key, Name>)
    requires Agrees(m, m') && NoGenericCalls(Rewrite(o.body, m))
    ensures RewriteFunction(o, m') == RewriteFunction(o, m)
  {
    RewriteTwice(o.body, m, m');
    NothingToRewrite(RewriteFunction(o, m), m');
  }

  /** What a pass over `fs + added` gives at each index. */
  lemma PassAt(input: seq<Function>, names: map<Key, Name>, create: Synthesizer, fs': seq<Function>,
               names': map<Key, Name>,
               ks: seq<Key>, i: nat)
    requires Specialized(input, names, create, fs', names', ks) && i < |input| + |ks|
    ensures |fs'| == |input| + |ks| && Agrees(names, names') && NoGenericCalls(fs'[i].body)
    ensures i < |input| ==> fs'[i] == RewriteFunction(input[i], names')
    ensures i >= |input| ==> EntryDone(create, Made(ks[i - |input|]), names', fs'[i])
  {
    var origin :| Origin(input, create, ks, origin) && AllRewritten(origin, names', fs');
    if i < |input| {
      assert origin[..|input|][i] == origin[i];
    } else {
      assert IsBodyOf(create, ks[i - |input|], origin[|input|..][i - |input|]);
      assert origin[|input|..][i - |input|] == origin[i];
    }
  }

  function Extended(es: seq<Entry>, added: seq<Function>, ks: seq<Key>): seq<Entry> { es + Adds(added) + Mades(ks) }

  lemma EntryStays(create: Synthesizer, es: seq<Entry>, fs: seq<Function>, names: map<Key, Name>, added: seq<Function>,
                   fs': seq<Function>, names': map<Key, Name>, ks: seq<Key>, i: nat)
    requires Reached(create, es, fs, names) && Specialized(fs + added, names, create, fs', names', ks)
    requires i < |es| + |added| + |ks|
    ensures |fs'| == |es| + |added| + |ks| && EntryDone(create, Extended(es, added, ks)[i], names', fs'[i])
    ensures i < |es| ==> fs'[i] == fs[i]
  {
    PassAt(fs + added, names, create, fs', names', ks, i);
    if i < |es| {
      assert (fs + added)[i] == fs[i] && EntryDone(create, es[i], names, fs[i]);
      NothingToRewrite(fs[i], names');
      LongerMapSame(Original(create, es[i]), names, names');
    }
  }

  lemma NewKeysApart(create: Synthesizer, es: seq<Entry>, fs: seq<Function>, names: map<Key, Name>,
                     added: seq<Function>, ks: seq<Key>)
    requires Reached(create, es, fs, names) && DistinctKeys(ks) && forall k :: k in ks ==> k !in names
    ensures DistinctMade(Extended(es, added, ks))
  {
    var all := Extended(es, added, ks);
    var n := |es| + |added|;
    forall i, j | 0 <= i < j < |all| && all[i].Made? ensures all[i] != all[j] {
      if i < |es| && j >= n {
        assert all[i] == es[i] && all[j] == Made(ks[j - n]) && ks[j - n] in ks;
      } else if i >= n {
        assert all[i] == Made(ks[i - n]) && all[j] == Made(ks[j - n]);
      }
    }
  }

  lemma KeysRecorded(es: seq<Entry>, added: seq<Function>, ks: seq<Key>, k: Key)
    ensures Made(k) in Extended(es, added, ks) <==> Made(k) in es || k in ks
  {
    if k in ks {
      var i :| 0 <= i < |ks| && ks[i] == k;
      assert Mades(ks)[i] == Made(k);
    }
  }

  /** A pass over the output of earlier ones and new functions keeps every old function as it is and
      adds one body for each new key. */
  lemma PassExtends(create: Synthesizer, es: seq<Entry>, fs: seq<Function>, names: map<Key, Name>, added: seq<Function>,
                    fs': seq<Function>, names': map<Key, Name>, ks: seq<Key>)
    requires Reached(create, es, fs, names) && Specialized(fs + added, names, create, fs', names', ks)
    ensures Reached(create, Extended(es, added, ks), fs', names') && fs <= fs'
  {
    var all := Extended(es, added, ks);
    PassCount(fs + added, names, create, fs', names', ks);
    forall i | 0 <= i < |all| ensures EntryDone(create, all[i], names', fs'[i]) && (i < |fs| ==> fs'[i] == fs[i]) {
      EntryStays(create, es, fs, names, added, fs', names', ks, i);
    }
    NewKeysApart(create, es, fs, names, added, ks);
    forall k ensures k in names' <==> Made(k) in all { KeysRecorded(es, added, ks, k); }
  }

  lemma PassCount(input: seq<Function>, names: map<Key, Name>, create: Synthesizer, fs': seq<Function>,
                  names': map<Key, Name>, ks: seq<Key>)
    requires Specialized(input, names, create, fs', names', ks)
    ensures |fs'| == |input| + |ks|
  {}

  // ---- Any list of passes ----------------------------------------------------------------------------------

  /** The functions added before a pass, and what the pass left. */
  datatype Pass = Pass(added: seq<Function>, fs: seq<Function>, names: map<Key, Name>, ks: seq<Key>)

  function LastFs(ps: seq<Pass>): seq<Function> { if ps == [] then [] else ps[|ps| - 1].fs }

  function LastNames(ps: seq<Pass>): map<Key, Name> { if ps == [] then map[] else ps[|ps| - 1].names }

  /** Each pass starts from the previous output and name map, with new functions appended. */
  ghost predicate Chained(create: Synthesizer, ps: seq<Pass>) {
    ps == [] ||
    var before, last := ps[..|ps| - 1], ps[|ps| - 1];
    Chained(create, before) &&
    Specialized(LastFs(before) + last.added, LastNames(before), create, last.fs, last.names, last.ks)
  }

  /** Everything added or made, in the order of the accumulator. */
  function History(ps: seq<Pass>): seq<Entry> {
    if ps == [] then []
    else Extended(History(ps[..|ps| - 1]), ps[|ps| - 1].added, ps[|ps| - 1].ks)
  }

  /** Specialization is closed after every list of passes. */
  lemma {:induction false} RunOfPasses(create: Synthesizer, ps: seq<Pass>)
    requires Chained(create, ps)
    ensures Reached(create, History(ps), LastFs(ps), LastNames(ps))
  {
    if ps != [] {
      var before, last := ps[..|ps| - 1], ps[|ps| - 1];
      RunOfPasses(create, before);
      PassExtends(create, History(before), LastFs(before), LastNames(before), last.added, last.fs, last.names, last.ks);
    }
  }

  /** A key of the last map has one body in the accumulator, its own, rewritten; and no other function there is one. */
  lemma OneBodyPerKey(create: Synthesizer, ps: seq<Pass>, k: Key) returns (i: nat)
    requires Chained(create, ps) && k in LastNames(ps)
    ensures i < |History(ps)| == |LastFs(ps)| && History(ps)[i] == Made(k)
    ensures create(k).Some? && LastFs(ps)[i] == Function(Mangle(k), Rewrite(create(k).value, LastNames(ps)))
    ensures forall j :: 0 <= j < |History(ps)| && History(ps)[j] == Made(k) ==> j == i
  {
    RunOfPasses(create, ps);
    i :| 0 <= i < |History(ps)| && History(ps)[i] == Made(k);
    assert EntryDone(create, History(ps)[i], LastNames(ps), LastFs(ps)[i]);
  }

  // ---- The repeated calls -----------------------------------------------------------------------------------

  ghost function AllAirs(batches: seq<seq<Row>>): set<A.Air> {
    set i, j | 0 <= i < |batches| && 0 <= j < |batches[i]| :: batches[i][j].air
  }

  /** No two rows of any batches share their code. */
  ghost predicate AllSeparate(batches: seq<seq<Row>>) {
    (forall i :: 0 <= i < |batches| ==> Separate(batches[i])) &&
    (forall i, j :: 0 <= i < j < |batches| ==> Airs(batches[i]) !! Airs(batches[j]))
  }

  /** Every key that a function or the body of another key asks for lies in `universe`. */
  ghost predicate Bounded(create: Synthesizer, universe: set<Key>) {
    forall k, l :: k in universe && create(k).Some? && AsksFor(create(k).value, l) ==> l in universe
  }

  ghost predicate BatchOk(batch: seq<Row>, universe: set<Key>)
    reads Airs(batch)
  {
    AllReadable(Functions(batch)) && forall k :: AnyAsksFor(Functions(batch), k) ==> k in universe
  }

  lemma ClearedAsksNothing(fs: seq<Function>, k: Key)
    requires forall i :: 0 <= i < |fs| ==> NoGenericCalls(fs[i].body)
    ensures !AnyAsksFor(fs, k) && AllReadable(fs)
  {}

  /** The output of a chain and a new batch can be given to the pass. */
  lemma ReadyForPass(create: Synthesizer, ps: seq<Pass>, added: seq<Function>, universe: set<Key>)
    requires Chained(create, ps) && AllReadable(added) && Bounded(create, universe)
    requires forall k :: AnyAsksFor(added, k) ==> k in universe
    ensures AllReadable(LastFs(ps) + added) && Mangled(LastNames(ps))
    ensures Closed(LastFs(ps) + added, LastNames(ps), create, iset k | k in universe)
  {
    var fs := LastFs(ps);
    RunOfPasses(create, ps);
    forall i | 0 <= i < |fs| ensures NoGenericCalls(fs[i].body) {
      assert EntryDone(create, History(ps)[i], LastNames(ps), fs[i]);
    }
    forall k | AnyAsksFor(fs + added, k) ensures k in universe {
      ClearedAsksNothing(fs, k);
      AsksJoin(fs, added, k);
    }
    forall i | 0 <= i < |fs + added| ensures Readable((fs + added)[i].body) {
      if i < |fs| {
        assert NoGenericCalls(fs[i].body);
      }
    }
  }

  lemma ChainGrows(create: Synthesizer, ps: seq<Pass>, p: Pass)
    requires Chained(create, ps)
    requires Specialized(LastFs(ps) + p.added, LastNames(ps), create, p.fs, p.names, p.ks)
    ensures Chained(create, ps + [p]) && LastFs(ps + [p]) == p.fs && LastNames(ps + [p]) == p.names
  {
    assert (ps + [p])[..|ps|] == ps;
  }

  lemma FunctionsJoin(rows: seq<Row>, more: seq<Row>)
    ensures Functions(rows + more) == Functions(rows) + Functions(more)
  {}

  lemma SeparateJoin(rows: seq<Row>, more: seq<Row>)
    requires Separate(rows) && Separate(more) && Airs(rows) !! Airs(more)
    ensures Separate(rows + more) && Airs(rows + more) == Airs(rows) + Airs(more)
  {
    var all := rows + more;
    forall i, j | 0 <= i < j < |all| ensures all[i].air != all[j].air {
      assert i < |rows| ==> rows[i].air in Airs(rows);
      assert j >= |rows| ==> more[j - |rows|].air in Airs(more);
    }
    forall x | x in Airs(rows) + Airs(more) ensures x in Airs(all) {
      if x in Airs(rows) {
        var i :| 0 <= i < |rows| && rows[i].air == x;
        assert all[i].air == x;
      } else {
        var i :| 0 <= i < |more| && more[i].air == x;
        assert all[|rows| + i].air == x;
      }
    }
  }

  /** The accumulator is what the passes so far left. */
  ghost predicate Holds(create: Synthesizer, ps: seq<Pass>, rows: seq<Row>, names: map<Key, Name>)
    reads Airs(rows)
  {
    Separate(rows) && Chained(create, ps) && Functions(rows) == LastFs(ps) && names == LastNames(ps)
  }

  /** One batch appended and one more pass. */
  method SpecializeBatch(rows: seq<Row>, batch: seq<Row>, names: map<Key, Name>, create: Synthesizer,
                         ghost ps: seq<Pass>, ghost universe: set<Key>)
    returns (more: seq<Row>, longer: map<Key, Name>, r: Result, ghost p: Pass)
    requires Holds(create, ps, rows, names) && Separate(batch) && Airs(rows) !! Airs(batch)
    requires ReadableBodies(create) && Bounded(create, universe) && BatchOk(batch, universe)
    modifies Airs(rows) + Airs(batch)
    ensures fresh(Airs(more) - Airs(rows) - Airs(batch))
    ensures r.Ok? ==> Holds(create, ps + [p], more, longer) && p.added == old(Functions(batch))
    ensures r.Err? ==> create(r.key).None?
  {
    ghost var added := Functions(batch);
    FunctionsJoin(rows, batch);
    SeparateJoin(rows, batch);
    ReadyForPass(create, ps, added, universe);
    ghost var ks;
    more, longer, r, ks := S.Specialize(rows + batch, names, create, universe);
    p := Pass(added, Functions(more), longer, ks);
    if r.Ok? {
      ChainGrows(create, ps, p);
    }
  }

  /** Batches from `n` on are as they were given, `added`, and apart from the accumulator. */
  ghost predicate Waiting(batches: seq<seq<Row>>, n: nat, rows: seq<Row>, added: seq<seq<Function>>)
    reads AllAirs(batches)
  {
    |added| == |batches| &&
    forall i :: n <= i < |batches| ==> Airs(rows) !! Airs(batches[i]) && Functions(batches[i]) == added[i]
  }

  lemma AirsInside(batches: seq<seq<Row>>, n: nat)
    requires n < |batches|
    ensures Airs(batches[n]) <= AllAirs(batches)
  {}

  /** Every batch can be read and asks for keys of the universe. */
  ghost predicate AllOk(added: seq<seq<Function>>, universe: set<Key>) {
    forall i :: 0 <= i < |added| ==> AllReadable(added[i]) && forall k :: AnyAsksFor(added[i], k) ==> k in universe
  }

  method NextBatch(batches: seq<seq<Row>>, n: nat, rows: seq<Row>, names: map<Key, Name>, create: Synthesizer,
                   ghost ps: seq<Pass>, ghost universe: set<Key>, ghost added: seq<seq<Function>>)
    returns (more: seq<Row>, longer: map<Key, Name>, r: Result, ghost p: Pass)
    requires n < |batches| && AllSeparate(batches) && Waiting(batches, n, rows, added) && AllOk(added, universe)
    requires Holds(create, ps, rows, names) && ReadableBodies(create) && Bounded(create, universe)
    modifies Airs(rows) + Airs(batches[n])
    ensures fresh(Airs(more) - Airs(rows) - Airs(batches[n])) && Waiting(batches, n + 1, more, added)
    ensures r.Ok? ==> Holds(create, ps + [p], more, longer) && p.added == added[n]
    ensures r.Err? ==> create(r.key).None?
  {
    more, longer, r, p := SpecializeBatch(rows, batches[n], names, create, ps, universe);
    forall i | n < i < |batches| ensures Airs(more) !! Airs(batches[i]) && Functions(batches[i]) == added[i] {
      assert Airs(batches[n]) !! Airs(batches[i]) && Airs(rows) !! Airs(batches[i]);
    }
  }

  /** The passes added the first `n` batches. */
  predicate Records(ps: seq<Pass>, added: seq<seq<Function>>, n: nat) {
    |ps| == n <= |added| && forall i :: 0 <= i < n ==> ps[i].added == added[i]
  }

  lemma RecordOne(ps: seq<Pass>, added: seq<seq<Function>>, n: nat, p: Pass)
    requires Records(ps, added, n) && n < |added| && p.added == added[n]
    ensures Records(ps + [p], added, n + 1)
  {}

  lemma HoldsNothing(create: Synthesizer)
    ensures Holds(create, [], [], map[])
  {}

  /** The pass after each batch of newly analyzed functions, over one accumulator and one name map. */
  method SpecializeBatches(batches: seq<seq<Row>>, create: Synthesizer, ghost universe: set<Key>,
                           ghost added: seq<seq<Function>>)
    returns (rows: seq<Row>, names: map<Key, Name>, r: Result, ghost ps: seq<Pass>)
    requires AllSeparate(batches) && ReadableBodies(create) && Bounded(create, universe)
    requires Waiting(batches, 0, [], added) && AllOk(added, universe)
    modifies AllAirs(batches)
    ensures r.Ok? ==> Holds(create, ps, rows, names) && Records(ps, added, |added|)
    ensures r.Err? ==> create(r.key).None?
  {
    rows, names, r, ps := [], map[], Ok, [];
    HoldsNothing(create);
    for n := 0 to |batches|
      invariant Holds(create, ps, rows, names) && Waiting(batches, n, rows, added) && r.Ok? && Records(ps, added, n)
      invariant fresh(Airs(rows) - AllAirs(batches))
    {
      AirsInside(batches, n);
      ghost var p;
      rows, names, r, p := NextBatch(batches, n, rows, names, create, ps, universe, added);
      if r.Err? {
        return;
      }
      RecordOne(ps, added, n, p);
      ps := ps + [p];
    }
  }
}
