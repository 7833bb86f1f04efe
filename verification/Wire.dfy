/** Cached files: an interner snapshot travels with the syntax tree, is interned again into another
    build's interner, and every symbol in the tree is replaced by its new key. */
module Wire {
  import opened Bytes
  import opened Ast
  import opened Signature
  import opened FileSignature
  import opened SignatureHasher

  /** An injective table of strings. */
  class Interner {
    var strings: Strings
    var keys: map<Str, Spur>

    ghost predicate Valid()
      reads this
    {
      (forall i :: 0 <= i < |strings| ==> strings[i] in keys && keys[strings[i]] == i) &&
      (forall s :: s in keys ==> 0 <= keys[s] < |strings| && strings[keys[s]] == s)
    }

    constructor ()
      ensures Valid() && strings == []
    {
      strings, keys := [], map[];
    }

    method GetOrIntern(s: Str) returns (key: Spur)
      requires Valid()
      modifies this
      ensures Valid() && 0 <= key < |strings| && strings[key] == s
      ensures strings == if s in old(strings) then old(strings) else old(strings) + [s]
    {
      if s in keys {
        return keys[s];
      }
      key := |strings|;
      strings := strings + [s];
      keys := keys[s := key];
    }
  }

  /** `table[i]` is a key of the string that key `i` had in the snapshot. */
  ghost predicate Restores(table: seq<Spur>, snapshot: Strings, strings: Strings) {
    |table| == |snapshot| &&
    forall i :: 0 <= i < |table| ==> 0 <= table[i] < |strings| && strings[table[i]] == snapshot[i]
  }

  method RestoreInto(snapshot: Strings, target: Interner) returns (table: seq<Spur>)
    requires target.Valid()
    modifies target
    ensures target.Valid() && old(target.strings) <= target.strings
    ensures Restores(table, snapshot, target.strings)
  {
    table := [];
    for i := 0 to |snapshot|
      invariant target.Valid() && old(target.strings) <= target.strings
      invariant Restores(table, snapshot[..i], target.strings)
    {
      var key := target.GetOrIntern(snapshot[i]);
      table := table + [key];
    }
    assert snapshot[..|snapshot|] == snapshot;
  }

  /** A table stays right while the interner grows. */
  lemma RestoresGrow(table: seq<Spur>, snapshot: Strings, strings: Strings, later: Strings)
    requires Restores(table, snapshot, strings) && strings <= later
    ensures Restores(table, snapshot, later)
  {}

  const NO_KEY: Spur := -1

  /** The replacement of one symbol; the source panics on a symbol outside the table. */
  function Replacement(table: seq<Spur>): Spur -> Spur {
    (s: Spur) => if 0 <= s < |table| then table[s] else NO_KEY
  }

  function RemapSpurs(table: seq<Spur>, ast: seq<Item<Spur>>): seq<Item<Spur>> {
    MapItems(Replacement(table), ast)
  }

  lemma ReplacementComposes(table: seq<Spur>, snapshot: Strings, strings: Strings)
    requires Restores(table, snapshot, strings)
    ensures Composes(Replacement(table), Resolver(strings), Resolver(snapshot))
  {
    var f, g, h := Replacement(table), Resolver(strings), Resolver(snapshot);
    forall s: Spur ensures g(f(s)) == h(s) {
      assert h(s) == Resolve(snapshot, s);
      assert g(f(s)) == Resolve(strings, f(s));
    }
  }

  /** Every name in the remapped tree, bodies included, reads as it did when the file was cached. */
  lemma RemapKeepsNames(table: seq<Spur>, snapshot: Strings, strings: Strings, ast: seq<Item<Spur>>)
    requires Restores(table, snapshot, strings)
    ensures MapItems(Resolver(strings), RemapSpurs(table, ast)) == MapItems(Resolver(snapshot), ast)
  {
    ReplacementComposes(table, snapshot, strings);
    ComposeItems(Replacement(table), Resolver(strings), Resolver(snapshot), ast);
  }

  // ---- Remapping loses nothing -------------------------------------------------------------------------

  function Below(n: nat): Spur -> Spur { (s: Spur) => if 0 <= s < n then s else NO_KEY }

  /** Every symbol of the tree is one of the first `n` keys; the source panics on any other. */
  ghost predicate SymbolsBelow(ast: seq<Item<Spur>>, n: nat) { MapItems(Below(n), ast) == ast }

  ghost predicate Distinct<T(!new)>(xs: seq<T>) { forall i, j :: 0 <= i < j < |xs| ==> xs[i] != xs[j] }

  /** The place of `x`, if it has one. */
  ghost function IndexIn<T(!new)>(xs: seq<T>, x: T): Spur {
    if x in xs then (var i :| 0 <= i < |xs| && xs[i] == x; i) else NO_KEY
  }

  ghost function Inverse(table: seq<Spur>): Spur -> Spur { (k: Spur) => IndexIn(table, k) }

  /** An interner holds no string twice, so distinct symbols get distinct keys. */
  lemma TableDistinct(table: seq<Spur>, snapshot: Strings, strings: Strings)
    requires Restores(table, snapshot, strings) && Distinct(snapshot)
    ensures Distinct(table) && NO_KEY !in table
  {
    forall i, j | 0 <= i < j < |table| ensures table[i] != table[j] {
      assert snapshot[i] != snapshot[j];
    }
  }

  /** Remapping and mapping back gives the original tree, bodies and patterns included. */
  lemma RemapBack(table: seq<Spur>, ast: seq<Item<Spur>>)
    requires Distinct(table) && NO_KEY !in table && SymbolsBelow(ast, |table|)
    ensures MapItems(Inverse(table), RemapSpurs(table, ast)) == ast
  {
    var f, g, h := Replacement(table), Inverse(table), Below(|table|);
    forall s: Spur ensures g(f(s)) == h(s) {
      if 0 <= s < |table| {
        var i := IndexIn(table, table[s]);
        assert table[i] == table[s];
      }
    }
    ComposeItems(f, g, h, ast);
  }

  /** No two trees are remapped to the same one. */
  lemma RemapInjective(table: seq<Spur>, a: seq<Item<Spur>>, b: seq<Item<Spur>>)
    requires Distinct(table) && NO_KEY !in table && SymbolsBelow(a, |table|) && SymbolsBelow(b, |table|)
    requires RemapSpurs(table, a) == RemapSpurs(table, b)
    ensures a == b
  {
    RemapBack(table, a);
    RemapBack(table, b);
  }

  /** A cached file: its interner snapshot and its tree. */
  datatype CachedFile = CachedFile(snapshot: Strings, ast: Vec<Item<Spur>>)

  /** `loaded` reads, with `strings`, as the cached file did. */
  ghost predicate ReadsAs(loaded: Vec<Item<Spur>>, strings: Strings, file: CachedFile) {
    MapItems(Resolver(strings), loaded) == MapItems(Resolver(file.snapshot), file.ast)
  }

  /** Loading a cached file into a build: the signature is the one computed when it was cached. */
  method LoadCached(file: CachedFile, target: Interner) returns (loaded: Vec<Item<Spur>>, fp: Hasher,
                    ghost table: seq<Spur>)
    requires target.Valid()
    modifies target
    ensures target.Valid() && old(target.strings) <= target.strings
    ensures Restores(table, file.snapshot, target.strings) && loaded == RemapSpurs(table, file.ast)
    ensures ReadsAs(loaded, target.strings, file)
    ensures Distinct(file.snapshot) && SymbolsBelow(file.ast, |file.snapshot|) ==>
              MapItems(Inverse(table), loaded) == file.ast
    ensures fp.stream == Stream(MapItems(Resolver(file.snapshot), file.ast))
  {
    var t := RestoreInto(file.snapshot, target);
    loaded, table := RemapSpurs(t, file.ast), t;
    RemapKeepsNames(t, file.snapshot, target.strings, file.ast);
    if Distinct(file.snapshot) && SymbolsBelow(file.ast, |file.snapshot|) {
      TableDistinct(t, file.snapshot, target.strings);
      RemapBack(t, file.ast);
    }
    fp := ComputeSigFp(loaded, target.strings);
  }

  /** The tables are right for the first files. */
  ghost predicate AllRestore(files: seq<CachedFile>, tables: seq<seq<Spur>>, strings: Strings) {
    |tables| <= |files| && forall i :: 0 <= i < |tables| ==> Restores(tables[i], files[i].snapshot, strings)
  }

  lemma RestoreOneMore(files: seq<CachedFile>, tables: seq<seq<Spur>>, strings: Strings, later: Strings,
                       table: seq<Spur>)
    requires AllRestore(files, tables, strings) && strings <= later && |tables| < |files|
    requires Restores(table, files[|tables|].snapshot, later)
    ensures AllRestore(files, tables + [table], later)
  {
    forall i | 0 <= i < |tables| ensures Restores(tables[i], files[i].snapshot, later) {
      RestoresGrow(tables[i], files[i].snapshot, strings, later);
    }
  }

  /** The loaded trees are the files' trees, remapped by their tables. */
  predicate AllRemapped(files: seq<CachedFile>, tables: seq<seq<Spur>>, loaded: seq<Vec<Item<Spur>>>) {
    |loaded| == |tables| <= |files| &&
    forall i :: 0 <= i < |loaded| ==> loaded[i] == RemapSpurs(tables[i], files[i].ast)
  }

  lemma RemapOneMore(files: seq<CachedFile>, tables: seq<seq<Spur>>, loaded: seq<Vec<Item<Spur>>>,
                     table: seq<Spur>, tree: Vec<Item<Spur>>)
    requires AllRemapped(files, tables, loaded) && |tables| < |files|
    requires tree == RemapSpurs(table, files[|tables|].ast)
    ensures AllRemapped(files, tables + [table], loaded + [tree])
  {}

  /** Loading any list of cached files into one interner: all of them still read as they were cached
      after the last has been loaded, and so does their signature stream, a function of the resolved tree. */
  method LoadAll(files: seq<CachedFile>, target: Interner) returns (loaded: seq<Vec<Item<Spur>>>)
    requires target.Valid()
    modifies target
    ensures target.Valid() && old(target.strings) <= target.strings && |loaded| == |files|
    ensures forall i :: 0 <= i < |files| ==> ReadsAs(loaded[i], target.strings, files[i])
  {
    loaded := [];
    ghost var tables: seq<seq<Spur>> := [];
    for n := 0 to |files|
      invariant target.Valid() && old(target.strings) <= target.strings && |loaded| == |tables| == n
      invariant AllRestore(files, tables, target.strings)
      invariant AllRemapped(files, tables, loaded)
    {
      ghost var strings := target.strings;
      var tree, fp;
      ghost var table;
      tree, fp, table := LoadCached(files[n], target);
      RestoreOneMore(files, tables, strings, target.strings, table);
      RemapOneMore(files, tables, loaded, table, tree);
      loaded, tables := loaded + [tree], tables + [table];
    }
    forall i | 0 <= i < |files| ensures ReadsAs(loaded[i], target.strings, files[i]) {
      RemapKeepsNames(tables[i], files[i].snapshot, target.strings, files[i].ast);
    }
  }
}
