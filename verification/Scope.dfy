/** Scoped variable bindings: a map of locals and a stack of frames that remember what each
    insert overwrote. Popping a frame replays its entries forwards. */
module Scope {
  import opened Bytes
  import opened Types

  /** A frame's entry: the symbol and the binding it had before the insert. */
  type Entries<V> = seq<(Spur, Option<V>)>

  datatype Context<V> = Context(locals: map<Spur, V>, stack: seq<Entries<V>>)

  function Lookup<V>(locals: map<Spur, V>, s: Spur): Option<V> {
    if s in locals then Some(locals[s]) else None
  }

  function Push<V>(c: Context<V>): Context<V> { c.(stack := c.stack + [[]]) }

  function Insert<V>(c: Context<V>, s: Spur, v: V): Context<V> {
    var locals := c.locals[s := v];
    if c.stack == [] then c.(locals := locals)
    else
      var top := |c.stack| - 1;
      Context(locals, c.stack[top := c.stack[top] + [(s, Lookup(c.locals, s))]])
  }

  function RestoreOne<V>(locals: map<Spur, V>, e: (Spur, Option<V>)): map<Spur, V> {
    match e.1
    case Some(before) => locals[e.0 := before]
    case None => locals - {e.0}
  }

  /** Entries are undone first to last. */
  function Restore<V>(locals: map<Spur, V>, es: Entries<V>): map<Spur, V> {
    if es == [] then locals else RestoreOne(Restore(locals, es[..|es| - 1]), es[|es| - 1])
  }

  function Pop<V>(c: Context<V>): Context<V> {
    if c.stack == [] then c
    else
      var top := |c.stack| - 1;
      Context(Restore(c.locals, c.stack[top]), c.stack[..top])
  }

  class ScopedContext<V(0)> {
    var locals: map<Spur, V>
    var scopeStack: seq<Entries<V>>

    ghost function Current(): Context<V>
      reads this
    {
      Context(locals, scopeStack)
    }

    constructor ()
      ensures Current() == Context(map[], [])
    {
      locals, scopeStack := map[], [];
    }

    method PushScope()
      modifies this
      ensures Current() == Push(old(Current()))
      ensures locals == old(locals) && scopeStack == old(scopeStack) + [[]]
    {
      scopeStack := scopeStack + [[]];
    }

    method InsertLocal(symbol: Spur, v: V)
      modifies this
      ensures Current() == Insert(old(Current()), symbol, v)
      ensures locals == old(locals)[symbol := v] && |scopeStack| == |old(scopeStack)|
    {
      var oldValue := if symbol in locals then Some(locals[symbol]) else None;
      locals := locals[symbol := v];
      if scopeStack != [] {
        var top := |scopeStack| - 1;
        scopeStack := scopeStack[top := scopeStack[top] + [(symbol, oldValue)]];
      }
    }

    method PopScope()
      modifies this
      ensures Current() == Pop(old(Current()))
    {
      if scopeStack != [] {
        var entries := scopeStack[|scopeStack| - 1];
        scopeStack := scopeStack[..|scopeStack| - 1];
        for i := 0 to |entries|
          invariant scopeStack == old(scopeStack)[..|old(scopeStack)| - 1]
          invariant locals == Restore(old(locals), entries[..i])
        {
          assert entries[..i + 1][..i] == entries[..i];
          match entries[i].1 {
            case Some(v) => locals := locals[entries[i].0 := v];
            case None => locals := locals - {entries[i].0};
          }
        }
        assert entries[..|entries|] == entries;
      }
    }
  }

  // ---- Whole runs ---------------------------------------------------------------------------------

  /** A well-nested run: inserts, and scopes opened and closed. */
  datatype Item<V> = Bind(symbol: Spur, value: V) | Nested(items: seq<Item<V>>)

  function Run<V>(c: Context<V>, items: seq<Item<V>>): Context<V>
    decreases items
  {
    if items == [] then c else Run(RunItem(c, items[0]), items[1..])
  }

  function RunItem<V>(c: Context<V>, item: Item<V>): Context<V>
    decreases item
  {
    match item
    case Bind(s, v) => Insert(c, s, v)
    case Nested(items) => Pop(Run(Push(c), items))
  }

  /** What the frame records: for each of its own inserts, the binding just before it. */
  function Recorded<V>(c: Context<V>, items: seq<Item<V>>): Entries<V>
    decreases items
  {
    if items == [] then []
    else
      (match items[0] case Bind(s, _) => [(s, Lookup(c.locals, s))] case Nested(_) => []) +
      Recorded(RunItem(c, items[0]), items[1..])
  }

  /** A run adds its own entries to the top frame and leaves the rest of the stack alone. */
  lemma {:induction false} RunStack<V>(c: Context<V>, items: seq<Item<V>>)
    requires c.stack != []
    ensures var top := |c.stack| - 1;
      Run(c, items).stack == c.stack[top := c.stack[top] + Recorded(c, items)]
    decreases items
  {
    var top := |c.stack| - 1;
    if items == [] {
      assert c.stack[top] + [] == c.stack[top];
    } else {
      ItemStack(c, items[0]);
      var c' := RunItem(c, items[0]);
      RunStack(c', items[1..]);
      var rest := Recorded(c', items[1..]);
      match items[0] {
        case Bind(s, _) =>
          var e := (s, Lookup(c.locals, s));
          assert c.stack[top] + [e] + rest == c.stack[top] + ([e] + rest);
        case Nested(_) => assert [] + rest == rest;
      }
    }
  }

  lemma {:induction false} ItemStack<V>(c: Context<V>, item: Item<V>)
    ensures item.Nested? ==> RunItem(c, item).stack == c.stack
    decreases item
  {
    match item
    case Bind(_, _) =>
    case Nested(items) => RunStack(Push(c), items);
  }

  /** The last entry for `s`. */
  function LastEntry<V>(es: Entries<V>, s: Spur): Option<Option<V>> {
    if es == [] then None
    else if es[|es| - 1].0 == s then Some(es[|es| - 1].1)
    else LastEntry(es[..|es| - 1], s)
  }

  lemma {:induction false} RestoreLookup<V>(locals: map<Spur, V>, es: Entries<V>, s: Spur)
    ensures Lookup(Restore(locals, es), s) ==
      match LastEntry(es, s) case Some(before) => before case None => Lookup(locals, s)
  {
    if es != [] {
      RestoreLookup(locals, es[..|es| - 1], s);
    }
  }

  /** After any scope, a symbol the scope bound has the binding it had just before the scope's last
      insert of it; any other symbol keeps the binding it had when the scope ended. */
  lemma ScopeResult<V>(c: Context<V>, items: seq<Item<V>>, s: Spur)
    ensures RunItem(c, Nested(items)).stack == c.stack
    ensures Lookup(RunItem(c, Nested(items)).locals, s) ==
      match LastEntry(Recorded(Push(c), items), s)
      case Some(before) => before
      case None => Lookup(Run(Push(c), items).locals, s)
  {
    RunStack(Push(c), items);
    assert [] + Recorded(Push(c), items) == Recorded(Push(c), items);
    RestoreLookup(Run(Push(c), items).locals, Recorded(Push(c), items), s);
  }

  // ---- What a scope leaks ---------------------------------------------------------------------------

  /** The symbols a run inserts itself, in order. */
  function Bound<V>(items: seq<Item<V>>): seq<Spur> {
    if items == [] then []
    else (match items[0] case Bind(s, _) => [s] case Nested(_) => []) + Bound(items[1..])
  }

  /** A change, if there is one, over what was there. */
  function Now<V>(before: Option<V>, change: Option<V>): Option<V> { if change.Some? then change else before }

  /** The value a run leaves `s` with, if it changes it. */
  function Left<V>(items: seq<Item<V>>, s: Spur): Option<V>
    decreases items, 0
  {
    if items == [] then None else Now(ItemLeft(items[0], s), Left(items[1..], s))
  }

  function ItemLeft<V>(item: Item<V>, s: Spur): Option<V>
    decreases item, 2
  {
    match item
    case Bind(x, v) => if x == s then Some(v) else None
    case Nested(items) => Leak(items, s)
  }

  /** The value a run has changed `s` to just before its own last insert of `s`. */
  function BeforeLast<V>(items: seq<Item<V>>, s: Spur): Option<V>
    decreases items, 0
  {
    if items == [] || s !in Bound(items[1..]) then None
    else Now(ItemLeft(items[0], s), BeforeLast(items[1..], s))
  }

  /** What a scope leaves behind in `s`: for a symbol it inserts, the change just before the last insert;
      for any other, whatever its inner scopes leak. */
  function Leak<V>(items: seq<Item<V>>, s: Spur): Option<V>
    decreases items, 1
  {
    if s in Bound(items) then BeforeLast(items, s) else Left(items, s)
  }

  lemma {:induction false} ConsEntry<V>(e: (Spur, Option<V>), es: Entries<V>, s: Spur)
    ensures LastEntry([e] + es, s) ==
      if LastEntry(es, s).Some? then LastEntry(es, s) else if e.0 == s then Some(e.1) else None
  {
    if es == [] {
      assert [e] + es == [e];
    } else {
      assert ([e] + es)[..|es|] == [e] + es[..|es| - 1];
      ConsEntry(e, es[..|es| - 1], s);
    }
  }

  /** The binding of `s` after a run, and the last one the run recorded. */
  lemma {:induction false} RunBinding<V>(c: Context<V>, items: seq<Item<V>>, s: Spur)
    ensures Lookup(Run(c, items).locals, s) == Now(Lookup(c.locals, s), Left(items, s))
    ensures LastEntry(Recorded(c, items), s) ==
      if s in Bound(items) then Some(Now(Lookup(c.locals, s), BeforeLast(items, s))) else None
    decreases items, 0
  {
    if items != [] {
      var c' := RunItem(c, items[0]);
      ItemBinding(c, items[0], s);
      RunBinding(c', items[1..], s);
      match items[0] {
        case Bind(x, _) => ConsEntry((x, Lookup(c.locals, x)), Recorded(c', items[1..]), s);
        case Nested(_) =>
          assert [] + Recorded(c', items[1..]) == Recorded(c', items[1..]);
          assert [] + Bound(items[1..]) == Bound(items[1..]);
      }
    }
  }

  lemma {:induction false} ItemBinding<V>(c: Context<V>, item: Item<V>, s: Spur)
    ensures Lookup(RunItem(c, item).locals, s) == Now(Lookup(c.locals, s), ItemLeft(item, s))
    decreases item, 1
  {
    match item
    case Bind(_, _) =>
    case Nested(items) =>
      assert item == Nested(items);
      RunBinding(Push(c), items, s);
      ScopeResult(c, items, s);
  }

  lemma SameLocals<V>(a: map<Spur, V>, b: map<Spur, V>)
    requires forall s :: Lookup(a, s) == Lookup(b, s)
    ensures a == b
  {
    assert forall s :: s in a <==> Lookup(a, s).Some?;
    assert forall s :: s in b <==> Lookup(b, s).Some?;
    forall s | s in a ensures s in b && a[s] == b[s] { assert Lookup(a, s) == Lookup(b, s); }
    forall s | s in b ensures s in a { assert Lookup(a, s) == Lookup(b, s); }
  }

  /** Any scope restores the bindings exactly when every value it leaks is the binding the symbol
      started with. */
  lemma ScopeRestoresExactly<V>(c: Context<V>, items: seq<Item<V>>)
    ensures RunItem(c, Nested(items)).locals == c.locals <==>
      forall s :: Leak(items, s).Some? ==> Lookup(c.locals, s) == Leak(items, s)
  {
    var c' := RunItem(c, Nested(items));
    forall s ensures Lookup(c'.locals, s) == Now(Lookup(c.locals, s), Leak(items, s)) {
      ItemBinding(c, Nested(items), s);
      assert ItemLeft(Nested(items), s) == Leak(items, s);
    }
    if forall s :: Leak(items, s).Some? ==> Lookup(c.locals, s) == Leak(items, s) {
      SameLocals(c'.locals, c.locals);
    }
  }

  // ---- Clean scopes --------------------------------------------------------------------------------

  /** No symbol is inserted twice in one scope, here or further in. */
  predicate Clean<V>(items: seq<Item<V>>)
    decreases items
  {
    items == [] || (CleanItem(items[0]) && (items[0].Bind? ==> items[0].symbol !in Bound(items[1..])) &&
      Clean(items[1..]))
  }

  predicate CleanItem<V>(item: Item<V>)
    decreases item
  {
    item.Nested? ==> Clean(item.items)
  }

  lemma BoundCons<V>(items: seq<Item<V>>, s: Spur)
    requires items != []
    ensures s in Bound(items) <==> (items[0].Bind? && items[0].symbol == s) || s in Bound(items[1..])
  {}

  lemma {:induction false} CleanLeaksNothing<V>(items: seq<Item<V>>, s: Spur)
    requires Clean(items)
    ensures Leak(items, s).None? && BeforeLast(items, s).None? && (s !in Bound(items) ==> Left(items, s).None?)
    decreases items, 0
  {
    if items != [] {
      CleanLeaksNothing(items[1..], s);
      BoundCons(items, s);
      if items[0].Nested? {
        CleanItemLeaksNothing(items[0], s);
      }
      assert BeforeLast(items, s).None?;
      if s !in Bound(items) {
        assert ItemLeft(items[0], s).None? && Left(items[1..], s).None?;
        assert Left(items, s).None?;
      }
    }
  }

  lemma {:induction false} CleanItemLeaksNothing<V>(item: Item<V>, s: Spur)
    requires item.Nested? && CleanItem(item)
    ensures ItemLeft(item, s).None?
    decreases item, 1
  {
    CleanLeaksNothing(item.items, s);
  }

  /** A scope in which, and in whose inner scopes, no symbol is inserted twice restores exactly the
      bindings and the stack it started from. */
  lemma CleanScopeIsNeutral<V>(c: Context<V>, items: seq<Item<V>>)
    requires Clean(items)
    ensures RunItem(c, Nested(items)) == c
  {
    forall s ensures Leak(items, s).None? { CleanLeaksNothing(items, s); }
    ScopeRestoresExactly(c, items);
    ScopeResult(c, items, 0);
  }

  // ---- Where it fails ---------------------------------------------------------------------------------

  const TWICE: seq<Item<int>> := [Bind(7, 1), Bind(7, 2)]

  lemma TwiceLeaks()
    ensures Leak(TWICE, 7) == Some(1)
  {
    assert TWICE[1..] == [Bind(7, 2)] && TWICE[1..][1..] == [];
    assert Bound(TWICE[1..]) == [7] + Bound(TWICE[1..][1..]) == [7];
    assert Bound(TWICE) == [7] + [7];
    assert BeforeLast(TWICE[1..], 7) == None;
  }

  /** `let x` twice in one scope around an unbound `x`: the first `x` survives the scope. */
  lemma RebindingExample()
    ensures Lookup(RunItem(Context(map[], []), Nested(TWICE)).locals, 7) == Some(1)
  {
    TwiceLeaks();
    ItemBinding(Context(map[], []), Nested(TWICE), 7);
  }

  /** A scope around that one binds nothing itself and is not restored either. */
  lemma InnerLeakExample()
    ensures Bound([Nested(TWICE)]) == []
    ensures RunItem(Context(map[], []), Nested([Nested(TWICE)])).locals != map[]
  {
    var c: Context<int>, outer: seq<Item<int>> := Context(map[], []), [Nested(TWICE)];
    TwiceLeaks();
    assert outer[1..] == [] && Left(outer[1..], 7) == None;
    assert Leak(outer, 7) == Left(outer, 7) == Some(1);
    ScopeRestoresExactly(c, outer);
  }
}
