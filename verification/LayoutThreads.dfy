/** Layout queries from many threads. A query looks in the cache under one lock, reads the definition
    and asks for the parts' layouts under others, and stores its result under yet another; queries of
    other threads and interns may come in between. Every answer is the layout all the same. */
module LayoutThreads {
  import opened Bytes
  import opened Types
  import opened Layout
  import opened LayoutCache

  /** A query in progress, told apart by its thread. */
  type Query = (nat, Type)

  /** `answers` are the layouts handed out so far, `built` results that are computed and not yet stored. */
  datatype World = World(types: Pool, cache: Cache, answers: Cache, open: set<Query>, built: map<Query, Layout>)

  datatype Step =
    | Hit(q: Query)
    | Miss(q: Query)
    | Build(q: Query)
    | Store(q: Query)
    | Append(data: TypeData)

  /** The layout of `t` from its definition and the answers for its parts. */
  ghost function LayoutWith(p: Pool, t: Type, answers: Cache): Layout
    requires WellFormed(p) && ValidType(p, t) && PartsIn(p, t, answers)
  {
    if t.Struct? then
      var fs := Fields(p, t);
      StructLayout(seq(|fs|, j requires 0 <= j < |fs| => answers[fs[j]]))
    else if t.Enum? then
      var vs := Variants(p, t);
      EnumLayout(seq(|vs|, v requires 0 <= v < |vs| =>
                   seq(|vs[v]|, j requires 0 <= j < |vs[v]| => answers[vs[v][j]])), p[t.id].enumDef.isCLayout)
    else if t.Array? then
      ElementBelow(p, t);
      ArrayLayout(answers[ElementType(p, t.id)], p[t.id].len)
    else LeafLayout(t)
  }

  ghost predicate Enabled(w: World, step: Step)
    requires WellFormed(w.types)
  {
    match step
    case Hit(q) => q.1 in w.cache
    case Miss(q) => ValidType(w.types, q.1) && q.1 !in w.cache
    case Build(q) => q in w.open && ValidType(w.types, q.1) && PartsIn(w.types, q.1, w.answers)
    case Store(q) => q in w.built
    case Append(d) => WellFormed(w.types + [d])
  }

  ghost function Next(w: World, step: Step): World
    requires WellFormed(w.types) && Enabled(w, step)
  {
    match step
    case Hit(q) => w.(answers := w.answers[q.1 := w.cache[q.1]])
    case Miss(q) => w.(open := w.open + {q})
    case Build(q) => w.(open := w.open - {q}, built := w.built[q := LayoutWith(w.types, q.1, w.answers)])
    case Store(q) =>
      w.(cache := w.cache[q.1 := w.built[q]], answers := w.answers[q.1 := w.built[q]], built := w.built - {q})
    case Append(d) => w.(types := w.types + [d])
  }

  /** What a layout computed from right answers is. */
  lemma BuiltIsRight(p: Pool, t: Type, answers: Cache)
    requires WellFormed(p) && ValidType(p, t) && PartsIn(p, t, answers) && Agrees(p, answers)
    ensures LayoutWith(p, t, answers) == ComputeLayout(p, t)
  {
    if t.Struct? {
      var fs := Fields(p, t);
      forall j | 0 <= j < |fs| ensures answers[fs[j]] == FieldLayouts(p, t)[j] {
        assert EntryAgrees(p, answers, fs[j]);
      }
      assert seq(|fs|, j requires 0 <= j < |fs| => answers[fs[j]]) == FieldLayouts(p, t);
    } else if t.Enum? {
      VariantsRight(p, t, answers);
    } else if t.Array? {
      ElementBelow(p, t);
      assert EntryAgrees(p, answers, ElementType(p, t.id));
    }
  }

  lemma VariantsRight(p: Pool, t: Type, answers: Cache)
    requires WellFormed(p) && ValidType(p, t) && t.Enum? && PartsIn(p, t, answers) && Agrees(p, answers)
    ensures LayoutWith(p, t, answers) == ComputeLayout(p, t)
  {
    var vs := Variants(p, t);
    var ls := seq(|vs|, v requires 0 <= v < |vs| => seq(|vs[v]|, j requires 0 <= j < |vs[v]| => answers[vs[v][j]]));
    forall v | 0 <= v < |vs| ensures ls[v] == VariantLayouts(p, t)[v] {
      forall j | 0 <= j < |vs[v]| ensures ls[v][j] == VariantLayouts(p, t)[v][j] {
        assert EntryAgrees(p, answers, vs[v][j]);
      }
    }
    assert ls == VariantLayouts(p, t);
  }

  /** Stored, handed out and computed layouts are what an uncached computation gives. */
  ghost predicate Right(w: World) {
    WellFormed(w.types) && Agrees(w.types, w.cache) && Agrees(w.types, w.answers) &&
    forall q {:trigger q in w.built} :: q in w.built ==>
      ValidType(w.types, q.1) && w.built[q] == ComputeLayout(w.types, q.1)
  }

  lemma AgreesAppend(p: Pool, d: TypeData, c: Cache)
    requires WellFormed(p) && WellFormed(p + [d]) && Agrees(p, c)
    ensures Agrees(p + [d], c)
  {
    forall t | t in c ensures EntryAgrees(p + [d], c, t) {
      assert EntryAgrees(p, c, t);
      AppendKeepsLayout(p, d, t);
    }
  }

  lemma AgreesInsert(p: Pool, c: Cache, t: Type)
    requires WellFormed(p) && Agrees(p, c) && ValidType(p, t)
    ensures Agrees(p, c[t := ComputeLayout(p, t)])
  {
    var c' := c[t := ComputeLayout(p, t)];
    forall u | u in c' ensures EntryAgrees(p, c', u) { assert u in c ==> EntryAgrees(p, c, u); }
  }

  lemma StepKeepsRight(w: World, step: Step)
    requires Right(w) && Enabled(w, step)
    ensures Right(Next(w, step))
  {
    match step
    case Hit(q) =>
      assert EntryAgrees(w.types, w.cache, q.1);
      AgreesInsert(w.types, w.answers, q.1);
    case Miss(_) =>
    case Build(q) => BuiltIsRight(w.types, q.1, w.answers);
    case Store(q) =>
      AgreesInsert(w.types, w.cache, q.1);
      AgreesInsert(w.types, w.answers, q.1);
    case Append(d) =>
      AgreesAppend(w.types, d, w.cache);
      AgreesAppend(w.types, d, w.answers);
      forall q | q in w.built
        ensures ValidType(w.types + [d], q.1) && w.built[q] == ComputeLayout(w.types + [d], q.1)
      {
        AppendKeepsLayout(w.types, d, q.1);
      }
  }

  /** A run that starts with all definitions in place and nothing cached. */
  ghost predicate Runs(p: Pool, worlds: seq<World>, steps: seq<Step>) {
    WellFormed(p) && |worlds| == |steps| + 1 && worlds[0] == World(p, map[], map[], {}, map[]) &&
    forall i :: 0 <= i < |steps| ==>
      WellFormed(worlds[i].types) && Enabled(worlds[i], steps[i]) && worlds[i + 1] == Next(worlds[i], steps[i])
  }

  /** Under every interleaving, every answer handed out is what an uncached computation would give,
      then and after every later intern. */
  lemma {:induction false} AnswersAreLayouts(p: Pool, worlds: seq<World>, steps: seq<Step>, n: nat)
    requires Runs(p, worlds, steps) && n <= |steps|
    ensures Right(worlds[n])
  {
    if n > 0 {
      AnswersAreLayouts(p, worlds, steps, n - 1);
      StepKeepsRight(worlds[n - 1], steps[n - 1]);
    }
  }
}
