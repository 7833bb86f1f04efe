/** The printed names of the pool's types, and how the parsers take them apart. */
module TypeNames {
  import opened Bytes
  import opened Types
  import opened Decimal
  import opened DropNames
  import opened TypeSyntax

  function Wrapper(t: Type): Option<string> {
    match t
    case PtrConst(_) => Some("Ptr") case PtrMut(_) => Some("MutPtr")
    case Ref(_) => Some("Ref") case MutRef(_) => Some("MutRef")
    case Slice(_) => Some("Slice") case MutSlice(_) => Some("MutSlice")
    case Vec(_) => Some("Vec")
    case _ => None
  }

  function Around(callee: string, inner: string): string { callee + "(" + inner + ")" }

  function FormatTypeName(p: Pool, t: Type): string
    requires Backward(p) && ValidType(p, t) && Nameable(p, t)
    decreases Above(t)
  {
    match t
    case Prim(x) => PrimName(x)
    case Struct(id) => p[id].structDef.name
    case Enum(id) => p[id].enumDef.name
    case Module(_) => "<module>"
    case Interface(id) => "<interface#" + ToDec(id) + ">"
    case Array(id) => "[" + FormatTypeName(p, TargetType(p, id)) + "; " + ToDec(p[id].len) + "]"
    case PtrConst(id) => Around("Ptr", FormatTypeName(p, TargetType(p, id)))
    case PtrMut(id) => Around("MutPtr", FormatTypeName(p, TargetType(p, id)))
    case Ref(id) => Around("Ref", FormatTypeName(p, TargetType(p, id)))
    case MutRef(id) => Around("MutRef", FormatTypeName(p, TargetType(p, id)))
    case Slice(id) => Around("Slice", FormatTypeName(p, TargetType(p, id)))
    case MutSlice(id) => Around("MutSlice", FormatTypeName(p, TargetType(p, id)))
    case Vec(id) => Around("Vec", FormatTypeName(p, TargetType(p, id)))
  }

  /** Structs and enums have proper names: identifiers, or type calls and tuples of such. */
  ghost predicate CleanNames(p: Pool) {
    forall i :: 0 <= i < |p| ==>
      (p[i].StructData? ==> Clean(p[i].structDef.name)) && (p[i].EnumData? ==> Clean(p[i].enumDef.name))
  }

  lemma WrapperIdent(alnum: Table, t: Type)
    requires Alphabet(alnum) && Wrapper(t).Some?
    ensures IsIdent(alnum, Wrapper(t).value)
  {
    var s := Wrapper(t).value;
    forall i | 0 <= i < |s| ensures IsIdentChar(alnum, s[i]) { assert IsAscii(s[i]); }
  }

  /** ASCII letters and digits. */
  lemma AsciiAlphabet()
    ensures Alphabet(c => IsAscii(c))
  {}

  lemma WrapperName(p: Pool, t: Type)
    requires Backward(p) && ValidType(p, t) && Nameable(p, t) && Wrapper(t).Some?
    ensures FormatTypeName(p, t) == CallName(Wrapper(t).value, [FormatTypeName(p, TargetType(p, t.id))])
  {
    var inner := FormatTypeName(p, TargetType(p, t.id));
    assert Join([inner]) == inner;
  }

  lemma PlainClean(s: string)
    requires Trimmed(s) && forall i :: 0 <= i < |s| ==> PlainChar(s[i])
    ensures Clean(s)
  {
    PlainWalks(s, 0, 0);
  }

  lemma PrimNameTrimmed(x: Prim)
    ensures Trimmed(PrimName(x))
  {}

  predicate Unnested(s: string) { '(' !in s && ')' !in s && '[' !in s && ']' !in s }

  predicate Unseparated(s: string) { ',' !in s && ';' !in s }

  lemma NumberNameUnnested(x: Prim)
    requires PrimTag(x) < 14
    ensures Unnested(PrimName(x))
  {}

  lemma CNameUnnested(x: Prim)
    requires PrimTag(x) >= 21
    ensures Unnested(PrimName(x))
  {}

  lemma PrimNameUnnested(x: Prim)
    requires !x.Unit?
    ensures Unnested(PrimName(x))
  {
    if PrimTag(x) < 14 {
      NumberNameUnnested(x);
    } else if PrimTag(x) >= 21 {
      CNameUnnested(x);
    }
  }

  lemma CNameUnseparated(x: Prim)
    requires PrimTag(x) >= 21
    ensures Unseparated(PrimName(x))
  {}

  lemma PrimNameUnseparated(x: Prim)
    ensures Unseparated(PrimName(x))
  {
    if PrimTag(x) >= 21 {
      CNameUnseparated(x);
    }
  }

  lemma PrimNameClean(x: Prim)
    ensures Clean(PrimName(x))
  {
    if x.Unit? {
      assert "()"[1..] == ")" && ")"[1..] == [];
      assert Walk(")", 1, 0) == Some((0, 0));
    } else {
      var s := PrimName(x);
      PrimNameTrimmed(x);
      PrimNameUnnested(x);
      PrimNameUnseparated(x);
      forall i | 0 <= i < |s| ensures PlainChar(s[i]) { assert s[i] in s; }
      PlainClean(s);
    }
  }

  lemma InterfaceNameClean(id: nat)
    ensures Clean("<interface#" + ToDec(id) + ">")
  {
    NumeralPlain(id);
    PlainClean("<interface#" + ToDec(id) + ">");
  }

  /** Every printed name can stand as a component of another. */
  lemma {:induction false} NameClean(p: Pool, t: Type)
    requires Backward(p) && ValidType(p, t) && Nameable(p, t) && CleanNames(p)
    ensures Clean(FormatTypeName(p, t))
    decreases Above(t)
  {
    if t.Prim? {
      PrimNameClean(t.prim);
    } else if t.Module? {
      PlainClean("<module>");
    } else if t.Interface? {
      InterfaceNameClean(t.id);
    } else if t.Array? {
      NameClean(p, TargetType(p, t.id));
      ArrayClean(FormatTypeName(p, TargetType(p, t.id)), p[t.id].len);
    } else if Wrapper(t).Some? {
      NameClean(p, TargetType(p, t.id));
      AsciiAlphabet();
      WrapperIdent(c => IsAscii(c), t);
      WrapperName(p, t);
      CallClean(c => IsAscii(c), Wrapper(t).value, [FormatTypeName(p, TargetType(p, t.id))]);
    }
  }

  /** Parsing the printed name of an array gives its element's printed name and its length. */
  lemma ArrayNameParses(p: Pool, t: Type)
    requires Backward(p) && ValidType(p, t) && Nameable(p, t) && CleanNames(p) && t.Array? && p[t.id].len < U64_LIMIT
    ensures ParseArray(FormatTypeName(p, t)) == Some((FormatTypeName(p, TargetType(p, t.id)), p[t.id].len))
  {
    NameClean(p, TargetType(p, t.id));
    ArrayRoundTrip(FormatTypeName(p, TargetType(p, t.id)), p[t.id].len);
  }

  /** Parsing the printed name of a pointer, reference, slice or vector gives the constructor and
      the printed name of its target. */
  lemma WrapperNameParses(alnum: Table, p: Pool, t: Type)
    requires Alphabet(alnum)
    requires Backward(p) && ValidType(p, t) && Nameable(p, t) && CleanNames(p) && Wrapper(t).Some?
    ensures ParseTypeCall(alnum, FormatTypeName(p, t)) ==
      Some((Wrapper(t).value, [FormatTypeName(p, TargetType(p, t.id))]))
  {
    NameClean(p, TargetType(p, t.id));
    WrapperIdent(alnum, t);
    WrapperName(p, t);
    CallRoundTrip(alnum, Wrapper(t).value, [FormatTypeName(p, TargetType(p, t.id))]);
  }

  // ---- Tuples ----------------------------------------------------------------------------------------

  /** A tuple of pool types and of tuples, to any depth. */
  datatype TupleTree = Element(t: Type) | TupleOf(elems: seq<TupleTree>)

  predicate Displayable(p: Pool, tree: TupleTree)
    requires Backward(p)
  {
    match tree
    case Element(t) => ValidType(p, t) && Nameable(p, t)
    case TupleOf(es) => es != [] && forall i :: 0 <= i < |es| ==> Displayable(p, es[i])
  }

  function Display(p: Pool, tree: TupleTree): string
    requires Backward(p) && Displayable(p, tree)
    decreases tree, 1
  {
    match tree
    case Element(t) => FormatTypeName(p, t)
    case TupleOf(es) => TupleName(Displays(p, tree))
  }

  function Displays(p: Pool, tree: TupleTree): (names: seq<string>)
    requires Backward(p) && Displayable(p, tree) && tree.TupleOf?
    ensures |names| == |tree.elems|
    decreases tree, 0
  {
    seq(|tree.elems|, i requires 0 <= i < |tree.elems| => Display(p, tree.elems[i]))
  }

  /** Tuple display names nest properly too. */
  lemma {:induction false} DisplayClean(p: Pool, tree: TupleTree)
    requires Backward(p) && CleanNames(p) && Displayable(p, tree)
    ensures Clean(Display(p, tree))
    ensures tree.TupleOf? ==> AllClean(Displays(p, tree))
    decreases tree
  {
    match tree
    case Element(t) => NameClean(p, t);
    case TupleOf(es) =>
      forall i | 0 <= i < |es| ensures Clean(Displays(p, tree)[i]) { DisplayClean(p, es[i]); }
      TupleClean(Displays(p, tree));
  }

  /** A tuple of pool types and of other tuples, to any depth, parses into the display names of its elements. */
  lemma TupleNameParses(p: Pool, tree: TupleTree)
    requires Backward(p) && CleanNames(p) && Displayable(p, tree) && tree.TupleOf?
    ensures ParseTuple(Display(p, tree)) == Some(Displays(p, tree))
  {
    DisplayClean(p, tree);
    TupleRoundTrip(Displays(p, tree));
  }
}
