/** Printed type names and the parsers that take them apart again. */
module TypeSyntax {
  import opened Bytes
  import opened Decimal

  /** The White_Space property of the Unicode Standard. */
  predicate IsSpace(c: char) {
    c == ' ' || '\t' <= c <= '\r' || c == '\U{85}' || c == '\U{A0}' || c == '\U{1680}' ||
    '\U{2000}' <= c <= '\U{200A}' || c == '\U{2028}' || c == '\U{2029}' || c == '\U{202F}' || c == '\U{205F}' ||
    c == '\U{3000}'
  }

  /** Which characters are letters and digits; the standard library's table is a parameter. */
  type Table = char -> bool

  predicate IsAscii(c: char) { 'a' <= c <= 'z' || 'A' <= c <= 'Z' || '0' <= c <= '9' }

  /** ASCII letters and digits are alphanumeric, brackets, separators and white space are not. */
  ghost predicate Alphabet(alnum: Table) {
    (forall c {:trigger alnum(c)} :: IsAscii(c) ==> alnum(c)) &&
    (forall c {:trigger alnum(c)} :: alnum(c) ==> PlainChar(c) && !IsSpace(c))
  }

  predicate IsIdentChar(alnum: Table, c: char) { alnum(c) || c == '_' }

  predicate IsIdent(alnum: Table, s: string) { s != [] && forall i :: 0 <= i < |s| ==> IsIdentChar(alnum, s[i]) }

  // ---- Trimming --------------------------------------------------------------------------------------

  function TrimStart(s: string): string {
    if s != [] && IsSpace(s[0]) then TrimStart(s[1..]) else s
  }

  function TrimEnd(s: string): string {
    if s != [] && IsSpace(s[|s| - 1]) then TrimEnd(s[..|s| - 1]) else s
  }

  function Trim(s: string): string { TrimEnd(TrimStart(s)) }

  predicate Trimmed(s: string) { s != [] && !IsSpace(s[0]) && !IsSpace(s[|s| - 1]) }

  lemma TrimLeaves(s: string)
    requires Trimmed(s)
    ensures Trim(s) == s && Trim(" " + s) == s
  {
    assert (" " + s)[1..] == s;
  }

  predicate AllSpaces(s: string) { forall i :: 0 <= i < |s| ==> IsSpace(s[i]) }

  lemma {:induction false} TrimStartExact(s: string) returns (a: string)
    ensures s == a + TrimStart(s) && AllSpaces(a)
    ensures TrimStart(s) == [] || !IsSpace(TrimStart(s)[0])
  {
    if s != [] && IsSpace(s[0]) {
      var rest := TrimStartExact(s[1..]);
      a := [s[0]] + rest;
      Assoc([s[0]], rest, TrimStart(s));
    } else {
      a := [];
    }
  }

  lemma {:induction false} TrimEndExact(s: string) returns (b: string)
    ensures s == TrimEnd(s) + b && AllSpaces(b)
    ensures TrimEnd(s) == [] || !IsSpace(TrimEnd(s)[|TrimEnd(s)| - 1])
  {
    if s != [] && IsSpace(s[|s| - 1]) {
      var rest := TrimEndExact(s[..|s| - 1]);
      b := rest + [s[|s| - 1]];
      Assoc(TrimEnd(s), rest, [s[|s| - 1]]);
    } else {
      b := [];
    }
  }

  /** Trimming cuts white space off both ends, all of it and nothing else. */
  lemma TrimExact(s: string) returns (a: string, b: string)
    ensures s == a + Trim(s) + b && AllSpaces(a) && AllSpaces(b)
    ensures Trim(s) == [] || Trimmed(Trim(s))
  {
    a := TrimStartExact(s);
    b := TrimEndExact(TrimStart(s));
    Assoc(a, Trim(s), b);
    assert Trim(s) != [] ==> Trim(s)[0] == TrimStart(s)[0];
  }

  // ---- Nesting ---------------------------------------------------------------------------------------

  /** Reads `s` from `p` open parentheses and `b` open brackets. Fails if something closes that is not
      open, on a comma outside everything, and on a semicolon outside brackets. */
  function Walk(s: string, p: nat, b: nat): Option<(nat, nat)> {
    if s == [] then Some((p, b))
    else match s[0]
      case '(' => Walk(s[1..], p + 1, b)
      case ')' => if p == 0 then None else Walk(s[1..], p - 1, b)
      case '[' => Walk(s[1..], p, b + 1)
      case ']' => if b == 0 then None else Walk(s[1..], p, b - 1)
      case ',' => if p + b == 0 then None else Walk(s[1..], p, b)
      case ';' => if b == 0 then None else Walk(s[1..], p, b)
      case _ => Walk(s[1..], p, b)
  }

  /** A name that can stand as a component: trimmed, nested properly, separators only inside. */
  predicate Clean(s: string) { Trimmed(s) && Walk(s, 0, 0) == Some((0, 0)) }

  lemma {:induction false} WalkLift(s: string, p: nat, b: nat, dp: nat, db: nat)
    requires Walk(s, p, b).Some?
    ensures Walk(s, p + dp, b + db) == Some((Walk(s, p, b).value.0 + dp, Walk(s, p, b).value.1 + db))
  {
    if s != [] {
      var p' := if s[0] == '(' then p + 1 else if s[0] == ')' then p - 1 else p;
      var b' := if s[0] == '[' then b + 1 else if s[0] == ']' then b - 1 else b;
      WalkLift(s[1..], p', b', dp, db);
    }
  }

  lemma {:induction false} WalkJoin(s: string, t: string, p: nat, b: nat)
    requires Walk(s, p, b).Some?
    ensures Walk(s + t, p, b) == Walk(t, Walk(s, p, b).value.0, Walk(s, p, b).value.1)
  {
    if s == [] {
      assert s + t == t;
    } else {
      assert (s + t)[0] == s[0] && (s + t)[1..] == s[1..] + t;
      var p' := if s[0] == '(' then p + 1 else if s[0] == ')' then p - 1 else p;
      var b' := if s[0] == '[' then b + 1 else if s[0] == ']' then b - 1 else b;
      WalkJoin(s[1..], t, p', b');
    }
  }

  /** Clean text is neutral at any depth. */
  lemma CleanWalks(s: string, t: string, p: nat, b: nat)
    requires Walk(s, 0, 0) == Some((0, 0))
    ensures Walk(s, p, b) == Some((p, b)) && Walk(s + t, p, b) == Walk(t, p, b)
  {
    WalkLift(s, 0, 0, p, b);
    WalkJoin(s, t, p, b);
  }

  predicate PlainChar(c: char) { c != '(' && c != ')' && c != '[' && c != ']' && c != ',' && c != ';' }

  lemma {:induction false} PlainWalks(s: string, p: nat, b: nat)
    requires forall i :: 0 <= i < |s| ==> PlainChar(s[i])
    ensures Walk(s, p, b) == Some((p, b))
  {
    if s != [] {
      assert PlainChar(s[0]);
      PlainWalks(s[1..], p, b);
    }
  }

  lemma IdentClean(alnum: Table, s: string)
    requires Alphabet(alnum) && IsIdent(alnum, s)
    ensures Clean(s)
  {
    assert IsIdentChar(alnum, s[0]) && IsIdentChar(alnum, s[|s| - 1]);
    forall i | 0 <= i < |s| ensures PlainChar(s[i]) { assert IsIdentChar(alnum, s[i]); }
    PlainWalks(s, 0, 0);
  }

  // ---- Arrays: `[T; N]` --------------------------------------------------------------------------------

  const U64_LIMIT: nat := 0x1_0000_0000_0000_0000

  /** An optional plus sign and digits, below 2^64. */
  function ParseU64(s: string): Option<nat> {
    match FromDec(if s != [] && s[0] == '+' then s[1..] else s)
    case None => None
    case Some(n) => if n < U64_LIMIT then Some(n) else None
  }

  /** Exactly the digit strings below 2^64, with or without a plus sign, are lengths. */
  lemma ParseU64Exact(s: string, n: nat)
    ensures ParseU64(s) == Some(n) <==>
            n < U64_LIMIT && (FromDec(s) == Some(n) || (s != [] && s[0] == '+' && FromDec(s[1..]) == Some(n)))
  {
    FromDecExact(s);
    assert s != [] && s[0] == '+' ==> !IsDigit(s[0]);
  }

  /** The position of the last semicolon outside brackets; `at` is the position of `s[0]`. */
  function LastSemi(s: string, at: nat, depth: int, pos: Option<nat>): Option<nat> {
    if s == [] then pos
    else match s[0]
      case '[' => LastSemi(s[1..], at + 1, depth + 1, pos)
      case ']' => LastSemi(s[1..], at + 1, depth - 1, pos)
      case ';' => LastSemi(s[1..], at + 1, depth, if depth == 0 then Some(at) else pos)
      case _ => LastSemi(s[1..], at + 1, depth, pos)
  }

  lemma {:induction false} LastSemiBound(s: string, at: nat, depth: int, pos: Option<nat>)
    requires pos.Some? ==> pos.value < at
    ensures LastSemi(s, at, depth, pos).Some? ==> LastSemi(s, at, depth, pos).value < at + |s|
  {
    if s != [] {
      var d := if s[0] == '[' then depth + 1 else if s[0] == ']' then depth - 1 else depth;
      LastSemiBound(s[1..], at + 1, d, if s[0] == ';' && depth == 0 then Some(at) else pos);
    }
  }

  predicate Bracketed(s: string, open: char, close: char) { |s| >= 2 && s[0] == open && s[|s| - 1] == close }

  function ParseArray(text: string): Option<(string, nat)> {
    var s := Trim(text);
    if !Bracketed(s, '[', ']') then None
    else
      var inner := s[1..|s| - 1];
      LastSemiBound(inner, 0, 0, None);
      match LastSemi(inner, 0, 0, None)
      case None => None
      case Some(k) =>
        match ParseU64(Trim(inner[k + 1..]))
        case None => None
        case Some(n) => Some((Trim(inner[..k]), n))
  }

  method ParseArrayTypeSyntax(text: string) returns (r: Option<(string, nat)>)
    ensures r == ParseArray(text)
  {
    var s := Trim(text);
    if |s| < 2 || s[0] != '[' || s[|s| - 1] != ']' {
      return None;
    }
    var inner := s[1..|s| - 1];
    var depth: int := 0;
    var pos: Option<nat> := None;
    assert inner[0..] == inner;
    for i := 0 to |inner|
      invariant LastSemi(inner[i..], i, depth, pos) == LastSemi(inner, 0, 0, None)
    {
      Tail(inner, i);
      var c := inner[i];
      if c == '[' { depth := depth + 1; }
      else if c == ']' { depth := depth - 1; }
      else if c == ';' && depth == 0 { pos := Some(i); }
    }
    if pos.None? {
      return None;
    }
    LastSemiBound(inner, 0, 0, None);
    var n := ParseU64(Trim(inner[pos.value + 1..]));
    if n.None? {
      return None;
    }
    r := Some((Trim(inner[..pos.value]), n.value));
  }

  /** Over properly nested text the array parser tracks the bracket depth and finds no separator. */
  lemma {:induction false} SemiSkips(s: string, t: string, at: nat, p: nat, b: nat, pos: Option<nat>)
    requires Walk(s, p, b).Some?
    ensures LastSemi(s + t, at, b, pos) == LastSemi(t, at + |s|, Walk(s, p, b).value.1, pos)
  {
    if s == [] {
      assert s + t == t;
    } else {
      assert (s + t)[0] == s[0] && (s + t)[1..] == s[1..] + t;
      var p' := if s[0] == '(' then p + 1 else if s[0] == ')' then p - 1 else p;
      var b' := if s[0] == '[' then b + 1 else if s[0] == ']' then b - 1 else b;
      SemiSkips(s[1..], t, at + 1, p', b', pos);
    }
  }

  lemma {:induction false} SemiPlain(s: string, at: nat, depth: int, pos: Option<nat>)
    requires forall i :: 0 <= i < |s| ==> PlainChar(s[i])
    ensures LastSemi(s, at, depth, pos) == pos
  {
    if s != [] {
      assert PlainChar(s[0]);
      SemiPlain(s[1..], at + 1, depth, pos);
    }
  }

  function ArrayName(element: string, len: nat): string { "[" + element + "; " + ToDec(len) + "]" }

  lemma NumeralPlain(n: nat)
    ensures Trimmed(ToDec(n)) && forall i :: 0 <= i < |ToDec(n)| ==> PlainChar(ToDec(n)[i])
  {
    var d := ToDec(n);
    assert IsDigit(d[0]) && IsDigit(d[|d| - 1]);
    forall i | 0 <= i < |d| ensures PlainChar(d[i]) { assert IsDigit(d[i]); }
  }

  lemma NumeralParses(n: nat)
    ensures ParseU64(ToDec(n)) == if n < U64_LIMIT then Some(n) else None
  {
    FromToDec(n);
    assert IsDigit(ToDec(n)[0]);
  }

  lemma SemiThenPlain(d: string, at: nat)
    requires forall i :: 0 <= i < |d| ==> PlainChar(d[i])
    ensures LastSemi("; " + d, at, 0, None) == Some(at)
  {
    var rest := "; " + d;
    assert rest[0] == ';' && rest[1..] == [' '] + d;
    forall i | 0 <= i < |[' '] + d| ensures PlainChar(([' '] + d)[i]) {}
    SemiPlain([' '] + d, at + 1, 0, Some(at));
  }

  lemma {:induction false} ArraySemi(e: string, rest: string, d: string)
    requires Walk(e, 0, 0) == Some((0, 0)) && rest == "; " + d && forall i :: 0 <= i < |d| ==> PlainChar(d[i])
    ensures LastSemi(e + rest, 0, 0, None) == Some(|e|)
  {
    SemiThenPlain(d, |e|);
    SemiSkips(e, rest, 0, 0, 0, None);
  }

  lemma ArrayShape(e: string, d: string)
    ensures var s, inner := "[" + e + "; " + d + "]", e + ("; " + d);
      Bracketed(s, '[', ']') && Trimmed(s) && s[1..|s| - 1] == inner && inner[..|e|] == e && inner[|e| + 1..] == " " + d
  {
    assert "[" + e + "; " + d + "]" == "[" + (e + ("; " + d)) + "]";
  }

  /** The element name and the length of a printed array come back exactly; a length of 2^64 or more,
      which no array has, would not parse. */
  lemma ArrayRoundTrip(e: string, n: nat)
    requires Clean(e)
    ensures ParseArray(ArrayName(e, n)) == if n < U64_LIMIT then Some((e, n)) else None
  {
    ArrayShape(e, ToDec(n));
    TrimLeaves(ArrayName(e, n));
    NumeralPlain(n);
    ArraySemi(e, "; " + ToDec(n), ToDec(n));
    TrimLeaves(e);
    TrimLeaves(ToDec(n));
    NumeralParses(n);
  }

  lemma ArrayClean(e: string, n: nat)
    requires Clean(e)
    ensures Clean(ArrayName(e, n))
  {
    var d := ToDec(n);
    var s := ArrayName(e, n);
    NumeralPlain(n);
    PlainWalks(d, 0, 0);
    assert s == "[" + (e + ("; " + (d + "]")));
    assert s[0] == '[' && s[|s| - 1] == ']' && s[1..] == e + ("; " + (d + "]"));
    CleanWalks(e, "; " + (d + "]"), 0, 1);
    assert ("; " + (d + "]"))[0] == ';' && ("; " + (d + "]"))[1..] == " " + (d + "]");
    assert (" " + (d + "]"))[0] == ' ' && (" " + (d + "]"))[1..] == d + "]";
    CleanWalks(d, "]", 0, 1);
    assert Walk("]", 0, 1) == Some((0, 0)) by { assert "]"[1..] == []; }
  }

  // ---- Lists of components ------------------------------------------------------------------------------

  /** Components separated by `, `. */
  function Join(es: seq<string>): string {
    if es == [] then [] else if |es| == 1 then es[0] else es[0] + ", " + Join(es[1..])
  }

  ghost predicate AllClean(es: seq<string>) { forall i :: 0 <= i < |es| ==> Clean(es[i]) }

  lemma JoinShape(es: seq<string>)
    requires AllClean(es) && |es| > 1
    ensures Join(es) == es[0] + (", " + Join(es[1..]))
  {}

  lemma {:induction false} JoinTrimmed(es: seq<string>)
    requires AllClean(es) && es != []
    ensures Trimmed(Join(es))
  {
    assert Clean(es[0]);
    if |es| > 1 {
      JoinTrimmed(es[1..]);
      JoinShape(es);
      var t := Join(es[1..]);
      assert Join(es)[|Join(es)| - 1] == t[|t| - 1] && Join(es)[0] == es[0][0];
    }
  }

  /** Inside parentheses a list is neutral. */
  lemma {:induction false} JoinWalks(es: seq<string>, t: string, p: nat, b: nat)
    requires AllClean(es) && p > 0
    ensures Walk(Join(es) + t, p, b) == Walk(t, p, b)
  {
    if es == [] {
      assert [] + t == t;
    } else if |es| == 1 {
      CleanWalks(es[0], t, p, b);
    } else {
      var u := Join(es[1..]) + t;
      assert Join(es) + t == es[0] + (", " + u) by { JoinShape(es); }
      CleanWalks(es[0], ", " + u, p, b);
      assert (", " + u)[0] == ',' && (", " + u)[1..] == " " + u && (" " + u)[0] == ' ' && (" " + u)[1..] == u;
      JoinWalks(es[1..], t, p, b);
    }
  }

  // ---- Type calls: `Name(T, U)` -------------------------------------------------------------------------

  function FindOpen(s: string): Option<nat> {
    if s == [] then None
    else if s[0] == '(' then Some(0)
    else match FindOpen(s[1..]) case None => None case Some(k) => Some(k + 1)
  }

  lemma {:induction false} FindOpenBound(s: string)
    ensures FindOpen(s).Some? ==> FindOpen(s).value < |s| && s[FindOpen(s).value] == '('
  {
    if s != [] {
      FindOpenBound(s[1..]);
    }
  }

  /** The arguments and what is left over after the last comma outside all nesting. */
  function SplitArgs(s: string, depth: int, current: string, args: seq<string>): (seq<string>, string) {
    if s == [] then (args, current)
    else match s[0]
      case '(' => SplitArgs(s[1..], depth + 1, current + [s[0]], args)
      case '[' => SplitArgs(s[1..], depth + 1, current + [s[0]], args)
      case ')' => SplitArgs(s[1..], depth - 1, current + [s[0]], args)
      case ']' => SplitArgs(s[1..], depth - 1, current + [s[0]], args)
      case ',' =>
        if depth == 0 then SplitArgs(s[1..], depth, [], args + [Trim(current)])
        else SplitArgs(s[1..], depth, current + [s[0]], args)
      case _ => SplitArgs(s[1..], depth, current + [s[0]], args)
  }

  function ParseTypeCall(alnum: Table, text: string): Option<(string, seq<string>)> {
    var s := Trim(text);
    if s == [] || s[|s| - 1] != ')' || FindOpen(s).None? then None
    else
      FindOpenBound(s);
      var open := FindOpen(s).value;
      var callee := Trim(s[..open]);
      if !IsIdent(alnum, callee) then None
      else
        var (args, current) := SplitArgs(s[open + 1..|s| - 1], 0, [], []);
        var all := if Trim(current) != [] then args + [Trim(current)] else args;
        if all == [] then None else Some((callee, all))
  }

  method ParseTypeCallSyntax(alnum: Table, text: string) returns (r: Option<(string, seq<string>)>)
    ensures r == ParseTypeCall(alnum, text)
  {
    var s := Trim(text);
    if s == [] || s[|s| - 1] != ')' {
      return None;
    }
    var open := FindOpen(s);
    if open.None? {
      return None;
    }
    FindOpenBound(s);
    var callee := Trim(s[..open.value]);
    if !IsIdent(alnum, callee) {
      return None;
    }
    var inner := s[open.value + 1..|s| - 1];
    var args, current := SplitTopLevel(inner);
    var trimmed := Trim(current);
    if trimmed != [] {
      args := args + [trimmed];
    }
    r := if args == [] then None else Some((callee, args));
  }

  method SplitTopLevel(inner: string) returns (args: seq<string>, current: string)
    ensures (args, current) == SplitArgs(inner, 0, [], [])
  {
    args, current := [], [];
    var depth: int := 0;
    assert inner[0..] == inner;
    for i := 0 to |inner|
      invariant SplitArgs(inner[i..], depth, current, args) == SplitArgs(inner, 0, [], [])
    {
      Tail(inner, i);
      var c := inner[i];
      if c == '(' || c == '[' {
        depth, current := depth + 1, current + [c];
      } else if c == ')' || c == ']' {
        depth, current := depth - 1, current + [c];
      } else if c == ',' && depth == 0 {
        args, current := args + [Trim(current)], [];
      } else {
        current := current + [c];
      }
    }
  }

  /** Properly nested text goes to the current argument whole. */
  lemma {:induction false} ArgsSkip(s: string, t: string, p: nat, b: nat, current: string, args: seq<string>)
    requires Walk(s, p, b).Some?
    ensures SplitArgs(s + t, p + b, current, args) ==
      SplitArgs(t, Walk(s, p, b).value.0 + Walk(s, p, b).value.1, current + s, args)
  {
    if s == [] {
      assert s + t == t && current + s == current;
    } else {
      assert (s + t)[0] == s[0] && (s + t)[1..] == s[1..] + t;
      var p' := if s[0] == '(' then p + 1 else if s[0] == ')' then p - 1 else p;
      var b' := if s[0] == '[' then b + 1 else if s[0] == ']' then b - 1 else b;
      ArgsSkip(s[1..], t, p', b', current + [s[0]], args);
      assert current + [s[0]] + s[1..] == current + s;
    }
  }

  lemma LedTrims(lead: string, e: string)
    requires Clean(e) && (lead == "" || lead == " ")
    ensures Trim(lead + e) == e && e != []
  {
    TrimLeaves(e);
    assert "" + e == e;
  }

  lemma MoveHead<T>(done: seq<T>, es: seq<T>)
    requires es != []
    ensures done + [es[0]] + es[1..] == done + es
  {}

  lemma ArgsOne(e: string, lead: string, args: seq<string>)
    requires Clean(e)
    ensures SplitArgs(e, 0, lead, args) == (args, lead + e)
  {
    assert e + [] == e;
    ArgsSkip(e, [], 0, 0, lead, args);
  }

  lemma ArgsStep(es: seq<string>, lead: string, args: seq<string>)
    requires AllClean(es) && |es| > 1 && (lead == "" || lead == " ")
    ensures SplitArgs(Join(es), 0, lead, args) == SplitArgs(Join(es[1..]), 0, " ", args + [es[0]])
  {
    LedTrims(lead, es[0]);
    JoinShape(es);
    ArgsSkip(es[0], ", " + Join(es[1..]), 0, 0, lead, args);
    CommaSplits(Join(es[1..]), lead + es[0], args);
  }

  /** What splitting a printed list gives, after a part `lead` of spaces at most. */
  lemma {:induction false} ArgsOfJoin(es: seq<string>, lead: string, args: seq<string>)
    requires AllClean(es) && es != [] && (lead == "" || lead == " ")
    ensures var (found, current) := SplitArgs(Join(es), 0, lead, args);
      Trim(current) != [] && found + [Trim(current)] == args + es
  {
    if |es| == 1 {
      ArgsOne(es[0], lead, args);
      LedTrims(lead, es[0]);
      assert es == [es[0]];
      assert args + es == args + [es[0]];
    } else {
      ArgsStep(es, lead, args);
      ArgsOfJoin(es[1..], " ", args + [es[0]]);
      MoveHead(args, es);
    }
  }

  lemma CommaSplits(t: string, current: string, args: seq<string>)
    ensures SplitArgs(", " + t, 0, current, args) == SplitArgs(t, 0, " ", args + [Trim(current)])
  {
    var rest := ", " + t;
    assert rest[0] == ',' && rest[1..] == " " + t;
    assert (" " + t)[0] == ' ' && (" " + t)[1..] == t;
    assert [] + [' '] == " ";
  }

  function CallName(callee: string, es: seq<string>): string { callee + "(" + Join(es) + ")" }

  lemma {:induction false} FindOpenAfter(callee: string, t: string)
    requires forall i :: 0 <= i < |callee| ==> callee[i] != '('
    ensures FindOpen(callee + ("(" + t)) == Some(|callee|)
  {
    var s := callee + ("(" + t);
    if callee == [] {
      assert s == "(" + t && s[0] == '(';
    } else {
      assert s[0] == callee[0] && s[1..] == callee[1..] + ("(" + t);
      FindOpenAfter(callee[1..], t);
    }
  }

  lemma CallShape(alnum: Table, callee: string, list: string)
    requires Alphabet(alnum) && IsIdent(alnum, callee)
    ensures var s := callee + "(" + list + ")";
      Trimmed(s) && s[|s| - 1] == ')' && s[..|callee|] == callee && s[|callee| + 1..|s| - 1] == list &&
      FindOpen(s) == Some(|callee|)
  {
    var s := callee + "(" + list + ")";
    assert s == callee + ("(" + (list + ")"));
    assert IsIdentChar(alnum, callee[0]) && s[0] == callee[0];
    forall i | 0 <= i < |callee| ensures callee[i] != '(' { assert IsIdentChar(alnum, callee[i]); }
    FindOpenAfter(callee, list + ")");
  }

  /** The callee and every argument of a printed type call come back exactly. */
  lemma CallRoundTrip(alnum: Table, callee: string, es: seq<string>)
    requires Alphabet(alnum) && IsIdent(alnum, callee) && AllClean(es) && es != []
    ensures ParseTypeCall(alnum, CallName(callee, es)) == Some((callee, es))
  {
    CallShape(alnum, callee, Join(es));
    TrimLeaves(CallName(callee, es));
    IdentClean(alnum, callee);
    TrimLeaves(callee);
    ArgsOfJoin(es, "", []);
    assert [] + es == es;
  }

  lemma CallClean(alnum: Table, callee: string, es: seq<string>)
    requires Alphabet(alnum) && IsIdent(alnum, callee) && AllClean(es)
    ensures Clean(CallName(callee, es))
  {
    CallShape(alnum, callee, Join(es));
    IdentClean(alnum, callee);
    var t := "(" + (Join(es) + ")");
    assert CallName(callee, es) == callee + t;
    CleanWalks(callee, t, 0, 0);
    assert t[0] == '(' && t[1..] == Join(es) + ")";
    JoinWalks(es, ")", 1, 0);
    assert Walk(")", 1, 0) == Some((0, 0)) by { assert ")"[1..] == []; }
  }

  // ---- Tuples: `(T, U)` and `(T,)` ------------------------------------------------------------------------

  /** The parts between commas outside all nesting, and what follows the last of them. */
  function SplitParts(s: string, p: int, b: int, current: string, parts: seq<string>): (seq<string>, string) {
    if s == [] then (parts, current)
    else match s[0]
      case '(' => SplitParts(s[1..], p + 1, b, current + [s[0]], parts)
      case ')' => SplitParts(s[1..], p - 1, b, current + [s[0]], parts)
      case '[' => SplitParts(s[1..], p, b + 1, current + [s[0]], parts)
      case ']' => SplitParts(s[1..], p, b - 1, current + [s[0]], parts)
      case ',' =>
        if p == 0 && b == 0 then SplitParts(s[1..], p, b, [], parts + [Trim(current)])
        else SplitParts(s[1..], p, b, current + [s[0]], parts)
      case _ => SplitParts(s[1..], p, b, current + [s[0]], parts)
  }

  function ParseTuple(text: string): Option<seq<string>> {
    var s := Trim(text);
    if !Bracketed(s, '(', ')') then None
    else
      var inner := Trim(s[1..|s| - 1]);
      var (parts, current) := SplitParts(inner, 0, 0, [], []);
      var all := if Trim(current) != [] then parts + [Trim(current)] else parts;
      if inner == [] || parts == [] || [] in all then None else Some(all)
  }

  method ParseTupleTypeSyntax(text: string) returns (r: Option<seq<string>>)
    ensures r == ParseTuple(text)
  {
    var s := Trim(text);
    if |s| < 2 || s[0] != '(' || s[|s| - 1] != ')' {
      return None;
    }
    var inner := Trim(s[1..|s| - 1]);
    if inner == [] {
      return None;
    }
    var parts, last := SplitOnCommas(inner);
    var tail := Trim(inner[last..]);
    if parts == [] {
      return None;
    }
    if tail != [] {
      parts := parts + [tail];
    }
    if exists k :: 0 <= k < |parts| && parts[k] == [] {
      return None;
    }
    r := Some(parts);
  }

  method SplitOnCommas(inner: string) returns (parts: seq<string>, last: nat)
    ensures last <= |inner| && (parts, inner[last..]) == SplitParts(inner, 0, 0, [], [])
  {
    parts, last := [], 0;
    var p: int, b: int := 0, 0;
    assert inner[0..] == inner && inner[0..0] == [];
    for i := 0 to |inner|
      invariant last <= i
      invariant SplitParts(inner[i..], p, b, inner[last..i], parts) == SplitParts(inner, 0, 0, [], [])
    {
      Tail(inner, i);
      var c := inner[i];
      assert inner[last..i + 1] == inner[last..i] + [c];
      if c == '(' { p := p + 1; }
      else if c == ')' { p := p - 1; }
      else if c == '[' { b := b + 1; }
      else if c == ']' { b := b - 1; }
      else if c == ',' && p == 0 && b == 0 {
        parts := parts + [Trim(inner[last..i])];
        last := i + 1;
        assert inner[last..i + 1] == [];
      }
    }
    assert inner[last..|inner|] == inner[last..];
  }

  lemma {:induction false} PartsSkip(s: string, t: string, p: nat, b: nat, current: string, parts: seq<string>)
    requires Walk(s, p, b).Some?
    ensures SplitParts(s + t, p, b, current, parts) ==
      SplitParts(t, Walk(s, p, b).value.0, Walk(s, p, b).value.1, current + s, parts)
  {
    if s == [] {
      assert s + t == t && current + s == current;
    } else {
      assert (s + t)[0] == s[0] && (s + t)[1..] == s[1..] + t;
      var p' := if s[0] == '(' then p + 1 else if s[0] == ')' then p - 1 else p;
      var b' := if s[0] == '[' then b + 1 else if s[0] == ']' then b - 1 else b;
      PartsSkip(s[1..], t, p', b', current + [s[0]], parts);
      assert current + [s[0]] + s[1..] == current + s;
    }
  }

  lemma CommaParts(t: string, current: string, parts: seq<string>)
    ensures SplitParts(", " + t, 0, 0, current, parts) == SplitParts(t, 0, 0, " ", parts + [Trim(current)])
  {
    var rest := ", " + t;
    assert rest[0] == ',' && rest[1..] == " " + t;
    assert (" " + t)[0] == ' ' && (" " + t)[1..] == t;
    assert [] + [' '] == " ";
  }

  lemma PartsOne(e: string, lead: string, parts: seq<string>)
    requires Clean(e)
    ensures SplitParts(e, 0, 0, lead, parts) == (parts, lead + e)
  {
    assert e + [] == e;
    PartsSkip(e, [], 0, 0, lead, parts);
  }

  lemma PartsStep(es: seq<string>, lead: string, parts: seq<string>)
    requires AllClean(es) && |es| > 1 && (lead == "" || lead == " ")
    ensures SplitParts(Join(es), 0, 0, lead, parts) == SplitParts(Join(es[1..]), 0, 0, " ", parts + [es[0]])
  {
    LedTrims(lead, es[0]);
    JoinShape(es);
    PartsSkip(es[0], ", " + Join(es[1..]), 0, 0, lead, parts);
    CommaParts(Join(es[1..]), lead + es[0], parts);
  }

  lemma {:induction false} PartsOfJoin(es: seq<string>, lead: string, parts: seq<string>)
    requires AllClean(es) && es != [] && (lead == "" || lead == " ")
    ensures var (found, current) := SplitParts(Join(es), 0, 0, lead, parts);
      |found| == |parts| + |es| - 1 && Trim(current) != [] && found + [Trim(current)] == parts + es
  {
    if |es| == 1 {
      PartsOne(es[0], lead, parts);
      LedTrims(lead, es[0]);
      assert es == [es[0]];
      assert parts + es == parts + [es[0]];
    } else {
      PartsStep(es, lead, parts);
      PartsOfJoin(es[1..], " ", parts + [es[0]]);
      MoveHead(parts, es);
    }
  }

  /** A one-element tuple keeps its trailing comma. */
  function TupleInner(es: seq<string>): string { if |es| == 1 then es[0] + "," else Join(es) }

  function TupleName(es: seq<string>): string { "(" + TupleInner(es) + ")" }

  lemma {:induction false} JoinSnoc(es: seq<string>, e: string)
    requires es != []
    ensures Join(es + [e]) == Join(es) + (", " + e)
  {
    if |es| == 1 {
      assert (es + [e])[1..] == [e];
    } else {
      assert (es + [e])[1..] == es[1..] + [e];
      JoinSnoc(es[1..], e);
      assert es[0] + ", " + (Join(es[1..]) + (", " + e)) == (es[0] + ", " + Join(es[1..])) + (", " + e);
    }
  }

  const ANON_PREFIX: string := "__anon_struct_"

  /** An anonymous struct whose fields are named 0, 1, 2 and so on. */
  predicate TupleShaped(structName: string, fields: seq<string>) {
    ANON_PREFIX <= structName && fields != [] && forall i :: 0 <= i < |fields| ==> fields[i] == ToDec(i)
  }

  method TupleDisplayName(structName: string, fields: seq<string>, types: seq<string>) returns (r: Option<string>)
    requires |fields| == |types|
    ensures r == if TupleShaped(structName, fields) then Some(TupleName(types)) else None
  {
    if !TupleShaped(structName, fields) {
      return None;
    }
    var s := "(";
    for i := 0 to |types|
      invariant s == "(" + Join(types[..i])
    {
      assert types[..i + 1] == types[..i] + [types[i]];
      if i > 0 {
        JoinSnoc(types[..i], types[i]);
        s := s + ", ";
      }
      s := s + types[i];
    }
    assert types[..|types|] == types;
    assert |types| == 1 ==> s + "," == "(" + TupleInner(types);
    if |types| == 1 {
      s := s + ",";
    }
    r := Some(s + ")");
  }

  lemma TupleInnerTrimmed(es: seq<string>)
    requires AllClean(es) && es != []
    ensures Trimmed(TupleInner(es))
  {
    JoinTrimmed(es);
  }

  lemma OneSplits(e: string)
    requires Clean(e)
    ensures SplitParts(e + ",", 0, 0, [], []) == ([e], []) && Trim("") == ""
  {
    TrimLeaves(e);
    PartsSkip(e, ",", 0, 0, [], []);
    assert ","[1..] == [] && [] + e == e && [] + [e] == [e];
  }

  /** Splitting the inside of a printed tuple gives its elements. */
  lemma TupleSplits(es: seq<string>)
    requires AllClean(es) && es != []
    ensures var (parts, current) := SplitParts(TupleInner(es), 0, 0, [], []);
      parts != [] && (if Trim(current) != [] then parts + [Trim(current)] else parts) == es
  {
    if |es| == 1 {
      OneSplits(es[0]);
      assert es == [es[0]];
    } else {
      PartsOfJoin(es, "", []);
      assert [] + es == es;
    }
  }

  /** Every element of a printed tuple comes back exactly, at any arity from one up. */
  lemma TupleRoundTrip(es: seq<string>)
    requires AllClean(es) && es != []
    ensures ParseTuple(TupleName(es)) == Some(es)
  {
    var s, inner := TupleName(es), TupleInner(es);
    TupleInnerTrimmed(es);
    assert s[0] == '(' && s[|s| - 1] == ')' && s[1..|s| - 1] == inner;
    TrimLeaves(s);
    TrimLeaves(inner);
    TupleSplits(es);
    forall i | 0 <= i < |es| ensures es[i] != [] { assert Clean(es[i]); }
  }

  lemma TupleClean(es: seq<string>)
    requires AllClean(es) && es != []
    ensures Clean(TupleName(es))
  {
    var s := TupleName(es);
    assert s[0] == '(' && s[|s| - 1] == ')' && s[1..] == TupleInner(es) + ")";
    assert Walk(")", 1, 0) == Some((0, 0)) by { assert ")"[1..] == []; }
    if |es| == 1 {
      assert Clean(es[0]);
      assert TupleInner(es) + ")" == es[0] + ",)";
      CleanWalks(es[0], ",)", 1, 0);
      assert ",)"[1..] == ")";
    } else {
      JoinWalks(es, ")", 1, 0);
    }
  }
}
