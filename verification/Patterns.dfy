/** Match patterns in the 32-bit `extra` array of an AIR body: the encoder, the decoder, the arm
    iterator, and the theorem that the code is self-delimiting. */
module Patterns {
  import opened Bytes

  type u32 = n: int | 0 <= n < 0x1_0000_0000
  type i64 = n: int | -0x8000_0000_0000_0000 <= n < 0x8000_0000_0000_0000

  /** The key of an interned string; keys start at 0 and the largest word is none. */
  type Symbol = n: int | 0 <= n < 0xFFFF_FFFF

  /** A list whose length survives the cast to `u32`. */
  type List<T> = s: seq<T> | |s| < 0x1_0000_0000

  datatype AirPattern =
    | Wildcard
    | Int(value: i64)
    | Bool(flag: bool)
    | EnumVariant(enumId: u32, variantIndex: u32)
    | Bind(name: Symbol, isMut: bool, inner: Option<AirPattern>)
    | Tuple(elems: List<AirPattern>)
    | Struct(structId: u32, members: List<FieldPattern>)
    | EnumDataVariant(enumId: u32, variantIndex: u32, elems: List<AirPattern>)
    | EnumStructVariant(enumId: u32, variantIndex: u32, members: List<FieldPattern>)
    | EnumUnitVariant(enumId: u32, variantIndex: u32)

  datatype FieldPattern = FieldPattern(index: u32, pattern: AirPattern)

  // ---- Integers -------------------------------------------------------------------------------

  function LowWord(n: i64): u32 { n % 0x1_0000_0000 }

  /** The arithmetic shift right by 32, truncated to a word. */
  function HighWord(n: i64): u32 { (n / 0x1_0000_0000) % 0x1_0000_0000 }

  /** The high word shifted left by 32 as a signed 64-bit number, or-ed with the low word. */
  function JoinWords(lo: u32, hi: u32): i64 {
    lo + (if hi < 0x8000_0000 then hi else hi - 0x1_0000_0000) * 0x1_0000_0000
  }

  lemma JoinSplit(n: i64)
    ensures JoinWords(LowWord(n), HighWord(n)) == n
  {}

  // ---- The code ----------------------------------------------------------------------------------

  function BindFlags(isMut: bool, hasInner: bool): u32 {
    (if isMut then 1 else 0) + (if hasInner then 2 else 0)
  }

  /** Tag, ids and counts. */
  function Header(p: AirPattern): (words: seq<u32>)
    ensures |words| > 0
  {
    match p
    case Wildcard => [0]
    case Int(n) => [1, LowWord(n), HighWord(n)]
    case Bool(b) => [2, if b then 1 else 0]
    case EnumVariant(e, v) => [3, e, v]
    case Bind(name, isMut, inner) => [4, name, BindFlags(isMut, inner.Some?)]
    case Tuple(ps) => [5, |ps|]
    case Struct(id, fs) => [6, id, |fs|]
    case EnumDataVariant(e, v, ps) => [7, e, v, |ps|]
    case EnumStructVariant(e, v, fs) => [8, e, v, |fs|]
    case EnumUnitVariant(e, v) => [9, e, v]
  }

  function Encode(p: AirPattern): (words: seq<u32>)
    ensures |words| > 0
    decreases p, 1
  {
    Header(p) + EncodeChildren(p)
  }

  function EncodeChildren(p: AirPattern): seq<u32>
    decreases p, 0
  {
    match p
    case Bind(_, _, Some(inner)) => Encode(inner)
    case Tuple(ps) => EncodeAll(ps)
    case Struct(_, fs) => EncodeFields(fs)
    case EnumDataVariant(_, _, ps) => EncodeAll(ps)
    case EnumStructVariant(_, _, fs) => EncodeFields(fs)
    case _ => []
  }

  function EncodeAll(ps: seq<AirPattern>): seq<u32> {
    if ps == [] then [] else Encode(ps[0]) + EncodeAll(ps[1..])
  }

  function EncodeField(f: FieldPattern): seq<u32>
    decreases f
  {
    [f.index] + Encode(f.pattern)
  }

  function EncodeFields(fs: seq<FieldPattern>): seq<u32> {
    if fs == [] then [] else EncodeField(fs[0]) + EncodeFields(fs[1..])
  }

  /** What decoding gives: a value and the number of words used. `None` stands for the panics on
      an unknown tag, an index past the end, or a word that is no symbol. */
  type Decoded<T> = Option<(T, nat)>

  function Decode(data: seq<u32>): (r: Decoded<AirPattern>)
    ensures r.Some? ==> 1 <= r.value.1 <= |data|
    decreases |data|, 1
  {
    if data == [] then None
    else match data[0]
      case 0 => Some((Wildcard, 1))
      case 1 => if |data| < 3 then None else Some((Int(JoinWords(data[1], data[2])), 3))
      case 2 => if |data| < 2 then None else Some((Bool(data[1] != 0), 2))
      case 3 => if |data| < 3 then None else Some((EnumVariant(data[1], data[2]), 3))
      case 4 => DecodeBind(data)
      case 5 => DecodeTuple(data)
      case 6 => DecodeStruct(data)
      case 7 => DecodeEnumData(data)
      case 8 => DecodeEnumStruct(data)
      case 9 => if |data| < 3 then None else Some((EnumUnitVariant(data[1], data[2]), 3))
      case _ => None
  }

  function DecodeBind(data: seq<u32>): (r: Decoded<AirPattern>)
    ensures r.Some? ==> 3 <= r.value.1 <= |data|
    decreases |data|, 0
  {
    if |data| < 3 || data[1] == 0xFFFF_FFFF then None
    else
      var isMut, hasInner := data[2] % 2 != 0, (data[2] / 2) % 2 != 0;
      if !hasInner then Some((Bind(data[1], isMut, None), 3))
      else match Decode(data[3..])
        case None => None
        case Some((p, c)) => Some((Bind(data[1], isMut, Some(p)), 3 + c))
  }

  function DecodeTuple(data: seq<u32>): (r: Decoded<AirPattern>)
    ensures r.Some? ==> 2 <= r.value.1 <= |data|
    decreases |data|, 0
  {
    if |data| < 2 then None
    else match DecodeAll(data[2..], data[1])
      case None => None
      case Some((ps, c)) => Some((Tuple(ps), 2 + c))
  }

  function DecodeStruct(data: seq<u32>): (r: Decoded<AirPattern>)
    ensures r.Some? ==> 3 <= r.value.1 <= |data|
    decreases |data|, 0
  {
    if |data| < 3 then None
    else match DecodeFields(data[3..], data[2])
      case None => None
      case Some((fs, c)) => Some((Struct(data[1], fs), 3 + c))
  }

  function DecodeEnumData(data: seq<u32>): (r: Decoded<AirPattern>)
    ensures r.Some? ==> 4 <= r.value.1 <= |data|
    decreases |data|, 0
  {
    if |data| < 4 then None
    else match DecodeAll(data[4..], data[3])
      case None => None
      case Some((ps, c)) => Some((EnumDataVariant(data[1], data[2], ps), 4 + c))
  }

  function DecodeEnumStruct(data: seq<u32>): (r: Decoded<AirPattern>)
    ensures r.Some? ==> 4 <= r.value.1 <= |data|
    decreases |data|, 0
  {
    if |data| < 4 then None
    else match DecodeFields(data[4..], data[3])
      case None => None
      case Some((fs, c)) => Some((EnumStructVariant(data[1], data[2], fs), 4 + c))
  }

  function DecodeAll(data: seq<u32>, n: u32): (r: Decoded<List<AirPattern>>)
    ensures r.Some? ==> |r.value.0| == n && r.value.1 <= |data|
    decreases |data|, 2, n
  {
    if n == 0 then Some(([], 0))
    else match Decode(data)
      case None => None
      case Some((p, c)) =>
        match DecodeAll(data[c..], n - 1)
        case None => None
        case Some((ps, d)) => Some(([p] + ps, c + d))
  }

  function DecodeFields(data: seq<u32>, n: u32): (r: Decoded<List<FieldPattern>>)
    ensures r.Some? ==> |r.value.0| == n && r.value.1 <= |data|
    decreases |data|, 2, n
  {
    if n == 0 then Some(([], 0))
    else if data == [] then None
    else match Decode(data[1..])
      case None => None
      case Some((p, c)) =>
        match DecodeFields(data[1 + c..], n - 1)
        case None => None
        case Some((fs, d)) => Some(([FieldPattern(data[0], p)] + fs, 1 + c + d))
  }

  // ---- Self-delimiting ---------------------------------------------------------------------------

  /** A header, a body and what follows. */
  lemma Framed(header: seq<u32>, body: seq<u32>, rest: seq<u32>)
    ensures var data := header + body + rest;
      |data| >= |header| && data[|header|..] == body + rest &&
      forall i :: 0 <= i < |header| ==> data[i] == header[i]
  {}

  lemma {:induction false} LeafDecodes(p: AirPattern, rest: seq<u32>)
    requires !p.Tuple? && !p.Struct? && !p.EnumDataVariant? && !p.EnumStructVariant?
    requires p.Bind? ==> p.inner.None?
    ensures Decode(Encode(p) + rest) == Some((p, |Encode(p)|))
  {
    if p.Int? {
      JoinSplit(p.value);
    }
  }

  lemma {:induction false} BindDecodes(p: AirPattern, inner: AirPattern, rest: seq<u32>)
    requires p.Bind? && p.inner == Some(inner)
    requires Decode(Encode(inner) + rest) == Some((inner, |Encode(inner)|))
    ensures Decode(Encode(p) + rest) == Some((p, |Encode(p)|))
  {
    Framed([4, p.name, BindFlags(p.isMut, true)], Encode(inner), rest);
  }

  lemma {:induction false} TupleDecodes(ps: List<AirPattern>, rest: seq<u32>)
    requires DecodeAll(EncodeAll(ps) + rest, |ps|) == Some((ps, |EncodeAll(ps)|))
    ensures Decode(Encode(Tuple(ps)) + rest) == Some((Tuple(ps), |Encode(Tuple(ps))|))
  {
    var header := [5, |ps|];
    Framed(header, EncodeAll(ps), rest);
    assert Encode(Tuple(ps)) == header + EncodeAll(ps);
    assert DecodeTuple(header + EncodeAll(ps) + rest) == Some((Tuple(ps), 2 + |EncodeAll(ps)|));
  }

  lemma {:induction false} EnumDataDecodes(p: AirPattern, rest: seq<u32>)
    requires p.EnumDataVariant?
    requires DecodeAll(EncodeAll(p.elems) + rest, |p.elems|) == Some((p.elems, |EncodeAll(p.elems)|))
    ensures Decode(Encode(p) + rest) == Some((p, |Encode(p)|))
  {
    var header := [7, p.enumId, p.variantIndex, |p.elems|];
    Framed(header, EncodeAll(p.elems), rest);
    assert Encode(p) == header + EncodeAll(p.elems);
    assert DecodeEnumData(header + EncodeAll(p.elems) + rest) == Some((p, 4 + |EncodeAll(p.elems)|));
  }

  lemma {:induction false} StructDecodes(p: AirPattern, rest: seq<u32>)
    requires p.Struct?
    requires DecodeFields(EncodeFields(p.members) + rest, |p.members|) == Some((p.members, |EncodeFields(p.members)|))
    ensures Decode(Encode(p) + rest) == Some((p, |Encode(p)|))
  {
    var header := [6, p.structId, |p.members|];
    Framed(header, EncodeFields(p.members), rest);
    assert Encode(p) == header + EncodeFields(p.members);
    assert DecodeStruct(header + EncodeFields(p.members) + rest) == Some((p, 3 + |EncodeFields(p.members)|));
  }

  lemma {:induction false} EnumStructDecodes(p: AirPattern, rest: seq<u32>)
    requires p.EnumStructVariant?
    requires DecodeFields(EncodeFields(p.members) + rest, |p.members|) == Some((p.members, |EncodeFields(p.members)|))
    ensures Decode(Encode(p) + rest) == Some((p, |Encode(p)|))
  {
    var header := [8, p.enumId, p.variantIndex, |p.members|];
    Framed(header, EncodeFields(p.members), rest);
    assert Encode(p) == header + EncodeFields(p.members);
    assert DecodeEnumStruct(header + EncodeFields(p.members) + rest) == Some((p, 4 + |EncodeFields(p.members)|));
  }

  /** Decoding a pattern's code gives the pattern back and uses exactly its words, whatever follows. */
  lemma {:induction false} DecodeEncode(p: AirPattern, rest: seq<u32>)
    ensures Decode(Encode(p) + rest) == Some((p, |Encode(p)|))
    decreases p
  {
    match p
    case Tuple(ps) => DecodeEncodeAll(ps, rest); TupleDecodes(ps, rest);
    case EnumDataVariant(_, _, ps) => DecodeEncodeAll(ps, rest); EnumDataDecodes(p, rest);
    case Struct(_, fs) => DecodeEncodeFields(fs, rest); StructDecodes(p, rest);
    case EnumStructVariant(_, _, fs) => DecodeEncodeFields(fs, rest); EnumStructDecodes(p, rest);
    case Bind(_, _, Some(inner)) => DecodeEncode(inner, rest); BindDecodes(p, inner, rest);
    case _ => LeafDecodes(p, rest);
  }

  lemma {:induction false} DecodeAllStep(data: seq<u32>, n: u32, p: AirPattern, c: nat, ps: List<AirPattern>, d: nat)
    requires n > 0 && Decode(data) == Some((p, c)) && DecodeAll(data[c..], n - 1) == Some((ps, d))
    ensures DecodeAll(data, n) == Some(([p] + ps, c + d))
  {}

  lemma {:induction false} DecodeEncodeAll(ps: List<AirPattern>, rest: seq<u32>)
    ensures DecodeAll(EncodeAll(ps) + rest, |ps|) == Some((ps, |EncodeAll(ps)|))
    decreases ps
  {
    if ps != [] {
      var head, tail := Encode(ps[0]), EncodeAll(ps[1..]) + rest;
      DecodeEncode(ps[0], tail);
      DecodeEncodeAll(ps[1..], rest);
      assert (head + tail)[|head|..] == tail;
      DecodeAllStep(head + tail, |ps|, ps[0], |head|, ps[1..], |EncodeAll(ps[1..])|);
      Assoc(head, EncodeAll(ps[1..]), rest);
      assert [ps[0]] + ps[1..] == ps;
    }
  }

  lemma {:induction false} DecodeEncodeField(f: FieldPattern, rest: seq<u32>)
    ensures Decode((EncodeField(f) + rest)[1..]) == Some((f.pattern, |EncodeField(f)| - 1))
    decreases f
  {
    DecodeEncode(f.pattern, rest);
    Framed([f.index], Encode(f.pattern), rest);
  }

  lemma {:induction false} DecodeFieldsStep(data: seq<u32>, n: u32, f: FieldPattern, c: nat,
                                            fs: List<FieldPattern>, d: nat)
    requires n > 0 && data != [] && data[0] == f.index && Decode(data[1..]) == Some((f.pattern, c))
    requires DecodeFields(data[1 + c..], n - 1) == Some((fs, d))
    ensures DecodeFields(data, n) == Some(([f] + fs, 1 + c + d))
  {}

  lemma {:induction false} ConsDecodes(f: FieldPattern, fs: List<FieldPattern>, tail: seq<u32>, d: nat)
    requires |fs| + 1 < 0x1_0000_0000
    requires Decode((EncodeField(f) + tail)[1..]) == Some((f.pattern, |EncodeField(f)| - 1))
    requires DecodeFields(tail, |fs|) == Some((fs, d))
    ensures DecodeFields(EncodeField(f) + tail, |fs| + 1) == Some(([f] + fs, |EncodeField(f)| + d))
  {
    var data, c := EncodeField(f) + tail, |EncodeField(f)| - 1;
    assert data[1 + c..] == tail;
    DecodeFieldsStep(data, |fs| + 1, f, c, fs, d);
  }

  lemma {:induction false} DecodeEncodeFields(fs: List<FieldPattern>, rest: seq<u32>)
    ensures DecodeFields(EncodeFields(fs) + rest, |fs|) == Some((fs, |EncodeFields(fs)|))
    decreases fs
  {
    if fs != [] {
      var tail := EncodeFields(fs[1..]) + rest;
      DecodeEncodeField(fs[0], tail);
      DecodeEncodeFields(fs[1..], rest);
      ConsDecodes(fs[0], fs[1..], tail, |EncodeFields(fs[1..])|);
      Assoc(EncodeField(fs[0]), EncodeFields(fs[1..]), rest);
      assert [fs[0]] + fs[1..] == fs;
    }
  }

  // ---- Encoding into a growing vector ---------------------------------------------------------------

  class Words {
    var words: seq<u32>

    constructor ()
      ensures words == []
    {
      words := [];
    }

    method Push(w: u32)
      modifies this
      ensures words == old(words) + [w]
    {
      words := words + [w];
    }
  }

  method EncodePatternTree(p: AirPattern, out: Words)
    modifies out
    ensures out.words == old(out.words) + Encode(p)
    decreases p, 1
  {
    PushAll(Header(p), out);
    EncodeSubpatterns(p, out);
    Assoc(old(out.words), Header(p), EncodeChildren(p));
  }

  method EncodeSubpatterns(p: AirPattern, out: Words)
    modifies out
    ensures out.words == old(out.words) + EncodeChildren(p)
    decreases p, 0
  {
    match p
    case Bind(_, _, Some(inner)) => EncodePatternTree(inner, out);
    case Tuple(ps) => EncodeElems(ps, out);
    case EnumDataVariant(_, _, ps) => EncodeElems(ps, out);
    case Struct(_, fs) => EncodeMembers(fs, out);
    case EnumStructVariant(_, _, fs) => EncodeMembers(fs, out);
    case _ =>
  }

  method PushAll(ws: seq<u32>, out: Words)
    modifies out
    ensures out.words == old(out.words) + ws
  {
    for i := 0 to |ws|
      invariant out.words == old(out.words) + ws[..i]
    {
      out.Push(ws[i]);
    }
  }

  method EncodeElems(ps: seq<AirPattern>, out: Words)
    modifies out
    ensures out.words == old(out.words) + EncodeAll(ps)
    decreases ps, 0
  {
    for i := 0 to |ps|
      invariant out.words + EncodeAll(ps[i..]) == old(out.words) + EncodeAll(ps)
    {
      Assoc(out.words, Encode(ps[i]), EncodeAll(ps[i + 1..]));
      assert ps[i..][0] == ps[i] && ps[i..][1..] == ps[i + 1..];
      EncodePatternTree(ps[i], out);
    }
  }

  method EncodeMembers(fs: seq<FieldPattern>, out: Words)
    modifies out
    ensures out.words == old(out.words) + EncodeFields(fs)
    decreases fs, 0
  {
    for i := 0 to |fs|
      invariant out.words + EncodeFields(fs[i..]) == old(out.words) + EncodeFields(fs)
    {
      Assoc(out.words, EncodeField(fs[i]), EncodeFields(fs[i + 1..]));
      assert fs[i..][0] == fs[i] && fs[i..][1..] == fs[i + 1..];
      EncodeMember(fs[i], out);
    }
  }

  method EncodeMember(f: FieldPattern, out: Words)
    modifies out
    ensures out.words == old(out.words) + EncodeField(f)
    decreases f
  {
    out.Push(f.index);
    EncodePatternTree(f.pattern, out);
    Assoc(old(out.words), [f.index], Encode(f.pattern));
  }

  // ---- Decoding with a moving offset -----------------------------------------------------------------

  method DecodePatternTree(data: seq<u32>) returns (r: Decoded<AirPattern>)
    ensures r == Decode(data)
    decreases |data|, 1
  {
    if data == [] {
      return None;
    }
    var tag := data[0];
    if tag == 4 {
      r := DecodeBinding(data);
    } else if tag == 5 || tag == 7 {
      var header := if tag == 5 then 2 else 4;
      if |data| < header {
        return None;
      }
      var ps := DecodeElems(data[header..], data[header - 1]);
      r := match ps
        case None => None
        case Some((ps, c)) =>
          Some((if tag == 5 then Tuple(ps) else EnumDataVariant(data[1], data[2], ps), header + c));
    } else if tag == 6 || tag == 8 {
      var header := if tag == 6 then 3 else 4;
      if |data| < header {
        return None;
      }
      var fs := DecodeMembers(data[header..], data[header - 1]);
      r := match fs
        case None => None
        case Some((fs, c)) =>
          Some((if tag == 6 then Struct(data[1], fs) else EnumStructVariant(data[1], data[2], fs), header + c));
    } else {
      r := DecodeLeaf(data);
    }
  }

  method DecodeLeaf(data: seq<u32>) returns (r: Decoded<AirPattern>)
    requires data != [] && data[0] !in {4, 5, 6, 7, 8}
    ensures r == Decode(data)
  {
    var tag := data[0];
    if tag == 0 {
      return Some((Wildcard, 1));
    }
    if tag > 9 || |data| < 2 {
      return None;
    }
    if tag == 2 {
      return Some((Bool(data[1] != 0), 2));
    }
    if |data| < 3 {
      return None;
    }
    r := Some((if tag == 1 then Int(JoinWords(data[1], data[2]))
               else if tag == 3 then EnumVariant(data[1], data[2])
               else EnumUnitVariant(data[1], data[2]), 3));
  }

  method DecodeBinding(data: seq<u32>) returns (r: Decoded<AirPattern>)
    ensures r == DecodeBind(data)
    decreases |data|, 0
  {
    if |data| < 3 || data[1] == 0xFFFF_FFFF {
      return None;
    }
    var isMut, hasInner := data[2] % 2 != 0, (data[2] / 2) % 2 != 0;
    var offset := 3;
    var inner := None;
    if hasInner {
      var p := DecodePatternTree(data[offset..]);
      if p.None? {
        return None;
      }
      offset, inner := offset + p.value.1, Some(p.value.0);
    }
    r := Some((Bind(data[1], isMut, inner), offset));
  }

  /** A list decoded to the end is what was collected up to `offset` and what is decoded from there. */
  ghost predicate Resumes<T>(whole: Decoded<List<T>>, done: seq<T>, offset: nat, rest: Decoded<List<T>>) {
    match rest
    case None => whole.None?
    case Some((ts, d)) => whole.Some? && whole.value.0 == done + ts && whole.value.1 == offset + d
  }

  lemma ResumeStart<T>(whole: Decoded<List<T>>)
    ensures Resumes(whole, [], 0, whole)
  {
    if whole.Some? {
      assert [] + whole.value.0 == whole.value.0;
    }
  }

  lemma ResumeEnd<T>(whole: Decoded<List<T>>, done: List<T>, offset: nat)
    requires Resumes(whole, done, offset, Some(([], 0)))
    ensures whole == Some((done, offset))
  {
    assert done + [] == done;
  }

  lemma {:induction false} ResumeElems(whole: Decoded<List<AirPattern>>, done: seq<AirPattern>, data: seq<u32>,
                                       offset: nat, m: u32)
    requires m > 0 && offset <= |data| && Resumes(whole, done, offset, DecodeAll(data[offset..], m))
    ensures match Decode(data[offset..])
      case None => whole.None?
      case Some((p, c)) =>
        offset + c <= |data| && Resumes(whole, done + [p], offset + c, DecodeAll(data[offset + c..], m - 1))
  {
    var r := Decode(data[offset..]);
    if r.Some? {
      var (p, c) := r.value;
      assert data[offset..][c..] == data[offset + c..];
      var rest := DecodeAll(data[offset + c..], m - 1);
      if rest.Some? {
        assert done + ([p] + rest.value.0) == (done + [p]) + rest.value.0;
      }
    }
  }

  lemma {:induction false} ResumeMembers(whole: Decoded<List<FieldPattern>>, done: seq<FieldPattern>,
                                         data: seq<u32>, offset: nat, m: u32)
    requires m > 0 && offset <= |data| && Resumes(whole, done, offset, DecodeFields(data[offset..], m))
    ensures if offset == |data| then whole.None?
      else match Decode(data[offset + 1..])
        case None => whole.None?
        case Some((p, c)) =>
          offset + 1 + c <= |data| &&
          Resumes(whole, done + [FieldPattern(data[offset], p)], offset + 1 + c,
            DecodeFields(data[offset + 1 + c..], m - 1))
  {
    if offset < |data| {
      assert data[offset..][1..] == data[offset + 1..];
      var r := Decode(data[offset + 1..]);
      if r.Some? {
        var (p, c) := r.value;
        assert data[offset..][1 + c..] == data[offset + 1 + c..];
        var rest := DecodeFields(data[offset + 1 + c..], m - 1);
        if rest.Some? {
          var f := FieldPattern(data[offset], p);
          assert done + ([f] + rest.value.0) == (done + [f]) + rest.value.0;
        }
      }
    }
  }

  ghost predicate ElemsFrom(whole: Decoded<List<AirPattern>>, done: seq<AirPattern>, data: seq<u32>, offset: nat,
                            m: u32) {
    offset <= |data| && Resumes(whole, done, offset, DecodeAll(data[offset..], m))
  }

  method DecodeElems(data: seq<u32>, n: u32) returns (r: Decoded<List<AirPattern>>)
    ensures r == DecodeAll(data, n)
    decreases |data|, 3
  {
    var offset: nat := 0;
    var elems: List<AirPattern> := [];
    ghost var whole := DecodeAll(data, n);
    ResumeStart(whole);
    assert data[offset..] == data;
    for k := 0 to n
      invariant |elems| == k && ElemsFrom(whole, elems, data, offset, n - k)
    {
      var p := DecodeElem(data, offset, whole, elems, n - k);
      if p.None? {
        return None;
      }
      offset, elems := offset + p.value.1, elems + [p.value.0];
    }
    ResumeEnd(whole, elems, offset);
    r := Some((elems, offset));
  }

  method DecodeElem(data: seq<u32>, offset: nat, ghost whole: Decoded<List<AirPattern>>,
                    ghost done: seq<AirPattern>, ghost m: u32)
    returns (p: Decoded<AirPattern>)
    requires m > 0 && ElemsFrom(whole, done, data, offset, m)
    ensures p.None? ==> whole.None?
    ensures p.Some? ==> ElemsFrom(whole, done + [p.value.0], data, offset + p.value.1, m - 1)
    decreases |data|, 2
  {
    ResumeElems(whole, done, data, offset, m);
    p := DecodePatternTree(data[offset..]);
  }

  ghost predicate MembersFrom(whole: Decoded<List<FieldPattern>>, done: seq<FieldPattern>, data: seq<u32>,
                              offset: nat, m: u32) {
    offset <= |data| && Resumes(whole, done, offset, DecodeFields(data[offset..], m))
  }

  method DecodeMembers(data: seq<u32>, n: u32) returns (r: Decoded<List<FieldPattern>>)
    ensures r == DecodeFields(data, n)
    decreases |data|, 3
  {
    var offset: nat := 0;
    var members: List<FieldPattern> := [];
    ghost var whole := DecodeFields(data, n);
    ResumeStart(whole);
    assert data[offset..] == data;
    for k := 0 to n
      invariant |members| == k && MembersFrom(whole, members, data, offset, n - k)
    {
      var f := DecodeMember(data, offset, whole, members, n - k);
      if f.None? {
        return None;
      }
      offset, members := offset + f.value.1, members + [f.value.0];
    }
    ResumeEnd(whole, members, offset);
    r := Some((members, offset));
  }

  method DecodeMember(data: seq<u32>, offset: nat, ghost whole: Decoded<List<FieldPattern>>,
                      ghost done: seq<FieldPattern>, ghost m: u32)
    returns (f: Decoded<FieldPattern>)
    requires m > 0 && MembersFrom(whole, done, data, offset, m)
    ensures f.None? ==> whole.None?
    ensures f.Some? ==> MembersFrom(whole, done + [f.value.0], data, offset + f.value.1, m - 1)
    decreases |data|, 2
  {
    ResumeMembers(whole, done, data, offset, m);
    if offset == |data| {
      return None;
    }
    var p := DecodePatternTree(data[offset + 1..]);
    f := match p case None => None case Some((p, c)) => Some((FieldPattern(data[offset], p), 1 + c));
  }

  // ---- Match arms ------------------------------------------------------------------------------------

  datatype Arm = Arm(pattern: AirPattern, body: u32)

  /** Arms as `AirPattern::encode` lays them out, one after another. */
  function EncodeArms(arms: seq<Arm>): seq<u32> {
    if arms == [] then [] else [arms[0].body] + Encode(arms[0].pattern) + EncodeArms(arms[1..])
  }

  lemma SplitArm(data: seq<u32>, body: u32, code: seq<u32>, rest: seq<u32>, later: seq<u32>)
    requires data == [body] + code + rest + later
    ensures data[0] == body && data[1..] == code + (rest + later) && data[1 + |code|..] == rest + later
  {}

  class MatchArmIterator {
    var data: seq<u32>
    var remaining: nat

    /** `arms` are still to come, followed by anything. */
    ghost predicate Holds(arms: seq<Arm>)
      reads this
    {
      remaining == |arms| && EncodeArms(arms) <= data
    }

    constructor (data: seq<u32>, remaining: nat)
      ensures this.data == data && this.remaining == remaining
    {
      this.data, this.remaining := data, remaining;
    }

    method Next(ghost arms: seq<Arm>) returns (arm: Option<Arm>)
      requires Holds(arms)
      modifies this
      ensures arms == [] ==> arm == None && Holds([])
      ensures arms != [] ==> arm == Some(arms[0]) && Holds(arms[1..])
    {
      if remaining == 0 {
        return None;
      }
      remaining := remaining - 1;
      ghost var code, rest := Encode(arms[0].pattern), EncodeArms(arms[1..]);
      ghost var later := data[|EncodeArms(arms)|..];
      SplitArm(data, arms[0].body, code, rest, later);
      DecodeEncode(arms[0].pattern, rest + later);
      var body := data[0];
      var p := DecodePatternTree(data[1..]);
      data := data[1 + p.value.1..];
      arm := Some(Arm(p.value.0, body));
    }
  }

  /** Walking the iterator over arms stored at `start` gives exactly those arms, whatever has been
      appended to the array since. */
  method GetMatchArms(extra: seq<u32>, start: nat, len: nat, ghost arms: seq<Arm>, ghost later: seq<u32>)
    returns (r: seq<Arm>)
    requires start <= |extra| && extra[start..] == EncodeArms(arms) + later && len == |arms|
    ensures r == arms
  {
    var it := new MatchArmIterator(extra[start..], len);
    r := [];
    assert arms[0..] == arms;
    for k := 0 to len
      invariant fresh(it) && r == arms[..k] && it.Holds(arms[k..])
    {
      var arm := it.Next(arms[k..]);
      assert arms[k..][1..] == arms[k + 1..];
      r := r + [arm.value];
    }
  }
}
