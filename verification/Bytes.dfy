/** Bytes, options, little-endian numbers and a few facts about sequences: the vocabulary shared by
    the layout, cache-signature and AIR models. */
module Bytes {

  type byte = b: int | 0 <= b < 256

  datatype Option<+T> = None | Some(value: T)

  /** 256 to the power `w`: the number of bit patterns in `w` bytes. */
  function Pow256(w: nat): (r: nat)
    ensures r >= 1
  {
    if w == 0 then 1 else 256 * Pow256(w - 1)
  }

  /** The number that `bytes` denotes, least significant byte first. */
  function FromLE(bytes: seq<byte>): (n: nat)
    ensures n < Pow256(|bytes|)
  {
    if bytes == [] then 0 else bytes[0] + 256 * FromLE(bytes[1..])
  }

  /** The `w` low bytes of `n`, least significant byte first. */
  function ToLE(n: nat, w: nat): (bytes: seq<byte>)
    ensures |bytes| == w
  {
    if w == 0 then [] else [n % 256] + ToLE(n / 256, w - 1)
  }

  lemma {:induction false} FromToLE(n: nat, w: nat)
    requires n < Pow256(w)
    ensures FromLE(ToLE(n, w)) == n
  {
    if w > 0 {
      FromToLE(n / 256, w - 1);
      assert ToLE(n, w)[1..] == ToLE(n / 256, w - 1);
    }
  }

  lemma {:induction false} ToLEInjective(m: nat, n: nat, w: nat)
    requires m < Pow256(w) && n < Pow256(w)
    requires ToLE(m, w) == ToLE(n, w)
    ensures m == n
  {
    FromToLE(m, w);
    FromToLE(n, w);
  }

  lemma {:induction false} FromLEInjective(a: seq<byte>, b: seq<byte>)
    requires |a| == |b| && FromLE(a) == FromLE(b)
    ensures a == b
  {
    if a != [] {
      FromLEInjective(a[1..], b[1..]);
    }
  }

  // ---- Sequences -------------------------------------------------------------------------------

  lemma Assoc<T>(a: seq<T>, b: seq<T>, c: seq<T>)
    ensures a + b + c == a + (b + c)
  {}

  lemma Tail<T>(s: seq<T>, i: nat)
    requires i < |s|
    ensures s[i..] != [] && s[i..][0] == s[i] && s[i..][1..] == s[i + 1..]
  {}

  lemma SplitAt<T>(a: seq<T>, b: seq<T>, r: seq<T>, s: seq<T>)
    requires a + r == b + s && |a| == |b|
    ensures a == b && r == s
  {
    assert a == (a + r)[..|a|] && b == (b + s)[..|b|] && r == (a + r)[|a|..] && s == (b + s)[|b|..];
  }

  lemma DropPrefix<T>(a: seq<T>, r: seq<T>, s: seq<T>)
    requires a + r == a + s
    ensures r == s
  {
    SplitAt(a, a, r, s);
  }

  lemma DropSuffix<T>(a: seq<T>, r: seq<T>, s: seq<T>)
    requires r + a == s + a
    ensures r == s
  {
    assert |r + a| == |s + a|;
    SplitAt(r, s, a, a);
  }
}
