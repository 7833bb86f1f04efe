/** Decimal numerals, as names and type syntax print and parse them. */
module Decimal {
  import opened Bytes

  const DIGITS: string := "0123456789"

  predicate IsDigit(c: char) { '0' <= c <= '9' }

  function ToDec(n: nat): (s: string)
    ensures |s| > 0 && forall i :: 0 <= i < |s| ==> IsDigit(s[i])
  {
    if n < 10 then [DIGITS[n]] else ToDec(n / 10) + [DIGITS[n % 10]]
  }

  function DigitValue(c: char): nat
    requires IsDigit(c)
  {
    c as int - '0' as int
  }

  /** The number a string of digits denotes; `None` if it is empty or has another character. */
  function FromDec(s: string): Option<nat> {
    if s == [] || !IsDigit(s[|s| - 1]) then None
    else if |s| == 1 then Some(DigitValue(s[0]))
    else match FromDec(s[..|s| - 1])
      case None => None
      case Some(n) => Some(10 * n + DigitValue(s[|s| - 1]))
  }

  lemma {:induction false} FromToDec(n: nat)
    ensures FromDec(ToDec(n)) == Some(n)
  {
    if n >= 10 {
      FromToDec(n / 10);
      assert ToDec(n)[..|ToDec(n)| - 1] == ToDec(n / 10);
    }
  }

  predicate AllDigits(s: string) { forall i :: 0 <= i < |s| ==> IsDigit(s[i]) }

  /** Exactly the non-empty strings of digits are numerals. */
  lemma {:induction false} FromDecExact(s: string)
    ensures FromDec(s).Some? <==> s != [] && AllDigits(s)
  {
    if |s| > 1 {
      var init := s[..|s| - 1];
      FromDecExact(init);
      if IsDigit(s[|s| - 1]) && AllDigits(init) {
        forall i | 0 <= i < |s| ensures IsDigit(s[i]) {
          assert i < |init| ==> s[i] == init[i];
        }
      }
    }
  }

  /** Zeros in front do not count. */
  lemma {:induction false} LeadingZero(s: string)
    requires FromDec(s).Some?
    ensures FromDec("0" + s) == FromDec(s)
  {
    var z := "0" + s;
    assert z[|z| - 1] == s[|s| - 1];
    if |s| == 1 {
      assert z[..1] == "0" && FromDec("0") == Some(0);
    } else {
      LeadingZero(s[..|s| - 1]);
      assert z[..|z| - 1] == "0" + s[..|s| - 1];
    }
  }

  lemma ToDecInjective(m: nat, n: nat)
    requires ToDec(m) == ToDec(n)
    ensures m == n
  {
    FromToDec(m);
    FromToDec(n);
  }

  /** How many digits a string starts with. */
  function DigitRun(s: string): nat {
    if s == [] || !IsDigit(s[0]) then 0 else 1 + DigitRun(s[1..])
  }

  lemma {:induction false} DigitRunOf(a: string, r: string)
    requires forall i :: 0 <= i < |a| ==> IsDigit(a[i])
    requires r == [] || !IsDigit(r[0])
    ensures DigitRun(a + r) == |a|
  {
    if a == [] {
      assert a + r == r;
    } else {
      assert (a + r)[1..] == a[1..] + r;
      DigitRunOf(a[1..], r);
    }
  }

  /** A numeral ends where the digits end. */
  lemma NumeralPrefix(m: nat, n: nat, r: string, s: string)
    requires ToDec(m) + r == ToDec(n) + s
    requires r == [] || !IsDigit(r[0])
    requires s == [] || !IsDigit(s[0])
    ensures m == n && r == s
  {
    var a, b := ToDec(m), ToDec(n);
    DigitRunOf(a, r);
    DigitRunOf(b, s);
    assert a == (a + r)[..|a|] == (b + s)[..|b|] == b;
    assert r == (a + r)[|a|..] == (b + s)[|b|..] == s;
    ToDecInjective(m, n);
  }

  /** How many digits a string ends with. */
  function LastRun(s: string): nat {
    if s == [] || !IsDigit(s[|s| - 1]) then 0 else 1 + LastRun(s[..|s| - 1])
  }

  lemma {:induction false} LastRunOf(a: string, d: string)
    requires a != [] && !IsDigit(a[|a| - 1]) && forall i :: 0 <= i < |d| ==> IsDigit(d[i])
    ensures LastRun(a + d) == |d|
  {
    if d == [] {
      assert a + d == a;
    } else {
      var n := |d| - 1;
      assert (a + d)[..|a + d| - 1] == a + d[..n] && (a + d)[|a + d| - 1] == d[n];
      LastRunOf(a, d[..n]);
    }
  }

  /** A numeral begins after the last character that is no digit. */
  lemma NumeralSuffix(a: string, b: string, m: nat, n: nat)
    requires a + "_" + ToDec(m) == b + "_" + ToDec(n)
    ensures a == b && m == n
  {
    var d, e := ToDec(m), ToDec(n);
    LastRunOf(a + "_", d);
    LastRunOf(b + "_", e);
    assert |a + "_" + d| == |b + "_" + e|;
    SplitAt(a + "_", b + "_", d, e);
    DropSuffix("_", a, b);
    ToDecInjective(m, n);
  }
}
