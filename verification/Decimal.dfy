/**
 Decimal text of natural numbers, as Python's `str` and f-strings print an index and as `int` reads it back.
 */
module Decimal {

  predicate IsDigit(c: char) {
    '0' <= c <= '9'
  }

  ghost predicate AllDigits(s: string) {
    forall i :: 0 <= i < |s| ==> IsDigit(s[i])
  }

  function DigitChar(d: nat): (c: char)
    requires d < 10
    ensures IsDigit(c)
  {
    ('0' as int + d) as char
  }

  function DigitValue(c: char): (d: nat)
    requires IsDigit(c)
    ensures d < 10
  {
    c as int - '0' as int
  }

  function Print(n: nat): (s: string)
    ensures |s| > 0 && AllDigits(s)
  {
    if n < 10 then [DigitChar(n)] else Print(n / 10) + [DigitChar(n % 10)]
  }

  function Value(s: string): nat
    requires AllDigits(s)
  {
    if s == [] then 0 else 10 * Value(s[..|s| - 1]) + DigitValue(s[|s| - 1])
  }

  /** Reading a printed number gives the number back. */
  lemma {:induction false} ValueOfPrint(n: nat)
    ensures Value(Print(n)) == n
  {
    if n < 10 {
      assert Print(n)[..0] == [];
    } else {
      ValueOfPrint(n / 10);
      var s := Print(n);
      assert s[..|s| - 1] == Print(n / 10);
    }
  }

  lemma PrintInjective(m: nat, n: nat)
    requires Print(m) == Print(n)
    ensures m == n
  {
    ValueOfPrint(m);
    ValueOfPrint(n);
  }

  /** A number followed by text that does not start with a digit can be split back in one way only. */
  lemma PrintThenTail(m: nat, s: string, n: nat, t: string)
    requires Print(m) + s == Print(n) + t
    requires s == [] || !IsDigit(s[0])
    requires t == [] || !IsDigit(t[0])
    ensures m == n && s == t
  {
    var p, q := Print(m), Print(n);
    var whole := p + s;
    assert whole == q + t;
    assert forall i :: 0 <= i < |p| ==> IsDigit(whole[i]);
    assert forall i :: 0 <= i < |q| ==> IsDigit(whole[i]);
    assert s != [] ==> whole[|p|] == s[0];
    assert t != [] ==> whole[|q|] == t[0];
    if |p| < |q| {
      assert false;
    } else if |q| < |p| {
      assert false;
    }
    assert p == whole[..|p|] && q == (q + t)[..|q|];
    assert s == whole[|p|..] && t == (q + t)[|q|..];
    PrintInjective(m, n);
  }
}
