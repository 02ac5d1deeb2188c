/** Integers as decimal text: Python's `str(n)` and `int(text)`. */
module Decimal {
  import opened Wrappers

  predicate IsDigit(c: char) {
    '0' <= c <= '9'
  }

  function DigitOf(d: nat): (c: char)
    requires d < 10
    ensures IsDigit(c) && ValueOf(c) == d
  {
    ('0' as int + d) as char
  }

  function ValueOf(c: char): (d: nat)
    requires IsDigit(c)
    ensures d < 10
  {
    c as int - '0' as int
  }

  /** `str(n)` of a non-negative integer. */
  function NatText(n: nat): (t: string)
    ensures t != [] && forall c :: c in t ==> IsDigit(c)
  {
    if n < 10 then [DigitOf(n)] else NatText(n / 10) + [DigitOf(n % 10)]
  }

  /** `str(n)`. */
  function IntText(n: int): (t: string)
    ensures t != []
    ensures forall c :: c in t ==> IsDigit(c) || c == '-'
  {
    if n < 0 then "-" + NatText(-n) else NatText(n)
  }

  predicate AllDigits(t: string) {
    forall i :: 0 <= i < |t| ==> IsDigit(t[i])
  }

  function DigitsValue(t: string): nat
    requires AllDigits(t)
  {
    if t == [] then 0 else 10 * DigitsValue(t[..|t| - 1]) + ValueOf(t[|t| - 1])
  }

  function Negated(n: int): int {
    -n
  }

  /** `int(text)` on an optional sign and digits; None is the `ValueError`. */
  function ParseInt(t: string): Option<int> {
    if t == [] then None
    else if t[0] == '-' then
      if t[1..] != [] && AllDigits(t[1..]) then Some(Negated(DigitsValue(t[1..]))) else None
    else if t[0] == '+' then
      if t[1..] != [] && AllDigits(t[1..]) then Some(DigitsValue(t[1..])) else None
    else if AllDigits(t) then Some(DigitsValue(t))
    else None
  }

  lemma {:induction false} NatRoundTrip(n: nat)
    ensures AllDigits(NatText(n)) && DigitsValue(NatText(n)) == n
  {
    var t := NatText(n);
    assert forall i :: 0 <= i < |t| ==> t[i] in t;
    if n < 10 {
      assert t[..0] == [];
    } else {
      NatRoundTrip(n / 10);
      assert t[..|t| - 1] == NatText(n / 10);
    }
  }

  /** `int(str(n)) == n`, for zero and negative numbers too. */
  lemma IntRoundTrip(n: int)
    ensures ParseInt(IntText(n)) == Some(n)
  {
    if n < 0 {
      NatRoundTrip(-n);
      assert IntText(n)[1..] == NatText(-n);
    } else {
      NatRoundTrip(n);
      assert NatText(n)[0] in NatText(n);
    }
  }

  lemma IntTextInjective(m: int, n: int)
    ensures IntText(m) == IntText(n) ==> m == n
  {
    IntRoundTrip(m);
    IntRoundTrip(n);
  }

  /** A text is an integer exactly when it is digits, at least one of them, with
      at most one sign before them. */
  lemma ParsesIff(t: string)
    ensures ParseInt(t).Some? <==>
      || (t != [] && AllDigits(t))
      || (|t| > 1 && (t[0] == '-' || t[0] == '+') && AllDigits(t[1..]))
  {
    assert t != [] && AllDigits(t) ==> IsDigit(t[0]);
  }

  /** A plus sign and leading zeros change nothing. */
  lemma SignAndZeros(n: nat)
    ensures ParseInt("+" + NatText(n)) == Some(n)
    ensures ParseInt("0" + NatText(n)) == Some(n)
  {
    NatRoundTrip(n);
    assert ("+" + NatText(n))[1..] == NatText(n);
    LeadingZero(NatText(n));
  }

  lemma {:induction false} LeadingZero(t: string)
    requires AllDigits(t)
    ensures AllDigits("0" + t) && DigitsValue("0" + t) == DigitsValue(t)
  {
    var z := "0" + t;
    assert forall i :: 0 <= i < |z| ==> IsDigit(z[i]);
    if t == [] {
      assert z[..0] == [];
    } else {
      LeadingZero(t[..|t| - 1]);
      assert z[..|z| - 1] == "0" + t[..|t| - 1];
    }
  }
}
