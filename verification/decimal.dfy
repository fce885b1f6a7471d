/**
  Decimal text of integers: Python's `str(n)` for an `int` and the part of `int(s)` the
  specification fields use (an optional minus sign followed by ASCII digits).
 */
module Decimal {
  import opened Wrappers

  predicate IsDigit(c: char) {
    '0' <= c <= '9'
  }

  predicate AllDigits(s: string) {
    forall i :: 0 <= i < |s| ==> IsDigit(s[i])
  }

  function DigitChar(d: nat): (c: char)
    requires d < 10
    ensures IsDigit(c)
  {
    ('0' as int + d) as char
  }

  function DigitValue(c: char): (d: nat)
    requires IsDigit(c)
    ensures d < 10
    ensures DigitChar(d) == c
  {
    c as int - '0' as int
  }

  /** `str(n)` for a non-negative `n`: its base-10 digits, most significant first. */
  function NatToString(n: nat): (r: string)
    ensures |r| > 0 && AllDigits(r)
    ensures r[0] == '0' <==> n == 0
    ensures n == 0 ==> r == "0"
  {
    if n < 10 then [DigitChar(n)] else NatToString(n / 10) + [DigitChar(n % 10)]
  }

  /** The number a string of digits denotes, leading zeros allowed. */
  function DigitsValue(s: string): nat
    requires AllDigits(s)
  {
    if |s| == 0 then 0 else 10 * DigitsValue(s[..|s| - 1]) + DigitValue(s[|s| - 1])
  }

  /** `str(n)` for any integer `n`. */
  function IntToString(n: int): string {
    if n < 0 then "-" + NatToString(-n) else NatToString(n)
  }

  /** The strings `int()` accepts in this model: an optional `-`, then one or more digits. */
  predicate IsIntLiteral(s: string) {
    if |s| > 0 && s[0] == '-' then |s| >= 2 && AllDigits(s[1..]) else |s| > 0 && AllDigits(s)
  }

  /** The one way `str` writes each integer: no leading zero and no `-0`. */
  predicate IsCanonical(s: string) {
    IsIntLiteral(s) &&
    var digits := if s[0] == '-' then s[1..] else s;
    (digits[0] == '0' ==> digits == "0" && s[0] != '-')
  }

  /** `int(s)` for a string `s`; `None` is the `ValueError` Python raises. */
  function ParseInt(s: string): (r: Option<int>)
    ensures r.Some? <==> IsIntLiteral(s)
  {
    if !IsIntLiteral(s) then None
    else if s[0] == '-' then Some(-(DigitsValue(s[1..]) as int))
    else Some(DigitsValue(s) as int)
  }

  lemma {:induction false} NatToStringRoundTrip(n: nat)
    ensures DigitsValue(NatToString(n)) == n
  {
    if n >= 10 {
      NatToStringRoundTrip(n / 10);
      var p := NatToString(n / 10);
      var r := p + [DigitChar(n % 10)];
      assert r[..|r| - 1] == p;
    }
  }

  /** `int(str(n)) == n` for every integer. */
  lemma {:induction false} IntToStringRoundTrip(n: int)
    ensures ParseInt(IntToString(n)) == Some(n)
    ensures IsCanonical(IntToString(n))
  {
    NatToStringRoundTrip(if n < 0 then -n else n);
    if n < 0 {
      NegativeLiteral(NatToString(-n));
    }
  }

  /** A minus sign followed by a digit string that does not start with `0` is a canonical literal
      of the negated value. */
  lemma {:induction false} NegativeLiteral(digits: string)
    requires |digits| > 0 && AllDigits(digits) && digits[0] != '0'
    ensures IsCanonical("-" + digits)
    ensures ParseInt("-" + digits) == Some(-(DigitsValue(digits) as int))
  {
    var s := "-" + digits;
    assert s[0] == '-' && s[1..] == digits;
  }

  /** A digit string without a leading zero denotes a positive number. */
  lemma {:induction false} LeadingDigitPositive(s: string)
    requires |s| > 0 && AllDigits(s) && s[0] != '0'
    ensures DigitsValue(s) > 0
  {
    if |s| > 1 {
      var p := s[..|s| - 1];
      assert p[0] == s[0];
      LeadingDigitPositive(p);
    }
  }

  lemma {:induction false} DigitsValueRoundTrip(s: string)
    requires |s| > 0 && AllDigits(s)
    requires s[0] == '0' ==> s == "0"
    ensures NatToString(DigitsValue(s)) == s
  {
    if |s| > 1 {
      var p := s[..|s| - 1];
      assert p[0] == s[0];
      DigitsValueRoundTrip(p);
      LeadingDigitPositive(p);
      var n := DigitsValue(s);
      var d := DigitValue(s[|s| - 1]);
      assert n == 10 * DigitsValue(p) + d;
      assert n / 10 == DigitsValue(p) && n % 10 == d;
      assert s == p + [s[|s| - 1]];
    }
  }

  /** `str` and `int` are inverse bijections between the integers and the canonical literals. */
  lemma {:induction false} IntToStringExactly(n: int, s: string)
    ensures IntToString(n) == s <==> IsCanonical(s) && ParseInt(s) == Some(n)
  {
    IntToStringRoundTrip(n);
    if IsCanonical(s) && ParseInt(s) == Some(n) {
      if s[0] == '-' {
        DigitsValueRoundTrip(s[1..]);
        LeadingDigitPositive(s[1..]);
        assert s == "-" + s[1..];
      } else {
        DigitsValueRoundTrip(s);
      }
    }
  }
}
