/** Decimal digits, and Go's printing and parsing of signed 64-bit integers. */
module Decimals {
  import opened Prelude

  predicate IsDigit(c: char) {
    '0' <= c <= '9'
  }

  predicate AllDigits(s: string) {
    forall i | 0 <= i < |s| :: IsDigit(s[i])
  }

  function DigitValue(c: char): (d: int)
    requires IsDigit(c)
    ensures 0 <= d <= 9
  {
    c as int - '0' as int
  }

  function DigitOf(n: int): char
    requires 0 <= n <= 9
  {
    ('0' as int + n) as char
  }

  /** What people put between groups of digits. */
  predicate Separator(c: char) {
    c == ' ' || c == '-'
  }

  /** The number a string of decimal digits denotes. */
  function Value(digits: string): int
    requires AllDigits(digits)
  {
    if digits == [] then 0
    else 10 * Value(digits[..|digits| - 1]) + (digits[|digits| - 1] as int - '0' as int)
  }

  // ----- fmt's %d and strconv.ParseInt(s, 10, 64)

  function PrintNat(n: nat): string {
    (if n < 10 then [] else PrintNat(n / 10)) + [DigitOf(n % 10)]
  }

  function Print(i: int): string {
    if i < 0 then ['-'] + PrintNat(-i) else PrintNat(i)
  }

  function Unsigned(s: string): string {
    if s != [] && s[0] in {'+', '-'} then s[1..] else s
  }

  /** The digits after an optional sign, if they are digits, at least one, and the value fits. */
  function ParseInt64(s: string): (r: Option<int>)
    ensures r.Some? ==> FitsInt64(r.value)
  {
    var digits := Unsigned(s);
    if digits == [] || !AllDigits(digits) then None
    else
      var i := if s[0] == '-' then -Value(digits) else Value(digits);
      if FitsInt64(i) then Some(i) else None
  }

  lemma ValueOneMoreDigit(s: string, d: int)
    requires AllDigits(s) && 0 <= d <= 9
    ensures AllDigits(s + [DigitOf(d)]) && Value(s + [DigitOf(d)]) == 10 * Value(s) + d
  {
    assert (s + [DigitOf(d)])[..|s|] == s;
  }

  lemma QuotientRemainder(n: nat)
    ensures 0 <= n % 10 <= 9 && n == 10 * (n / 10) + n % 10
    ensures n < 10 ==> n % 10 == n
  {
  }

  lemma {:induction false} PrintNatParses(n: nat)
    ensures PrintNat(n) != [] && AllDigits(PrintNat(n)) && Value(PrintNat(n)) == n
  {
    QuotientRemainder(n);
    if n < 10 {
      ValueOneMoreDigit([], n);
    } else {
      PrintNatParses(n / 10);
      ValueOneMoreDigit(PrintNat(n / 10), n % 10);
    }
  }

  lemma ParseDigits(digits: string)
    requires digits != [] && AllDigits(digits)
    ensures ParseInt64(digits) == if FitsInt64(Value(digits)) then Some(Value(digits)) else None
  {
    assert IsDigit(digits[0]);
  }

  lemma ParseNegated(digits: string)
    requires digits != [] && AllDigits(digits)
    ensures ParseInt64(['-'] + digits) == if FitsInt64(-Value(digits)) then Some(-Value(digits)) else None
  {
    assert (['-'] + digits)[1..] == digits;
  }

  /** A plus sign is welcome too, and nothing but digits after a sign is. */
  lemma ParseOther(s: string)
    ensures ParseInt64(s).Some? ==> s != [] && AllDigits(if s[0] in {'+', '-'} then s[1..] else s)
    ensures s != [] && AllDigits(s) ==> ParseInt64(['+'] + s) == ParseInt64(s)
  {
    if s != [] && AllDigits(s) {
      ParseDigits(s);
      assert (['+'] + s)[1..] == s;
    }
  }

  /** What is printed is read back. */
  lemma ParsePrint(i: int)
    requires FitsInt64(i)
    ensures ParseInt64(Print(i)) == Some(i)
  {
    if i < 0 {
      PrintNatParses(-i);
      ParseNegated(PrintNat(-i));
    } else {
      PrintNatParses(i);
      ParseDigits(PrintNat(i));
    }
  }
}
