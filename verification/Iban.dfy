/** The IBAN check: ISO/IEC 7064, pure system MOD 97-10. */
module Iban {
  import opened Decimals
  import opened Prelude

  // ----- the check

  /** strings.ToUpper on what can end up as an ASCII letter: a-z, dotless i and long s. */
  function Upper(c: char): char {
    if 'a' <= c <= 'z' then (c as int - 32) as char
    else if c == '\U{0131}' then 'I'
    else if c == '\U{017F}' then 'S'
    else c
  }

  function Clean(s: string): string {
    if s == [] then []
    else (if Separator(s[0]) then [] else [Upper(s[0])]) + Clean(s[1..])
  }

  predicate IsLetter(c: char) {
    'A' <= c <= 'Z'
  }

  predicate Alphanumeric(s: string) {
    forall i | 0 <= i < |s| :: IsDigit(s[i]) || IsLetter(s[i])
  }

  /** A letter stands for two digits, A=10 to Z=35; a digit for itself. */
  function Expanded(c: char): string
    requires IsDigit(c) || IsLetter(c)
  {
    if IsDigit(c) then [c]
    else
      var num := c as int - 'A' as int + 10;
      [DigitOf(num / 10), DigitOf(num % 10)]
  }

  function Expand(s: string): string
    requires Alphanumeric(s)
  {
    if s == [] then []
    else Expand(s[..|s| - 1]) + Expanded(s[|s| - 1])
  }

  lemma {:induction false} ExpandIsDigits(s: string)
    requires Alphanumeric(s)
    ensures AllDigits(Expand(s))
  {
    if s != [] {
      ExpandIsDigits(s[..|s| - 1]);
    }
  }

  function Rearranged(cleaned: string): string {
    if |cleaned| < 4 then cleaned else cleaned[4..] + cleaned[..4]
  }

  predicate AdmissibleLength(cleaned: string) {
    15 <= |cleaned| <= 34 && (cleaned[..2] == "TR" ==> |cleaned| == 26)
  }

  /** What the check accepts, on a cleaned string. */
  predicate Accepts(cleaned: string) {
    && AdmissibleLength(cleaned)
    && Alphanumeric(Rearranged(cleaned))
    && (ExpandIsDigits(Rearranged(cleaned)); Value(Expand(Rearranged(cleaned))) % 97 == 1)
  }

  /** The digit string, unless a character is neither digit nor letter. */
  method Digits(rearranged: string) returns (ok: bool, numericStr: string)
    ensures ok == Alphanumeric(rearranged)
    ensures ok ==> numericStr == Expand(rearranged)
  {
    numericStr := "";
    for i := 0 to |rearranged|
      invariant Alphanumeric(rearranged[..i]) && numericStr == Expand(rearranged[..i])
    {
      var c := rearranged[i];
      TakeOneMore(rearranged, i);
      if IsDigit(c) {
        numericStr := numericStr + [c];
      } else if IsLetter(c) {
        var num := c as int - 'A' as int + 10;
        numericStr := numericStr + [DigitOf(num / 10), DigitOf(num % 10)];
      } else {
        return false, "";
      }
      assert rearranged[..i + 1][..i] == rearranged[..i];
    }
    TakeAll(rearranged);
    ok := true;
  }

  method ValidateIBAN(iban: string) returns (valid: bool)
    ensures valid == Accepts(Clean(iban))
  {
    var cleaned := Clean(iban);
    if |cleaned| < 15 || |cleaned| > 34 {
      return false;
    }
    if "TR" <= cleaned && |cleaned| != 26 {
      return false;
    }
    var ok, numericStr := Digits(cleaned[4..] + cleaned[..4]);
    if !ok {
      return false;
    }
    ExpandIsDigits(Rearranged(cleaned));
    return Value(numericStr) % 97 == 1;
  }

  // ----- the running remainder

  function CharValue(c: char): int
    requires IsDigit(c) || IsLetter(c)
    ensures IsDigit(c) ==> 0 <= CharValue(c) <= 9
    ensures IsLetter(c) ==> 10 <= CharValue(c) <= 35
  {
    if IsDigit(c) then c as int - '0' as int else c as int - 'A' as int + 10
  }

  /** One character further, keeping only the remainder. */
  function Advance(r: int, c: char): (r': int)
    requires 0 <= r < 97 && (IsDigit(c) || IsLetter(c))
    ensures 0 <= r' < 97
  {
    ((if IsDigit(c) then 10 else 100) * r + CharValue(c)) % 97
  }

  function Fold(r: int, s: string): (r': int)
    requires 0 <= r < 97 && Alphanumeric(s)
    ensures 0 <= r' < 97
    decreases |s|
  {
    if s == [] then r else Fold(Advance(r, s[0]), s[1..])
  }

  lemma {:induction false} FoldConcat(r: int, a: string, b: string)
    requires 0 <= r < 97 && Alphanumeric(a) && Alphanumeric(b)
    ensures Alphanumeric(a + b) && Fold(r, a + b) == Fold(Fold(r, a), b)
    decreases |a|
  {
    if a == [] {
      assert a + b == b;
    } else {
      FoldConcat(Advance(r, a[0]), a[1..], b);
      assert (a + b)[1..] == a[1..] + b;
    }
  }

  lemma DropMultiples(x: int, k: int)
    ensures (x + 97 * k) % 97 == x % 97
  {
  }

  lemma RemainderShift(v: int, scale: int, d: int)
    requires scale == 10 || scale == 100
    ensures (scale * v + d) % 97 == (scale * (v % 97) + d) % 97
  {
    var q := v / 97;
    if scale == 10 {
      DropMultiples(10 * (v % 97) + d, 10 * q);
    } else {
      DropMultiples(100 * (v % 97) + d, 100 * q);
    }
  }

  lemma ValueOneMore(a: string, c: char)
    requires AllDigits(a) && IsDigit(c)
    ensures AllDigits(a + [c]) && Value(a + [c]) == 10 * Value(a) + CharValue(c)
  {
    assert (a + [c])[..|a|] == a;
  }

  /** Writing one more character multiplies by 10 or 100 and adds its value. */
  lemma ValueExpanded(a: string, c: char)
    requires AllDigits(a) && (IsDigit(c) || IsLetter(c))
    ensures AllDigits(a + Expanded(c))
    ensures Value(a + Expanded(c)) == (if IsDigit(c) then 10 else 100) * Value(a) + CharValue(c)
  {
    if IsDigit(c) {
      ValueOneMore(a, c);
    } else {
      var tens, units := Expanded(c)[0], Expanded(c)[1];
      ValueOneMore(a, tens);
      ValueOneMore(a + [tens], units);
      assert a + Expanded(c) == (a + [tens]) + [units];
    }
  }

  /** The digit string the loop builds leaves the same remainder as a fold that never holds a big number. */
  lemma {:induction false} ExpansionFolds(s: string)
    requires Alphanumeric(s)
    ensures AllDigits(Expand(s)) && Value(Expand(s)) % 97 == Fold(0, s)
  {
    ExpandIsDigits(s);
    if s != [] {
      var front, last := s[..|s| - 1], s[|s| - 1];
      ExpansionFolds(front);
      ValueExpanded(Expand(front), last);
      AdvanceIsRemainder(Value(Expand(front)), last);
      FoldOneMore(front, last);
      assert front + [last] == s;
    }
  }

  lemma AdvanceIsRemainder(v: int, c: char)
    requires IsDigit(c) || IsLetter(c)
    ensures ((if IsDigit(c) then 10 else 100) * v + CharValue(c)) % 97 == Advance(v % 97, c)
  {
    RemainderShift(v, if IsDigit(c) then 10 else 100, CharValue(c));
  }

  lemma FoldOneMore(front: string, last: char)
    requires Alphanumeric(front) && (IsDigit(last) || IsLetter(last))
    ensures Alphanumeric(front + [last]) && Fold(0, front + [last]) == Advance(Fold(0, front), last)
  {
    FoldConcat(0, front, [last]);
    assert [last][1..] == [];
  }

  /** Acceptance through the fold. */
  lemma AcceptsByFold(cleaned: string)
    ensures Accepts(cleaned) <==>
      AdmissibleLength(cleaned) && Alphanumeric(Rearranged(cleaned)) && Fold(0, Rearranged(cleaned)) == 1
  {
    if Alphanumeric(Rearranged(cleaned)) { ExpansionFolds(Rearranged(cleaned)); }
  }

  // ----- error detection

  predicate SameKind(c: char, d: char) {
    (IsDigit(c) && IsDigit(d)) || (IsLetter(c) && IsLetter(d))
  }

  lemma EqualRemainders(a: int, b: int)
    requires a % 97 == b % 97
    ensures a - b == 97 * (a / 97 - b / 97)
  {
  }

  lemma TenInvertible(d: int, k: int)
    requires 10 * d == 97 * k && -97 < d < 97
    ensures d == 0
  {
    assert k == 10 * (3 * (d - 9 * k) - 2 * k);
  }

  lemma HundredInvertible(d: int, k: int)
    requires 100 * d == 97 * k && -97 < d < 97
    ensures d == 0
  {
    assert k == 100 * (33 * d - 32 * k);
  }

  /** 10 and 100 are invertible modulo 97, so different remainders stay different. */
  lemma AdvanceInjective(r: int, q: int, c: char)
    requires 0 <= r < 97 && 0 <= q < 97 && r != q && (IsDigit(c) || IsLetter(c))
    ensures Advance(r, c) != Advance(q, c)
  {
    var scale := if IsDigit(c) then 10 else 100;
    var x, y := scale * r + CharValue(c), scale * q + CharValue(c);
    if x % 97 == y % 97 {
      EqualRemainders(x, y);
      if IsDigit(c) { TenInvertible(r - q, x / 97 - y / 97); } else { HundredInvertible(r - q, x / 97 - y / 97); }
    }
  }

  lemma {:induction false} FoldInjective(r: int, q: int, s: string)
    requires 0 <= r < 97 && 0 <= q < 97 && r != q && Alphanumeric(s)
    ensures Fold(r, s) != Fold(q, s)
    decreases |s|
  {
    if s != [] {
      AdvanceInjective(r, q, s[0]);
      FoldInjective(Advance(r, s[0]), Advance(q, s[0]), s[1..]);
    }
  }

  lemma SumsApart(n: int, x: int, y: int)
    requires x != y && -97 < x - y < 97
    ensures (n + x) % 97 != (n + y) % 97
  {
    if (n + x) % 97 == (n + y) % 97 { EqualRemainders(n + x, n + y); }
  }

  lemma AdvanceTellsApart(r: int, c: char, d: char)
    requires 0 <= r < 97 && SameKind(c, d) && c != d
    ensures Advance(r, c) != Advance(r, d)
  {
    SumsApart((if IsDigit(c) then 10 else 100) * r, CharValue(c), CharValue(d));
  }

  /** Nine times a difference of two digits is no multiple of 97 ... */
  lemma DigitOrder(n: int, x: int, y: int)
    requires 0 <= x <= 9 && 0 <= y <= 9 && x != y
    ensures (10 * (n + x) + y) % 97 != (10 * (n + y) + x) % 97
  {
    var a, b := 10 * (n + x) + y, 10 * (n + y) + x;
    if a % 97 == b % 97 { EqualRemainders(a, b); }
  }

  /** ... and neither is 99 times a difference of two letter values. */
  lemma LetterOrder(n: int, x: int, y: int)
    requires 10 <= x <= 35 && 10 <= y <= 35 && x != y
    ensures (100 * (n + x) + y) % 97 != (100 * (n + y) + x) % 97
  {
    var a, b := 100 * (n + x) + y, 100 * (n + y) + x;
    if a % 97 == b % 97 { EqualRemainders(a, b); }
  }

  lemma OrderShows(r: int, scale: int, x: int, y: int)
    requires x != y
    requires (scale == 10 && 0 <= x <= 9 && 0 <= y <= 9) || (scale == 100 && 10 <= x <= 35 && 10 <= y <= 35)
    ensures (scale * (scale * r + x) + y) % 97 != (scale * (scale * r + y) + x) % 97
  {
    if scale == 10 { DigitOrder(10 * r, x, y); } else { LetterOrder(100 * r, x, y); }
  }

  lemma AdvanceTwice(r: int, c: char, d: char)
    requires 0 <= r < 97 && SameKind(c, d)
    ensures var scale := if IsDigit(c) then 10 else 100;
      Advance(Advance(r, c), d) == (scale * (scale * r + CharValue(c)) + CharValue(d)) % 97
  {
    TwoStepRemainder(r, if IsDigit(c) then 10 else 100, CharValue(c), CharValue(d));
  }

  lemma AdvanceTellsOrder(r: int, c: char, d: char)
    requires 0 <= r < 97 && SameKind(c, d) && c != d
    ensures Advance(Advance(r, c), d) != Advance(Advance(r, d), c)
  {
    AdvanceTwice(r, c, d);
    AdvanceTwice(r, d, c);
    OrderShows(r, if IsDigit(c) then 10 else 100, CharValue(c), CharValue(d));
  }

  lemma TwoStepRemainder(r: int, scale: int, x: int, y: int)
    requires scale == 10 || scale == 100
    ensures (scale * ((scale * r + x) % 97) + y) % 97 == (scale * (scale * r + x) + y) % 97
  {
    RemainderShift(scale * r + x, scale, y);
  }

  /** Replacing a stretch by one that leads to another remainder changes the result. */
  lemma FoldTellsApart(pre: string, x: string, y: string, post: string)
    requires Alphanumeric(pre) && Alphanumeric(x) && Alphanumeric(y) && Alphanumeric(post)
    requires Fold(Fold(0, pre), x) != Fold(Fold(0, pre), y)
    ensures Alphanumeric(pre + x + post) && Alphanumeric(pre + y + post)
    ensures Fold(0, pre + x + post) != Fold(0, pre + y + post)
  {
    FoldConcat(0, pre, x);
    FoldConcat(0, pre + x, post);
    FoldConcat(0, pre, y);
    FoldConcat(0, pre + y, post);
    FoldInjective(Fold(Fold(0, pre), x), Fold(Fold(0, pre), y), post);
  }

  // ----- on the raw input

  lemma {:induction false} CleanConcat(a: string, b: string)
    ensures Clean(a + b) == Clean(a) + Clean(b)
  {
    if a == [] {
      assert a + b == b;
    } else {
      CleanConcat(a[1..], b);
      assert (a + b)[1..] == a[1..] + b;
      ConcatAssociates(if Separator(a[0]) then [] else [Upper(a[0])], Clean(a[1..]), Clean(b));
    }
  }

  lemma {:induction false} CleanAround(pre: string, mid: string, post: string)
    requires forall i | 0 <= i < |mid| :: !Separator(mid[i])
    ensures |Clean(mid)| == |mid| && forall i | 0 <= i < |mid| :: Clean(mid)[i] == Upper(mid[i])
    ensures Clean(pre + mid + post) == Clean(pre) + Clean(mid) + Clean(post)
    decreases |mid|
  {
    CleanConcat(pre + mid, post);
    CleanConcat(pre, mid);
    if mid != [] { CleanAround([], mid[1..], []); }
  }

  /** What stands before and after a stretch of n characters once the number is rearranged. */
  function Before(pre: string, n: nat, post: string): string
    requires |pre| >= 4 || |pre| + n <= 4 <= |pre| + n + |post|
  {
    if |pre| >= 4 then pre[4..] else post[4 - |pre| - n..] + pre
  }

  function Behind(pre: string, n: nat, post: string): string
    requires |pre| >= 4 || |pre| + n <= 4 <= |pre| + n + |post|
  {
    if |pre| >= 4 then post + pre[..4] else post[..4 - |pre| - n]
  }

  lemma RearrangedAround(pre: string, x: string, post: string)
    requires |pre| >= 4 || |pre| + |x| <= 4 <= |pre| + |x| + |post|
    ensures Rearranged(pre + x + post) == Before(pre, |x|, post) + x + Behind(pre, |x|, post)
  {
    if |pre| >= 4 {
      var head, rest := pre[..4], pre[4..];
      assert pre == head + rest;
      assert pre + x + post == head + (rest + x + post);
      SplitConcat(head, rest + x + post);
      ConcatAssociates(rest + x, post, head);
    } else {
      var cut := 4 - |pre| - |x|;
      var head, rest := post[..cut], post[cut..];
      assert post == head + rest;
      assert pre + x + post == (pre + x + head) + rest;
      SplitConcat(pre + x + head, rest);
      assert rest + (pre + x + head) == rest + pre + x + head;
    }
  }

  lemma AlphanumericParts(a: string, x: string, b: string)
    requires Alphanumeric(a + x + b)
    ensures Alphanumeric(a) && Alphanumeric(b)
  {
    var all := a + x + b;
    assert forall i | 0 <= i < |a| :: a[i] == all[i];
    assert forall i | 0 <= i < |b| :: b[i] == all[|a + x| + i];
  }

  /** Replacing x by y, of the same length, inside one of the two rearranged parts. */
  lemma ReplacementRejected(pre: string, x: string, y: string, post: string)
    requires |x| == |y| && (|pre| >= 4 || |pre| + |x| <= 4) && Alphanumeric(x) && Alphanumeric(y)
    requires forall r | 0 <= r < 97 :: Fold(r, x) != Fold(r, y)
    requires Accepts(pre + x + post)
    ensures !Accepts(pre + y + post)
  {
    AcceptsByFold(pre + x + post);
    AcceptsByFold(pre + y + post);
    RearrangedAround(pre, x, post);
    RearrangedAround(pre, y, post);
    var before, after := Before(pre, |x|, post), Behind(pre, |x|, post);
    AlphanumericParts(before, x, after);
    FoldTellsApart(before, x, y, after);
  }

  /** From a valid IBAN, writing another digit for a digit or another letter for a letter is always caught. */
  lemma SubstitutionRejected(pre: string, c: char, d: char, post: string)
    requires Accepts(Clean(pre + [c] + post))
    requires SameKind(Upper(c), Upper(d)) && Upper(c) != Upper(d)
    ensures !Accepts(Clean(pre + [d] + post))
  {
    CleanAround(pre, [c], post);
    CleanAround(pre, [d], post);
    assert Clean([c]) == [Upper(c)] && Clean([d]) == [Upper(d)];
    forall r | 0 <= r < 97 ensures Fold(r, [Upper(c)]) != Fold(r, [Upper(d)]) {
      AdvanceTellsApart(r, Upper(c), Upper(d));
      assert [Upper(c)][1..] == [] && [Upper(d)][1..] == [];
    }
    ReplacementRejected(Clean(pre), [Upper(c)], [Upper(d)], Clean(post));
  }

  /** From a valid IBAN, swapping two different neighbouring digits or letters is caught wherever they stay
      neighbours in the rearranged number, which those at positions 3 and 4 do not. */
  lemma SwapRejected(pre: string, c: char, d: char, post: string)
    requires Accepts(Clean(pre + [c, d] + post)) && |Clean(pre)| != 3
    requires SameKind(Upper(c), Upper(d)) && Upper(c) != Upper(d)
    ensures !Accepts(Clean(pre + [d, c] + post))
  {
    var x, y := [Upper(c), Upper(d)], [Upper(d), Upper(c)];
    CleanAround(pre, [c, d], post);
    CleanAround(pre, [d, c], post);
    assert Clean([c, d]) == x && Clean([d, c]) == y;
    forall r | 0 <= r < 97 ensures Fold(r, x) != Fold(r, y) {
      AdvanceTellsOrder(r, Upper(c), Upper(d));
      TwoCharFold(r, Upper(c), Upper(d));
      TwoCharFold(r, Upper(d), Upper(c));
    }
    ReplacementRejected(Clean(pre), x, y, Clean(post));
  }

  lemma TwoCharFold(r: int, c: char, d: char)
    requires 0 <= r < 97 && (IsDigit(c) || IsLetter(c)) && (IsDigit(d) || IsLetter(d))
    ensures Fold(r, [c, d]) == Advance(Advance(r, c), d)
  {
    var q := Advance(r, c);
    assert [c, d][1..] == [d] && [d][1..] == [];
    assert Fold(q, [d]) == Fold(Advance(q, d), []);
  }

  // ----- the check digits

  function TwoDigits(n: int): string
    requires 0 <= n <= 99
  {
    [DigitOf(n / 10), DigitOf(n % 10)]
  }

  predicate AdmissibleParts(country: string, body: string) {
    && |country| == 2 && 11 <= |body| <= 30 && Alphanumeric(country) && Alphanumeric(body)
    && (country == "TR" ==> |body| == 22)
  }

  lemma WithCheckDigits(country: string, n: int, body: string)
    requires AdmissibleParts(country, body) && 0 <= n <= 99
    ensures var cleaned := country + TwoDigits(n) + body;
      AdmissibleLength(cleaned) && Rearranged(cleaned) == (body + country) + TwoDigits(n)
  {
    var cleaned := country + TwoDigits(n) + body;
    assert cleaned[..2] == country && cleaned[4..] == body && cleaned[..4] == country + TwoDigits(n);
    ConcatAssociates(body, country, TwoDigits(n));
  }

  /** These two check digits complete the remainder of what precedes them. */
  predicate Completes(key: int, n: int) {
    (100 * key + n) % 97 == 1
  }

  lemma CheckDigitsFold(country: string, n: int, body: string)
    requires AdmissibleParts(country, body) && 0 <= n <= 99
    ensures Alphanumeric(body + country)
    ensures CheckAccepted(country, n, body) <==> Completes(Fold(0, body + country), n)
  {
    var key := body + country;
    WithCheckDigits(country, n, body);
    AcceptsByFold(country + TwoDigits(n) + body);
    FoldConcat(0, key, TwoDigits(n));
    var r := Fold(0, key);
    TwoCharFold(r, DigitOf(n / 10), DigitOf(n % 10));
    TwoStepRemainder(r, 10, n / 10, n % 10);
    assert 10 * (10 * r + n / 10) + n % 10 == 100 * r + n;
  }

  predicate CheckAccepted(country: string, n: int, body: string)
    requires 0 <= n <= 99
  {
    Accepts(country + TwoDigits(n) + body)
  }

  /** The check value from 02 to 98 that completes a remainder. */
  function CheckValue(key: int): (check: int)
    ensures 2 <= check <= 98
  {
    2 + (-(100 * key) - 1) % 97
  }

  lemma UniqueResidue(key: int, n: int)
    requires 2 <= n <= 98
    ensures Completes(key, n) <==> n == CheckValue(key)
  {
    var k, check := 100 * key, CheckValue(key);
    assert k + check == 1 + 97 * -((-k - 1) / 97);
    DropMultiples(1, -((-k - 1) / 97));
    if (k + n) % 97 == 1 { EqualRemainders(k + n, k + check); }
  }

  /** For every country code and body of admissible length exactly one of the check values 02 to 98 is accepted. */
  lemma UniqueCheckDigits(country: string, n: int, body: string)
    requires AdmissibleParts(country, body) && 2 <= n <= 98
    ensures Alphanumeric(body + country)
    ensures CheckAccepted(country, n, body) <==> n == CheckValue(Fold(0, body + country))
  {
    CheckDigitsFold(country, n, body);
    UniqueResidue(Fold(0, body + country), n);
  }

  // ----- in plain figures

  /** A stands for 10, B for 11, up to 35 for Z; a digit for itself. */
  lemma LettersStandFor(c: char)
    requires IsDigit(c) || IsLetter(c)
    ensures AllDigits(Expanded(c))
    ensures Value(Expanded(c)) == if '0' <= c <= '9' then c as int - '0' as int else c as int - 'A' as int + 10
    ensures |Expanded(c)| == if '0' <= c <= '9' then 1 else 2
  {
    ValueExpanded([], c);
    assert [] + Expanded(c) == Expanded(c);
  }

  /** What is checked of the cleaned string: its length, 26 for Turkey, its characters, and the number it denotes once
      the first four have moved to the end. */
  lemma AcceptsMeans(cleaned: string)
    ensures Accepts(cleaned) <==>
      && 15 <= |cleaned| <= 34 && ("TR" <= cleaned ==> |cleaned| == 26)
      && var moved := cleaned[4..] + cleaned[..4];
      && Alphanumeric(moved) && (ExpandIsDigits(moved); Value(Expand(moved)) % 97 == 1)
  {
    assert |cleaned| >= 2 ==> ("TR" <= cleaned <==> cleaned[..2] == "TR");
  }

  /** Spaces and dashes do not matter. */
  lemma SeparatorsDoNotMatter(pre: string, c: char, post: string)
    requires c == ' ' || c == '-'
    ensures Clean(pre + [c] + post) == Clean(pre + post)
  {
    CleanConcat(pre + [c], post);
    CleanConcat(pre, [c]);
    CleanConcat(pre, post);
    assert [c][1..] == [] && Clean([c]) == [];
  }

  /** Nor does the case of a letter. */
  lemma CaseDoesNotMatter(pre: string, lower: char, upper: char, post: string)
    requires 'a' <= lower <= 'z' && upper as int == lower as int - 32
    ensures Clean(pre + [lower] + post) == Clean(pre + [upper] + post)
    ensures Clean([upper]) == [upper]
  {
    CleanAround(pre, [lower], post);
    CleanAround(pre, [upper], post);
    assert Clean([lower]) == Clean([upper]) == [upper];
  }

  lemma SameRemainderScaled(v: int)
    ensures (100 * v) % 97 == (100 * (v % 97)) % 97
  {
    RemainderShift(v, 100, 0);
  }

  lemma NinetyEightLess(k: int)
    ensures 2 + (-k - 1) % 97 == 98 - k % 97
  {
    var m := k % 97;
    assert -k - 1 == 97 * (-(k / 97) - 1) + (96 - m);
    DropMultiples(96 - m, -(k / 97) - 1);
  }

  lemma IsoCheckValue(v: int)
    ensures CheckValue(v % 97) == 98 - (100 * v) % 97
  {
    SameRemainderScaled(v);
    NinetyEightLess(100 * (v % 97));
  }

  /** The check digits are 98 less the remainder of the rest, with 00 in their place, modulo 97, as ISO/IEC 7064 has
      them. */
  lemma CheckDigitsAre(country: string, n: int, body: string)
    requires AdmissibleParts(country, body) && 2 <= n <= 98
    ensures Alphanumeric(body + country) && AllDigits(Expand(body + country))
    ensures CheckAccepted(country, n, body) <==> n == 98 - (100 * Value(Expand(body + country))) % 97
  {
    UniqueCheckDigits(country, n, body);
    ExpansionFolds(body + country);
    IsoCheckValue(Value(Expand(body + country)));
  }
}
