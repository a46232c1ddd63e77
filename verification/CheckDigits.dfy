/** Luhn (ISO/IEC 7812-1, Annex B) and TCKN, each with both of its implementations. */
module CheckDigits {
  import opened Decimals
  import opened Prelude

  /** The same string with position i rewritten. */
  function With(s: string, i: nat, c: char): string
    requires i < |s|
  {
    s[i := c]
  }

  function Swapped(s: string, i: nat): string
    requires i + 1 < |s|
  {
    s[i := s[i + 1]][i + 1 := s[i]]
  }

  // ----- Luhn

  function Weighted(d: int, doubled: bool): int {
    if !doubled then d else if 2 * d > 9 then 2 * d - 9 else 2 * d
  }

  /** The sum over all digits, every second one from the right doubled. */
  function LuhnSum(s: string): int
    requires AllDigits(s)
  {
    if s == [] then 0 else Weighted(DigitValue(s[0]), |s| % 2 == 0) + LuhnSum(s[1..])
  }

  /** The checksum holds and the length is that of a card number. */
  predicate LuhnHolds(digits: string) {
    13 <= |digits| <= 19 && AllDigits(digits) && LuhnSum(digits) % 10 == 0
  }

  /** What strings.Map leaves: the digits. */
  function DigitsOnly(s: string): (r: string)
    ensures AllDigits(r)
  {
    if s == [] then [] else (if IsDigit(s[0]) then [s[0]] else []) + DigitsOnly(s[1..])
  }

  /** What the two ReplaceAll calls leave: everything but spaces and dashes. */
  function WithoutSeparators(s: string): string {
    if s == [] then [] else (if Separator(s[0]) then [] else [s[0]]) + WithoutSeparators(s[1..])
  }

  predicate DigitsAndSeparators(s: string) {
    forall i | 0 <= i < |s| :: IsDigit(s[i]) || Separator(s[i])
  }

  lemma HeadAndRest(c: char, rest: string)
    ensures AllDigits([c] + rest) <==> IsDigit(c) && AllDigits(rest)
    ensures DigitsAndSeparators([c] + rest) <==> (IsDigit(c) || Separator(c)) && DigitsAndSeparators(rest)
  {
    var s := [c] + rest;
    assert s[0] == c && forall i | 0 <= i < |rest| :: rest[i] == s[i + 1];
    assert forall i | 1 <= i < |s| :: s[i] == rest[i - 1];
  }

  /** One more digit on the left. */
  lemma OneMoreDigit(s: string, i: nat)
    requires i < |s| && IsDigit(s[i]) && AllDigits(s[i + 1..])
    ensures AllDigits(s[i..])
    ensures LuhnSum(s[i..]) == Weighted(DigitValue(s[i]), (|s| - i) % 2 == 0) + LuhnSum(s[i + 1..])
  {
    assert s[i..] == [s[i]] + s[i + 1..];
    HeadAndRest(s[i], s[i + 1..]);
    assert s[i..][1..] == s[i + 1..];
  }

  lemma ParityFlips(n: int)
    ensures (n - 1) % 2 == 0 <==> n % 2 != 0
  {
  }

  /** pii.ValidateLuhn */
  method ValidateLuhn(number: string) returns (valid: bool)
    ensures valid == LuhnHolds(DigitsOnly(number))
  {
    var cleaned := DigitsOnly(number);
    if |cleaned| < 13 || |cleaned| > 19 {
      return false;
    }
    var sum := 0;
    var alternate := false;
    var i := |cleaned| - 1;
    while i >= 0
      invariant -1 <= i < |cleaned|
      invariant alternate == ((|cleaned| - i) % 2 == 0)
      invariant AllDigits(cleaned[i + 1..]) && sum == LuhnSum(cleaned[i + 1..])
    {
      OneMoreDigit(cleaned, i);
      ParityFlips(|cleaned| - i + 1);
      var n := DigitValue(cleaned[i]);
      if alternate {
        n := n * 2;
        if n > 9 {
          n := n - 9;
        }
      }
      sum := sum + n;
      alternate := !alternate;
      i := i - 1;
    }
    assert cleaned[0..] == cleaned;
    return sum % 10 == 0;
  }

  /** ai.isValidLuhn */
  method IsValidLuhn(number: string) returns (valid: bool)
    ensures valid == LuhnHolds(WithoutSeparators(number))
  {
    var clean := WithoutSeparators(number);
    if |clean| < 13 || |clean| > 19 {
      return false;
    }
    var sum := 0;
    var alternate := false;
    var i := |clean| - 1;
    while i >= 0
      invariant -1 <= i < |clean|
      invariant alternate == ((|clean| - i) % 2 == 0)
      invariant AllDigits(clean[i + 1..]) && sum == LuhnSum(clean[i + 1..])
    {
      if !IsDigit(clean[i]) {
        return false;
      }
      OneMoreDigit(clean, i);
      ParityFlips(|clean| - i + 1);
      var digit := DigitValue(clean[i]);
      if alternate {
        digit := digit * 2;
        if digit > 9 {
          digit := digit - 9;
        }
      }
      sum := sum + digit;
      alternate := !alternate;
      i := i - 1;
    }
    assert clean[0..] == clean;
    return sum % 10 == 0;
  }

  lemma {:induction false} SameCleaning(s: string)
    ensures AllDigits(WithoutSeparators(s)) <==> DigitsAndSeparators(s)
    ensures DigitsAndSeparators(s) ==> WithoutSeparators(s) == DigitsOnly(s)
  {
    if s != [] {
      SameCleaning(s[1..]);
      assert s == [s[0]] + s[1..];
      HeadAndRest(s[0], s[1..]);
      HeadAndRest(s[0], WithoutSeparators(s[1..]));
      assert [] + WithoutSeparators(s[1..]) == WithoutSeparators(s[1..]);
    }
  }

  /** For every string: the second implementation accepts exactly what the first accepts among strings made of
      digits, spaces and dashes, and nothing else. */
  lemma LuhnImplementationsAgree(s: string)
    ensures LuhnHolds(WithoutSeparators(s)) <==> LuhnHolds(DigitsOnly(s)) && DigitsAndSeparators(s)
  {
    SameCleaning(s);
  }

  /** What rewriting x as y adds to the sum. */
  function Gain(x: int, y: int, doubled: bool): int {
    Weighted(y, doubled) - Weighted(x, doubled)
  }

  /** How the sum depends on one digit. */
  lemma {:induction false} LuhnSumAt(s: string, i: nat, c: char)
    requires i < |s| && AllDigits(s) && IsDigit(c)
    ensures AllDigits(With(s, i, c))
    ensures LuhnSum(With(s, i, c)) == LuhnSum(s) + Gain(DigitValue(s[i]), DigitValue(c), (|s| - i) % 2 == 0)
  {
    if i == 0 {
      assert With(s, 0, c)[1..] == s[1..];
    } else {
      LuhnSumAt(s[1..], i - 1, c);
      assert With(s, i, c)[1..] == With(s[1..], i - 1, c);
    }
  }

  lemma WeightedTellsApart(x: int, y: int, doubled: bool)
    requires 0 <= x <= 9 && 0 <= y <= 9
    ensures Gain(x, y, doubled) % 10 == 0 <==> x == y
  {
  }

  lemma WeightedTellsOrder(x: int, y: int, doubled: bool)
    requires 0 <= x <= 9 && 0 <= y <= 9
    ensures (Gain(x, y, doubled) + Gain(y, x, !doubled)) % 10 == 0
       <==> x == y || (x == 0 && y == 9) || (x == 9 && y == 0)
  {
  }

  lemma SameRemainder(a: int, d: int)
    requires a % 10 == 0
    ensures (a + d) % 10 == 0 <==> d % 10 == 0
  {
  }

  lemma StillHolds(s: string, t: string, d: int)
    requires LuhnHolds(s) && |t| == |s| && AllDigits(t) && LuhnSum(t) == LuhnSum(s) + d
    ensures LuhnHolds(t) <==> d % 10 == 0
  {
    SameRemainder(LuhnSum(s), d);
  }

  /** Every change of one digit of a valid number is caught. */
  lemma LuhnCatchesOneDigit(s: string, i: nat, c: char)
    requires LuhnHolds(s) && i < |s| && IsDigit(c) && c != s[i]
    ensures !LuhnHolds(With(s, i, c))
  {
    var doubled := (|s| - i) % 2 == 0;
    LuhnSumAt(s, i, c);
    WeightedTellsApart(DigitValue(s[i]), DigitValue(c), doubled);
    StillHolds(s, With(s, i, c), Gain(DigitValue(s[i]), DigitValue(c), doubled));
  }

  /** 0 next to 9. */
  predicate ZeroNine(c: char, d: char) {
    (c == '0' && d == '9') || (c == '9' && d == '0')
  }

  lemma SumAt(s: string, i: nat, c: char, t: string, gain: int)
    requires i < |s| && AllDigits(s) && IsDigit(c) && t == With(s, i, c)
    requires gain == Gain(DigitValue(s[i]), DigitValue(c), (|s| - i) % 2 == 0)
    ensures |t| == |s| && AllDigits(t) && LuhnSum(t) == LuhnSum(s) + gain
  {
    LuhnSumAt(s, i, c);
  }

  lemma SwapGain(s: string, i: nat)
    requires AllDigits(s) && i + 1 < |s|
    ensures |Swapped(s, i)| == |s| && AllDigits(Swapped(s, i))
    ensures LuhnSum(Swapped(s, i)) == LuhnSum(s) + SwapDelta(s, i)
  {
    var x, y, doubled := DigitValue(s[i]), DigitValue(s[i + 1]), (|s| - i) % 2 == 0;
    var once := With(s, i, s[i + 1]);
    SumAt(s, i, s[i + 1], once, Gain(x, y, doubled));
    ParityFlips(|s| - i);
    SumAt(once, i + 1, s[i], Swapped(s, i), Gain(y, x, !doubled));
  }

  function SwapDelta(s: string, i: nat): int
    requires AllDigits(s) && i + 1 < |s|
  {
    var x, y, doubled := DigitValue(s[i]), DigitValue(s[i + 1]), (|s| - i) % 2 == 0;
    Gain(x, y, doubled) + Gain(y, x, !doubled)
  }

  /** A swap of two neighbours is caught exactly when they differ and are not 0 and 9. */
  lemma LuhnSwap(s: string, i: nat)
    requires LuhnHolds(s) && i + 1 < |s|
    ensures LuhnHolds(Swapped(s, i)) <==> s[i] == s[i + 1] || ZeroNine(s[i], s[i + 1])
  {
    var x, y, doubled := DigitValue(s[i]), DigitValue(s[i + 1]), (|s| - i) % 2 == 0;
    SwapGain(s, i);
    WeightedTellsOrder(x, y, doubled);
    StillHolds(s, Swapped(s, i), SwapDelta(s, i));
  }

  // ----- Luhn on numbers as they are written

  lemma {:induction false} DigitsConcat(a: string, b: string)
    ensures DigitsOnly(a + b) == DigitsOnly(a) + DigitsOnly(b)
  {
    if a == [] {
      assert a + b == b;
    } else {
      assert (a + b)[1..] == a[1..] + b;
      DigitsConcat(a[1..], b);
      ConcatAssociates(if IsDigit(a[0]) then [a[0]] else [], DigitsOnly(a[1..]), DigitsOnly(b));
    }
  }

  lemma DigitsAround(pre: string, c: char, post: string)
    requires IsDigit(c)
    ensures DigitsOnly(pre + [c] + post) == DigitsOnly(pre) + [c] + DigitsOnly(post)
  {
    DigitsConcat(pre + [c], post);
    DigitsConcat(pre, [c]);
    assert [c][1..] == [] && DigitsOnly([c]) == [c] + [];
  }

  /** What both implementations accept, each in its own reading of the string. */
  predicate Written(s: string, strict: bool) {
    LuhnHolds(if strict then WithoutSeparators(s) else DigitsOnly(s))
  }

  lemma WrittenIff(s: string, strict: bool)
    ensures Written(s, strict) <==> LuhnHolds(DigitsOnly(s)) && (strict ==> DigitsAndSeparators(s))
  {
    LuhnImplementationsAgree(s);
  }

  lemma Judged(s: string, t: string, strict: bool)
    requires Written(s, strict) && (DigitsAndSeparators(s) <==> DigitsAndSeparators(t))
    ensures LuhnHolds(DigitsOnly(s))
    ensures Written(t, strict) <==> LuhnHolds(DigitsOnly(t))
  {
    WrittenIff(s, strict);
    WrittenIff(t, strict);
  }

  lemma DigitChange(a: string, c: char, d: char, b: string)
    requires LuhnHolds(a + [c] + b) && IsDigit(d) && c != d
    ensures !LuhnHolds(a + [d] + b)
  {
    var s := a + [c] + b;
    assert s[|a|] == c && With(s, |a|, d) == a + [d] + b;
    LuhnCatchesOneDigit(s, |a|, d);
  }

  lemma SeparatorsAround(pre: string, c: char, d: char, post: string)
    requires IsDigit(c) && IsDigit(d)
    ensures DigitsAndSeparators(pre + [c] + post) <==> DigitsAndSeparators(pre + [d] + post)
  {
    var s, t := pre + [c] + post, pre + [d] + post;
    assert forall i | 0 <= i < |s| :: s[i] == t[i] || (IsDigit(s[i]) && IsDigit(t[i]));
  }

  /** Whatever stands around it, in either implementation: one digit written wrong is caught. */
  lemma WrittenDigitCaught(pre: string, c: char, d: char, post: string, strict: bool)
    requires Written(pre + [c] + post, strict) && IsDigit(c) && IsDigit(d) && c != d
    ensures !Written(pre + [d] + post, strict)
  {
    SeparatorsAround(pre, c, d, post);
    Judged(pre + [c] + post, pre + [d] + post, strict);
    DigitsAround(pre, c, post);
    DigitsAround(pre, d, post);
    DigitChange(DigitsOnly(pre), c, d, DigitsOnly(post));
  }

  lemma DigitsAroundTwo(pre: string, c: char, gap: string, d: char, post: string)
    requires IsDigit(c) && IsDigit(d) && DigitsOnly(gap) == []
    ensures DigitsOnly(pre + [c] + gap + [d] + post) == DigitsOnly(pre) + [c, d] + DigitsOnly(post)
  {
    DigitsAround(pre + [c] + gap, d, post);
    DigitsAround(pre, c, gap);
    assert DigitsOnly(pre) + [c] + [] + [d] == DigitsOnly(pre) + [c, d];
  }

  lemma SeparatorsAroundTwo(pre: string, c: char, gap: string, d: char, post: string)
    requires IsDigit(c) && IsDigit(d)
    ensures DigitsAndSeparators(pre + [c] + gap + [d] + post) <==> DigitsAndSeparators(pre + [d] + gap + [c] + post)
  {
    var s, t := pre + [c] + gap + [d] + post, pre + [d] + gap + [c] + post;
    assert forall i | 0 <= i < |s| :: s[i] == t[i] || (IsDigit(s[i]) && IsDigit(t[i]));
  }

  lemma DigitSwap(a: string, c: char, d: char, b: string)
    requires LuhnHolds(a + [c, d] + b)
    ensures LuhnHolds(a + [d, c] + b) <==> c == d || ZeroNine(c, d)
  {
    var s := a + [c, d] + b;
    assert s[|a|] == c && s[|a| + 1] == d && Swapped(s, |a|) == a + [d, c] + b;
    LuhnSwap(s, |a|);
  }

  /** The same for two neighbouring digits, separated or not: their swap passes exactly when they are equal or 0 and
      9. */
  lemma WrittenSwap(pre: string, c: char, gap: string, d: char, post: string, strict: bool)
    requires Written(pre + [c] + gap + [d] + post, strict) && IsDigit(c) && IsDigit(d) && DigitsOnly(gap) == []
    ensures Written(pre + [d] + gap + [c] + post, strict) <==> c == d || ZeroNine(c, d)
  {
    SeparatorsAroundTwo(pre, c, gap, d, post);
    Judged(pre + [c] + gap + [d] + post, pre + [d] + gap + [c] + post, strict);
    DigitsAroundTwo(pre, c, gap, d, post);
    DigitsAroundTwo(pre, d, gap, c, post);
    DigitSwap(DigitsOnly(pre), c, d, DigitsOnly(post));
  }

  // ----- Luhn as the standard has it

  /** From the right, two digits at a time: the second of them doubled and its digits added up. */
  function LuhnReference(s: string): int
    requires AllDigits(s)
  {
    var n := |s|;
    if n == 0 then 0
    else if n == 1 then DigitValue(s[0])
    else
      var twice := 2 * DigitValue(s[n - 2]);
      LuhnReference(s[..n - 2]) + (twice / 10 + twice % 10) + DigitValue(s[n - 1])
  }

  lemma DoubledDigit(d: int)
    requires 0 <= d <= 9
    ensures Weighted(d, true) == 2 * d / 10 + 2 * d % 10 && Weighted(d, false) == d
  {
  }

  lemma {:induction false} TwoMoreDigits(s: string, c: char, d: char)
    requires AllDigits(s) && IsDigit(c) && IsDigit(d)
    ensures AllDigits(s + [c, d])
    ensures LuhnSum(s + [c, d]) == LuhnSum(s) + Weighted(DigitValue(c), true) + DigitValue(d)
  {
    var all := s + [c, d];
    if s == [] {
      assert all == [c, d] && all[1..] == [d] && [d][1..] == [];
      assert LuhnSum([d]) == DigitValue(d);
    } else {
      TwoMoreDigits(s[1..], c, d);
      assert all[0] == s[0] && all[1..] == s[1..] + [c, d];
      ParityOfTwoMore(|s|);
    }
  }

  lemma ParityOfTwoMore(n: int)
    ensures (n + 2) % 2 == n % 2
  {
  }

  lemma {:induction false} LuhnSumIsReference(s: string)
    requires AllDigits(s)
    ensures LuhnSum(s) == LuhnReference(s)
  {
    var n := |s|;
    if n == 1 {
      assert s[1..] == [];
    } else if n >= 2 {
      assert s == s[..n - 2] + [s[n - 2], s[n - 1]];
      LuhnSumIsReference(s[..n - 2]);
      TwoMoreDigits(s[..n - 2], s[n - 2], s[n - 1]);
      DoubledDigit(DigitValue(s[n - 2]));
    }
  }

  /** Thirteen to nineteen digits whose reference sum ends in zero, and nothing else. */
  lemma LuhnHoldsMeans(s: string)
    ensures LuhnHolds(s) <==> 13 <= |s| <= 19 && AllDigits(s) && LuhnReference(s) % 10 == 0
  {
    if AllDigits(s) {
      LuhnSumIsReference(s);
    }
  }

  lemma LastDigitCounts(payload: string, d: char)
    requires AllDigits(payload) && IsDigit(d)
    ensures AllDigits(payload + ['0']) && AllDigits(payload + [d])
    ensures LuhnSum(payload + [d]) == LuhnSum(payload + ['0']) + DigitValue(d)
  {
    var zero := payload + ['0'];
    assert With(zero, |payload|, d) == payload + [d] && zero[|payload|] == '0';
    LuhnSumAt(zero, |payload|, d);
  }

  lemma HoldsBySum(s: string, sum: int)
    requires 13 <= |s| <= 19 && AllDigits(s) && LuhnSum(s) == sum
    ensures LuhnHolds(s) <==> sum % 10 == 0
  {
  }

  lemma CompletedBySum(payload: string, d: char, sum: int)
    requires 12 <= |payload| <= 18 && AllDigits(payload) && IsDigit(d)
    requires AllDigits(payload + ['0']) && LuhnSum(payload + ['0']) == sum
    ensures LuhnHolds(payload + [d]) <==> (sum + DigitValue(d)) % 10 == 0
  {
    LastDigitCounts(payload, d);
    HoldsBySum(payload + [d], sum + DigitValue(d));
  }

  lemma ZeroAppended(payload: string)
    requires AllDigits(payload)
    ensures AllDigits(payload + ['0']) && LuhnSum(payload + ['0']) == LuhnReference(payload + ['0'])
  {
    LuhnSumIsReference(payload + ['0']);
  }

  /** For every payload exactly one check digit completes a number: what its sum, with 0 in that place, lacks to the
      next ten. */
  lemma LuhnCheckDigit(payload: string, d: char, sum: int)
    requires 12 <= |payload| <= 18 && AllDigits(payload) && IsDigit(d)
    requires AllDigits(payload + ['0']) && sum == LuhnReference(payload + ['0'])
    ensures LuhnHolds(payload + [d]) <==> DigitValue(d) == (10 - sum % 10) % 10
  {
    ZeroAppended(payload);
    CompletedBySum(payload, d, sum);
    LackToTen(sum, DigitValue(d));
  }

  lemma LackToTen(sum: int, d: int)
    requires 0 <= d <= 9
    ensures (sum + d) % 10 == 0 <==> d == (10 - sum % 10) % 10
  {
  }

  // ----- TCKN

  /** The values of the digits. */
  function Values(s: string): (ds: seq<int>)
    requires AllDigits(s)
    ensures |ds| == |s| && forall i | 0 <= i < |s| :: ds[i] == DigitValue(s[i])
  {
    seq(|s|, i requires 0 <= i < |s| => DigitValue(s[i]))
  }

  /** Seven times the odd places less the even places, of the first nine. */
  function Balance(ds: seq<int>): int
    requires |ds| == 11
  {
    7 * (ds[0] + ds[2] + ds[4] + ds[6] + ds[8]) - (ds[1] + ds[3] + ds[5] + ds[7])
  }

  function FirstTen(ds: seq<int>): int
    requires |ds| == 11
  {
    ds[0] + ds[1] + ds[2] + ds[3] + ds[4] + ds[5] + ds[6] + ds[7] + ds[8] + ds[9]
  }

  /** The two check digits are the ones the other nine call for. */
  predicate ChecksOut(ds: seq<int>)
    requires |ds| == 11
  {
    ds[9] == Balance(ds) % 10 && ds[10] == FirstTen(ds) % 10
  }

  predicate TcknHolds(s: string) {
    |s| == 11 && AllDigits(s) && s[0] != '0' && ChecksOut(Values(s))
  }

  /** Go's remainder takes the sign of the dividend. */
  function GoMod10(x: int): int {
    if x >= 0 then x % 10 else -((-x) % 10)
  }

  lemma GoMod10Repaired(x: int)
    ensures (if GoMod10(x) < 0 then GoMod10(x) + 10 else GoMod10(x)) == x % 10
  {
  }

  /** The two checks both implementations make once the digits are read. */
  method CheckTcknDigits(digits: array<int>) returns (valid: bool)
    requires digits.Length == 11
    ensures valid == ChecksOut(digits[..])
  {
    var oddSum := digits[0] + digits[2] + digits[4] + digits[6] + digits[8];
    var evenSum := digits[1] + digits[3] + digits[5] + digits[7];
    var d10 := GoMod10(oddSum * 7 - evenSum);
    if d10 < 0 {
      d10 := d10 + 10;
    }
    GoMod10Repaired(Balance(digits[..]));
    if digits[9] != d10 {
      return false;
    }
    var totalSum := SumTen(digits);
    return digits[10] == totalSum % 10;
  }

  method SumTen(digits: array<int>) returns (sum: int)
    requires digits.Length == 11
    ensures sum == FirstTen(digits[..])
  {
    sum := 0;
    for i := 0 to 10
      invariant sum == Prefix(digits[..], i)
    {
      sum := sum + digits[i];
    }
    PrefixOfTen(digits[..]);
  }

  function Prefix(ds: seq<int>, n: nat): int
    requires n <= |ds|
  {
    if n == 0 then 0 else Prefix(ds, n - 1) + ds[n - 1]
  }

  lemma PrefixOfTen(ds: seq<int>)
    requires |ds| == 11
    ensures Prefix(ds, 10) == FirstTen(ds)
  {
    assert Prefix(ds, 1) == ds[0];
    assert Prefix(ds, 3) == Prefix(ds, 1) + ds[1] + ds[2];
    assert Prefix(ds, 5) == Prefix(ds, 3) + ds[3] + ds[4];
    assert Prefix(ds, 7) == Prefix(ds, 5) + ds[5] + ds[6];
    assert Prefix(ds, 9) == Prefix(ds, 7) + ds[7] + ds[8];
  }

  /** pii.ValidateTCKN */
  method ValidateTCKN(tckn: string) returns (valid: bool)
    ensures valid == TcknHolds(tckn)
  {
    if |tckn| != 11 || tckn[0] == '0' {
      return false;
    }
    var digits := new int[11];
    for i := 0 to 11
      invariant forall k | 0 <= k < i :: IsDigit(tckn[k]) && digits[k] == DigitValue(tckn[k])
    {
      if tckn[i] < '0' || tckn[i] > '9' {
        return false;
      }
      digits[i] := DigitValue(tckn[i]);
    }
    assert digits[..] == Values(tckn);
    valid := CheckTcknDigits(digits);
  }

  /** strconv.Atoi on one character. */
  function Atoi(c: char): Option<int> {
    if IsDigit(c) then Some(DigitValue(c)) else None
  }

  /** ai.isValidTCKN */
  method IsValidTCKN(tckn: string) returns (valid: bool)
    ensures valid == TcknHolds(tckn)
  {
    if |tckn| != 11 || tckn[0] == '0' {
      return false;
    }
    var digits := new int[11];
    for i := 0 to 11
      invariant forall k | 0 <= k < i :: IsDigit(tckn[k]) && digits[k] == DigitValue(tckn[k])
    {
      var d := Atoi(tckn[i]);
      if d.None? {
        return false;
      }
      digits[i] := d.value;
    }
    assert digits[..] == Values(tckn);
    valid := CheckTcknDigits(digits);
  }

  /** The weight of a place in the balance, modulo 10 either 7 or 9: both invertible. */
  function Shift(i: nat, d: int): int {
    if i % 2 == 0 then 7 * d else -d
  }

  /** How the two sums depend on one digit. */
  lemma SumsAt(ds: seq<int>, i: nat, v: int)
    requires |ds| == 11 && i < 10
    ensures FirstTen(ds[i := v]) == FirstTen(ds) + v - ds[i]
    ensures Balance(ds[i := v]) == Balance(ds) + if i == 9 then 0 else Shift(i, v - ds[i])
  {
  }

  lemma ValuesWith(s: string, i: nat, c: char)
    requires i < |s| && AllDigits(s) && IsDigit(c)
    ensures AllDigits(With(s, i, c)) && Values(With(s, i, c)) == Values(s)[i := DigitValue(c)]
  {
  }

  lemma EqualMod10(a: int, d: int)
    ensures (a + d) % 10 == a % 10 <==> d % 10 == 0
  {
    assert a == 10 * (a / 10) + a % 10 && d == 10 * (d / 10) + d % 10;
  }

  lemma ShiftShows(a: int, i: nat, d: int)
    requires -9 <= d <= 9 && d != 0
    ensures (a + Shift(i, d)) % 10 != a % 10 && (a + d) % 10 != a % 10
  {
    EqualMod10(a, Shift(i, d));
    EqualMod10(a, d);
  }

  lemma OneDigitBreaksSums(ds: seq<int>, i: nat, v: int)
    requires |ds| == 11 && i < 11 && ChecksOut(ds) && -9 <= v - ds[i] <= 9 && v != ds[i]
    ensures !ChecksOut(ds[i := v])
  {
    if i < 10 {
      SumsAt(ds, i, v);
      ShiftShows(Balance(ds), i, v - ds[i]);
    } else {
      assert FirstTen(ds[i := v]) == FirstTen(ds);
    }
  }

  /** Every change of one digit of a valid number is caught. */
  lemma TcknCatchesOneDigit(s: string, i: nat, c: char)
    requires TcknHolds(s) && i < 11 && IsDigit(c) && c != s[i]
    ensures !TcknHolds(With(s, i, c))
  {
    ValuesWith(s, i, c);
    OneDigitBreaksSums(Values(s), i, DigitValue(c));
  }

  lemma EightTimes(b: int, d: int)
    ensures (b + 8 * d) % 10 == b % 10 <==> d % 5 == 0
  {
    EqualMod10(b, 8 * d);
    var q, r := d / 5, d % 5;
    assert d == 5 * q + r;
    assert 8 * d == 10 * (4 * q) + 8 * r;
  }

  function Exchanged(ds: seq<int>, i: nat): seq<int>
    requires i + 1 < |ds|
  {
    ds[i := ds[i + 1]][i + 1 := ds[i]]
  }

  lemma ExchangedSums(ds: seq<int>, i: nat)
    requires |ds| == 11 && i < 8
    ensures FirstTen(Exchanged(ds, i)) == FirstTen(ds)
    ensures var d := ds[i + 1] - ds[i]; Balance(Exchanged(ds, i)) == Balance(ds) + 8 * (if i % 2 == 0 then d else -d)
  {
    SumsAt(ds, i, ds[i + 1]);
    SumsAt(ds[i := ds[i + 1]], i + 1, ds[i]);
  }

  lemma NegatedMultiple(d: int)
    ensures (-d) % 5 == 0 <==> d % 5 == 0
  {
  }

  lemma ExchangedChecksOut(ds: seq<int>, i: nat)
    requires |ds| == 11 && i < 8 && ChecksOut(ds)
    ensures ChecksOut(Exchanged(ds, i)) <==> (ds[i + 1] - ds[i]) % 5 == 0
  {
    var d := ds[i + 1] - ds[i];
    ExchangedSums(ds, i);
    EightTimes(Balance(ds), if i % 2 == 0 then d else -d);
    NegatedMultiple(d);
  }

  lemma ValuesSwapped(s: string, i: nat)
    requires i + 1 < |s| && AllDigits(s)
    ensures AllDigits(Swapped(s, i)) && Values(Swapped(s, i)) == Exchanged(Values(s), i)
  {
  }

  /** A swap of two neighbours among the first nine digits goes unnoticed exactly when they differ by 0 or 5 and
      no zero comes first. */
  lemma TcknSwap(s: string, i: nat)
    requires TcknHolds(s) && i < 8
    ensures TcknHolds(Swapped(s, i))
       <==> (DigitValue(s[i + 1]) - DigitValue(s[i])) % 5 == 0 && (i == 0 ==> s[1] != '0')
  {
    ValuesSwapped(s, i);
    ExchangedChecksOut(Values(s), i);
    assert Swapped(s, i)[0] == if i == 0 then s[1] else s[0];
  }

  /** Eleven digits, the first not 0; the tenth is seven times the odd places less the even ones, the eleventh the sum
      of the ten before it, both modulo ten. */
  lemma TcknMeans(s: string)
    requires |s| == 11 && AllDigits(s)
    ensures var d := Values(s);
      TcknHolds(s) <==>
        (&& s[0] != '0'
         && d[9] == (7 * (d[0] + d[2] + d[4] + d[6] + d[8]) - (d[1] + d[3] + d[5] + d[7])) % 10
         && d[10] == (d[0] + d[1] + d[2] + d[3] + d[4] + d[5] + d[6] + d[7] + d[8] + d[9]) % 10)
  {
  }

  lemma TcknNeeds(s: string)
    requires TcknHolds(s)
    ensures |s| == 11 && (forall i | 0 <= i < 11 :: '0' <= s[i] <= '9') && s[0] != '0'
  {
  }
}
