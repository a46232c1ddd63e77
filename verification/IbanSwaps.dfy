/** The swap across the cut: the characters at positions 3 and 4 become the last and the first of the rearranged
    number, so what catches their swap is that no power of ten in between is 1 modulo 97. */
module IbanSwaps {
  import opened Prelude
  import opened Decimals
  import opened Iban

  predicate Congruent(a: int, b: int) {
    (a - b) % 97 == 0
  }

  lemma Multiple(a: int)
    ensures a % 97 == 0 <==> a == 97 * (a / 97)
  {
  }

  lemma CongruentTimes(a: int, b: int, p: int)
    requires Congruent(a, b)
    ensures Congruent(p * a, p * b)
  {
    var q := (a - b) / 97;
    Multiple(a - b);
    assert p * a - p * b == p * (a - b) == 97 * (p * q);
    DropMultiples(0, p * q);
  }

  lemma CongruentAdds(a: int, b: int, c: int, d: int)
    requires Congruent(a, b) && Congruent(c, d)
    ensures Congruent(a + c, b + d) && Congruent(a - c, b - d)
  {
    Multiple(a - b);
    Multiple(c - d);
    DropMultiples(0, (a - b) / 97 + (c - d) / 97);
    DropMultiples(0, (a - b) / 97 - (c - d) / 97);
  }

  lemma CongruentRemainder(a: int)
    ensures Congruent(a % 97, a)
  {
    DropMultiples(0, -(a / 97));
  }

  // ----- 97 is prime, and 10 has a long period

  /** Nothing from 2 to n divides 97. */
  predicate NoDivisorUpTo(n: nat) {
    n < 2 || (97 % n != 0 && NoDivisorUpTo(n - 1))
  }

  lemma NoSmallDivisor()
    ensures NoDivisorUpTo(26)
  {
    assert NoDivisorUpTo(4);
    assert NoDivisorUpTo(8);
    assert NoDivisorUpTo(12);
    assert NoDivisorUpTo(16);
    assert NoDivisorUpTo(20);
    assert NoDivisorUpTo(24);
  }

  lemma {:induction false} NoDivisor(n: nat, e: nat)
    requires NoDivisorUpTo(n) && 2 <= e <= n
    ensures 97 % e != 0
  {
    if e < n {
      NoDivisor(n - 1, e);
    }
  }

  lemma DivisionStep(e: nat, m: int)
    requires e > 0
    ensures m * (97 % e) == 97 * m - (97 / e) * (m * e)
  {
    var q, r := 97 / e, 97 % e;
    assert 97 == q * e + r;
    assert m * r == m * (97 - q * e) == 97 * m - q * (m * e) by {
      assert m * (q * e) == q * (m * e);
    }
  }

  /** A product with a small factor is a multiple of 97 only when the other factor is. */
  lemma {:induction false} SmallFactor(m: int, e: nat)
    requires 0 < e <= 25 && Congruent(m * e, 0)
    ensures Congruent(m, 0)
    decreases e
  {
    if e > 1 {
      NoSmallDivisor();
      NoDivisor(26, e);
      DivisionStep(e, m);
      CongruentTimes(m * e, 0, 97 / e);
      DropMultiples(0, m);
      CongruentAdds(97 * m, 0, (97 / e) * (m * e), 0);
      SmallFactor(m, 97 % e);
    }
  }

  function Power(n: nat): (p: int)
    ensures p > 0
  {
    if n == 0 then 1 else 10 * Power(n - 1)
  }

  function Residue(n: nat): (r: int)
    ensures 0 <= r < 97
  {
    if n == 0 then 1 else (10 * Residue(n - 1)) % 97
  }

  lemma {:induction false} ResidueOfPower(n: nat)
    ensures Power(n) % 97 == Residue(n)
  {
    if n > 0 {
      ResidueOfPower(n - 1);
      RemainderShift(Power(n - 1), 10, 0);
    }
  }

  predicate NextPower(r: int, next: int) {
    next == (10 * r) % 97 && next != 1
  }

  /** n multiplications by ten lead from one residue to the other, never to 1. */
  predicate Walk(r: int, n: nat, end: int)
    decreases n
  {
    if n == 0 then r == end else NextPower(r, (10 * r) % 97) && Walk((10 * r) % 97, n - 1, end)
  }

  lemma {:induction false} WalkOneMore(r: int, n: nat, end: int, next: int)
    requires Walk(r, n, end) && NextPower(end, next)
    ensures Walk(r, n + 1, next)
    decreases n
  {
    if n == 0 {
      assert Walk(next, 0, next);
    } else {
      WalkOneMore((10 * r) % 97, n - 1, end, next);
    }
  }

  lemma WalkSixMore(n: nat, r0: int, r1: int, r2: int, r3: int, r4: int, r5: int, r6: int) returns (m: nat)
    requires Walk(1, n, r0)
    requires NextPower(r0, r1) && NextPower(r1, r2) && NextPower(r2, r3)
    requires NextPower(r3, r4) && NextPower(r4, r5) && NextPower(r5, r6)
    ensures m == n + 6 && Walk(1, m, r6)
  {
    m := n + 6;
    WalkOneMore(1, n, r0, r1);
    WalkOneMore(1, n + 1, r1, r2);
    WalkOneMore(1, n + 2, r2, r3);
    WalkOneMore(1, n + 3, r3, r4);
    WalkOneMore(1, n + 4, r4, r5);
    WalkOneMore(1, n + 5, r5, r6);
  }

  /** The powers of ten modulo 97: 1 does not come back among the first 66. */
  lemma PeriodIsLong() returns (n: nat, end: int)
    ensures n >= 66 && Walk(1, n, end)
  {
    n, end := 0, 1;
    n := WalkSixMore(n, 1, 10, 3, 30, 9, 90, 27);
    n := WalkSixMore(n, 27, 76, 81, 34, 49, 5, 50);
    n := WalkSixMore(n, 50, 15, 53, 45, 62, 38, 89);
    n := WalkSixMore(n, 89, 17, 73, 51, 25, 56, 75);
    n := WalkSixMore(n, 75, 71, 31, 19, 93, 57, 85);
    n := WalkSixMore(n, 85, 74, 61, 28, 86, 84, 64);
    n := WalkSixMore(n, 64, 58, 95, 77, 91, 37, 79);
    n := WalkSixMore(n, 79, 14, 43, 42, 32, 29, 96);
    n := WalkSixMore(n, 96, 87, 94, 67, 88, 7, 70);
    n := WalkSixMore(n, 70, 21, 16, 63, 48, 92, 47);
    n := WalkSixMore(n, 47, 82, 44, 52, 35, 59, 8);
    end := 8;
  }

  lemma {:induction false} WalkAvoidsOne(k: nat, n: nat, end: int, j: nat)
    requires Walk(Residue(k), n, end) && k < j <= k + n
    ensures Residue(j) != 1
    decreases n
  {
    if j > k + 1 {
      WalkAvoidsOne(k + 1, n - 1, end, j);
    }
  }

  // ----- the fold is affine

  function Width(c: char): nat {
    if IsDigit(c) then 1 else 2
  }

  function TotalWidth(s: string): (n: nat)
    ensures |s| <= n <= 2 * |s|
  {
    if s == [] then 0 else Width(s[0]) + TotalWidth(s[1..])
  }

  lemma PowerSteps(w: nat, n: nat)
    requires w == 1 || w == 2
    ensures Power(w + n) == (if w == 1 then 10 else 100) * Power(n)
  {
    if w == 2 {
      assert Power(2 + n) == 10 * Power(1 + n);
    }
  }

  lemma {:induction false} FoldIsAffine(r: int, s: string)
    requires 0 <= r < 97 && Alphanumeric(s)
    ensures Congruent(Fold(r, s), Fold(0, s) + Power(TotalWidth(s)) * r)
    decreases |s|
  {
    if s == [] {
      assert Power(0) == 1;
    } else {
      var c, rest := s[0], s[1..];
      var n := TotalWidth(rest);
      FoldIsAffine(Advance(r, c), rest);
      FoldIsAffine(Advance(0, c), rest);
      AffineHead(Fold(Advance(r, c), rest), Fold(Advance(0, c), rest), Fold(0, rest), r, c, n);
    }
  }

  lemma AffineHead(fr: int, f0: int, g: int, r: int, c: char, n: nat)
    requires 0 <= r < 97 && (IsDigit(c) || IsLetter(c))
    requires Congruent(fr, g + Power(n) * Advance(r, c)) && Congruent(f0, g + Power(n) * Advance(0, c))
    ensures Congruent(fr, f0 + Power(Width(c) + n) * r)
  {
    AdvanceMoves(r, c, Power(n));
    PowerSteps(Width(c), n);
    AffineStep(fr, f0, g, Power(n), Advance(r, c), Advance(0, c), if IsDigit(c) then 10 else 100, r);
  }

  lemma AdvanceMoves(r: int, c: char, p: int)
    requires 0 <= r < 97 && (IsDigit(c) || IsLetter(c))
    ensures Congruent(p * (Advance(r, c) - Advance(0, c)), p * ((if IsDigit(c) then 10 else 100) * r))
  {
    var scale := if IsDigit(c) then 10 else 100;
    var v := CharValue(c);
    CongruentRemainder(scale * r + v);
    CongruentRemainder(v);
    CongruentAdds(Advance(r, c), scale * r + v, Advance(0, c), v);
    CongruentTimes(Advance(r, c) - Advance(0, c), scale * r, p);
  }

  lemma AffineStep(fr: int, f0: int, g: int, p: int, a: int, b: int, scale: int, r: int)
    requires Congruent(fr, g + p * a) && Congruent(f0, g + p * b) && Congruent(p * (a - b), p * (scale * r))
    ensures Congruent(fr, f0 + scale * p * r)
  {
    assert p * (a - b) == p * a - p * b && p * (scale * r) == scale * p * r;
    CongruentAdds(fr, g + p * a, f0, g + p * b);
    CongruentAdds(fr - f0, p * (a - b), p * (a - b) - p * (scale * r), 0);
    Multiple(fr - f0 - p * (a - b));
    Multiple(p * (a - b) - p * (scale * r));
    DropMultiples(0, (fr - f0 - p * (a - b)) / 97 + (p * (a - b) - p * (scale * r)) / 97);
  }

  // ----- the two ends

  predicate Ends(c: char, mid: string, d: char) {
    Alphanumeric(mid) && SameKind(c, d)
  }

  lemma FoldOfEnds(c: char, mid: string, d: char)
    requires Ends(c, mid, d)
    ensures Alphanumeric([c] + mid + [d]) && 0 <= CharValue(c) < 97
    ensures Fold(0, [c] + mid + [d]) == Advance(Fold(CharValue(c), mid), d)
  {
    FoldConcat(0, [c], mid);
    FoldConcat(0, [c] + mid, [d]);
    assert [c][1..] == [] && [d][1..] == [];
    assert Fold(0, [c]) == Fold(Advance(0, c), []) == CharValue(c);
  }

  /** When the folds of the two orders agree, so do the ends up to the power of ten between them. */
  lemma EndsGap(scale: int, p: int, f: int, fx: int, fy: int, x: int, y: int)
    requires Congruent(fx, f + p * x) && Congruent(fy, f + p * y)
    requires Congruent(scale * fx + y, scale * fy + x)
    ensures Congruent((scale * p - 1) * (x - y), 0)
  {
    CongruentAdds(fx, f + p * x, fy, f + p * y);
    CongruentTimes(fx - fy, p * x - p * y, scale);
    Expansions(scale, p, fx, fy, x, y);
    ThreeTerms(scale * (fx - fy), scale * (p * x - p * y), x - y);
  }

  lemma Expansions(scale: int, p: int, fx: int, fy: int, x: int, y: int)
    ensures scale * (fx - fy) == scale * fx - scale * fy
    ensures (scale * p - 1) * (x - y) == scale * (p * x - p * y) - (x - y)
  {
    assert scale * (p * x - p * y) == scale * (p * (x - y)) == (scale * p) * (x - y);
  }

  lemma ThreeTerms(a: int, b: int, e: int)
    requires Congruent(a, b) && Congruent(a - e, 0)
    ensures Congruent(b - e, 0)
  {
    CongruentAdds(a - e, 0, a, b);
    Multiple(a - e);
    Multiple(a - b);
    DropMultiples(0, (a - e) / 97 - (a - b) / 97);
  }

  lemma SameFoldMeansGap(c: char, mid: string, d: char)
    requires Ends(c, mid, d) && Advance(Fold(CharValue(c), mid), d) == Advance(Fold(CharValue(d), mid), c)
    ensures Congruent((Power(Width(c) + TotalWidth(mid)) - 1) * (CharValue(c) - CharValue(d)), 0)
  {
    var x, y, scale, p := CharValue(c), CharValue(d), if IsDigit(c) then 10 else 100, Power(TotalWidth(mid));
    var fx, fy := Fold(x, mid), Fold(y, mid);
    SameRemainderIsCongruent(scale * fx + y, scale * fy + x);
    FoldIsAffine(x, mid);
    FoldIsAffine(y, mid);
    EndsGap(scale, p, Fold(0, mid), fx, fy, x, y);
    PowerSteps(Width(c), TotalWidth(mid));
  }

  lemma SameRemainderIsCongruent(a: int, b: int)
    requires a % 97 == b % 97
    ensures Congruent(a, b)
  {
    EqualRemainders(a, b);
    DropMultiples(0, a / 97 - b / 97);
  }

  lemma NoGap(n: nat, gap: int)
    requires 1 <= n <= 66 && -25 <= gap <= 25 && gap != 0
    ensures !Congruent((Power(n) - 1) * gap, 0)
  {
    var m := Power(n) - 1;
    NotOneAgain(n);
    if Congruent(m * gap, 0) {
      if gap > 0 {
        SmallFactor(m, gap);
      } else {
        assert m * -gap == -(m * gap);
        Negated(m * gap);
        SmallFactor(m, -gap);
      }
    }
  }

  lemma GapBounds(c: char, mid: string, d: char) returns (n: nat, gap: int)
    requires Ends(c, mid, d) && c != d && |mid| <= 32
    ensures n == Width(c) + TotalWidth(mid) && 1 <= n <= 66
    ensures gap == CharValue(c) - CharValue(d) && -25 <= gap <= 25 && gap != 0
  {
    n, gap := Width(c) + TotalWidth(mid), CharValue(c) - CharValue(d);
  }

  lemma AdvanceTellsEnds(c: char, mid: string, d: char)
    requires Ends(c, mid, d) && c != d && |mid| <= 32
    ensures Advance(Fold(CharValue(c), mid), d) != Advance(Fold(CharValue(d), mid), c)
  {
    var n, gap := GapBounds(c, mid, d);
    NoGap(n, gap);
    if Advance(Fold(CharValue(c), mid), d) == Advance(Fold(CharValue(d), mid), c) {
      SameFoldMeansGap(c, mid, d);
    }
  }

  /** Different ends of one kind, as far apart as in an IBAN, cannot be exchanged unnoticed. */
  lemma EndsTellOrder(c: char, mid: string, d: char)
    requires Ends(c, mid, d) && c != d && |mid| <= 32
    ensures Alphanumeric([c] + mid + [d]) && Alphanumeric([d] + mid + [c])
    ensures Fold(0, [c] + mid + [d]) != Fold(0, [d] + mid + [c])
  {
    FoldOfEnds(c, mid, d);
    FoldOfEnds(d, mid, c);
    AdvanceTellsEnds(c, mid, d);
  }

  lemma RemainderOne(p: int)
    ensures Congruent(p - 1, 0) ==> p % 97 == 1
  {
    Multiple(p - 1);
    DropMultiples(1, (p - 1) / 97);
  }

  lemma NotOneAgain(n: nat)
    requires 1 <= n <= 66
    ensures !Congruent(Power(n) - 1, 0)
  {
    var m, end := PeriodIsLong();
    WalkAvoidsOne(0, m, end, n);
    ResidueOfPower(n);
    RemainderOne(Power(n));
  }

  lemma Negated(a: int)
    ensures Congruent(a, 0) <==> Congruent(-a, 0)
  {
    Multiple(a);
    Multiple(-a);
    DropMultiples(0, -(a / 97));
    DropMultiples(0, -(-a / 97));
  }

  /** The neighbours at positions 3 and 4 are caught as well. */
  lemma CutSwapRejected(pre: string, c: char, d: char, post: string)
    requires |pre| == 3 && SameKind(c, d) && c != d && Accepts(pre + [c, d] + post)
    ensures !Accepts(pre + [d, c] + post)
  {
    var mid := post + pre;
    RearrangedAtCut(pre, c, d, post);
    RearrangedAtCut(pre, d, c, post);
    AcceptsByFold(pre + [c, d] + post);
    AcceptsByFold(pre + [d, c] + post);
    AlphanumericMiddle([d], mid, [c]);
    EndsTellOrder(d, mid, c);
  }

  lemma RearrangedAtCut(pre: string, c: char, d: char, post: string)
    requires |pre| == 3
    ensures Rearranged(pre + [c, d] + post) == [d] + (post + pre) + [c]
  {
    var head, rest := pre + [c], [d] + post;
    assert pre + [c, d] + post == head + rest;
    SplitConcat(head, rest);
    assert rest + head == [d] + (post + pre) + [c];
  }

  lemma AlphanumericMiddle(a: string, mid: string, b: string)
    requires Alphanumeric(a + mid + b)
    ensures Alphanumeric(mid)
  {
    var all := a + mid + b;
    assert forall i | 0 <= i < |mid| :: mid[i] == all[|a| + i];
  }

  /** From a valid IBAN, swapping any two different neighbouring digits or letters is caught. */
  lemma EverySwapRejected(pre: string, c: char, d: char, post: string)
    requires Accepts(Clean(pre + [c, d] + post))
    requires SameKind(Upper(c), Upper(d)) && Upper(c) != Upper(d)
    ensures !Accepts(Clean(pre + [d, c] + post))
  {
    if |Clean(pre)| == 3 {
      CleanAround(pre, [c, d], post);
      CleanAround(pre, [d, c], post);
      assert Clean([c, d]) == [Upper(c), Upper(d)] && Clean([d, c]) == [Upper(d), Upper(c)];
      CutSwapRejected(Clean(pre), Upper(c), Upper(d), Clean(post));
    } else {
      SwapRejected(pre, c, d, post);
    }
  }
}
