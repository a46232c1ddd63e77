/** Shared vocabulary: options, Go's signed 64-bit integers, and small arithmetic. */
module Prelude {

  datatype Option<+T> = None | Some(value: T)

  const MIN_INT64: int := -0x8000_0000_0000_0000
  const MAX_INT64: int := 0x7FFF_FFFF_FFFF_FFFF

  type Int64 = i: int | MIN_INT64 <= i <= MAX_INT64

  predicate FitsInt64(i: int) {
    MIN_INT64 <= i <= MAX_INT64
  }

  /** Two's complement wrap-around, as Go does for signed overflow. */
  function Wrap64(i: int): (r: Int64)
    ensures FitsInt64(i) ==> r == i
  {
    (i - MIN_INT64) % 0x1_0000_0000_0000_0000 + MIN_INT64
  }

  function Min(a: int, b: int): int {
    if a <= b then a else b
  }

  function Max(a: int, b: int): int {
    if a <= b then b else a
  }

  function Pow2(n: nat): (r: nat)
    ensures r >= 1
  {
    if n == 0 then 1 else 2 * Pow2(n - 1)
  }

  lemma TakeOneMore<T>(s: seq<T>, n: nat)
    requires n < |s|
    ensures s[..n + 1] == s[..n] + [s[n]]
  {
  }

  lemma TakeAll<T>(s: seq<T>)
    ensures s[..|s|] == s
  {
  }

  lemma ConcatAssociates<T>(a: seq<T>, b: seq<T>, c: seq<T>)
    ensures (a + b) + c == a + (b + c)
  {
  }

  lemma SplitConcat<T>(a: seq<T>, b: seq<T>)
    ensures (a + b)[..|a|] == a && (a + b)[|a|..] == b
  {
  }
}
