/** The in-memory request limiter: one counter per key, reset when its window has passed. */
module RateLimiter {
  import opened Prelude

  const SECOND: int := 1_000_000_000
  const MINUTE: int := 60 * SECOND

  datatype Result = Result(allowed: bool, remaining: int, limit: int, resetTime: int)

  datatype Bucket = Bucket(count: int, resetTime: int)

  type Buckets = map<string, Bucket>

  datatype Call = Call(key: string, limit: int, window: int, now: int) {
    /** A limit of zero or less means no limit. */
    predicate Unlimited() {
      limit <= 0
    }

    function Window(): int {
      if window <= 0 then MINUTE else window
    }
  }

  function Lookup(m: Buckets, key: string): Option<Bucket> {
    if key in m then Some(m[key]) else None
  }

  /** No window is open, or the open one has ended. */
  predicate Opens(b: Option<Bucket>, now: int) {
    b.None? || now > b.value.resetTime
  }

  function NextBucket(b: Option<Bucket>, c: Call): Bucket {
    if Opens(b, c.now) then Bucket(1, c.now + c.Window()) else b.value.(count := b.value.count + 1)
  }

  function Answer(b: Option<Bucket>, c: Call): Result {
    if c.Unlimited() then Result(true, c.limit, c.limit, 0)
    else var next := NextBucket(b, c);
      Result(next.count <= c.limit, Max(c.limit - next.count, 0), c.limit, next.resetTime - c.now)
  }

  function Next(m: Buckets, c: Call): Buckets {
    if c.Unlimited() then m else m[c.key := NextBucket(Lookup(m, c.key), c)]
  }

  // ----- The object

  class MemoryBucket {
    var count: int
    var resetTime: int

    constructor (count: int, resetTime: int)
      ensures this.count == count && this.resetTime == resetTime
    {
      this.count := count;
      this.resetTime := resetTime;
    }
  }

  class Limiter {
    var memBuckets: map<string, MemoryBucket>

    /** No two keys share a bucket. */
    ghost predicate Valid()
      reads this
    {
      forall k, l | k in memBuckets && l in memBuckets && k != l :: memBuckets[k] != memBuckets[l]
    }

    ghost function Contents(): Buckets
      reads this, memBuckets.Values
    {
      map k | k in memBuckets :: Bucket(memBuckets[k].count, memBuckets[k].resetTime)
    }

    constructor ()
      ensures Valid() && Contents() == map[]
    {
      memBuckets := map[];
    }

    method Allow(c: Call) returns (r: Result)
      requires Valid()
      modifies this, memBuckets.Values
      ensures Valid() && fresh(memBuckets.Values - old(memBuckets.Values))
      ensures Contents() == Next(old(Contents()), c)
      ensures r == Answer(Lookup(old(Contents()), c.key), c)
      ensures c.limit <= 0 ==> r == Result(true, c.limit, c.limit, 0) && Contents() == old(Contents())
      ensures c.limit > 0 && c.key !in old(Contents()) ==>
        var window := if c.window <= 0 then 60_000_000_000 else c.window;
        && r == Result(true, c.limit - 1, c.limit, window)
        && Contents() == old(Contents())[c.key := Bucket(1, c.now + window)]
    {
      if c.limit <= 0 {
        return Result(true, c.limit, c.limit, 0);
      }
      var window := c.window;
      if window <= 0 {
        window := MINUTE;
      }
      if c.key !in memBuckets || c.now > memBuckets[c.key].resetTime {
        Open(c.key, c.now + window);
        return Result(true, c.limit - 1, c.limit, window);
      }
      Count(c.key);
      var b := memBuckets[c.key];
      var remaining := c.limit - b.count;
      if remaining < 0 {
        remaining := 0;
      }
      var ttl := b.resetTime - c.now;
      if ttl < 0 {
        ttl := 0;
      }
      if b.count > c.limit {
        return Result(false, 0, c.limit, ttl);
      }
      return Result(true, remaining, c.limit, ttl);
    }

    /** A fresh bucket that has counted one call. */
    method Open(key: string, resetTime: int)
      requires Valid()
      modifies this
      ensures Valid() && fresh(memBuckets.Values - old(memBuckets.Values))
      ensures Contents() == old(Contents())[key := Bucket(1, resetTime)]
    {
      var bucket := new MemoryBucket(1, resetTime);
      memBuckets := memBuckets[key := bucket];
    }

    method Count(key: string)
      requires Valid() && key in memBuckets
      modifies memBuckets[key]
      ensures Valid() && memBuckets == old(memBuckets)
      ensures var b := old(Contents())[key]; Contents() == old(Contents())[key := b.(count := b.count + 1)]
    {
      var b := memBuckets[key];
      b.count := b.count + 1;
    }

    /** Flags a burst: more than burstThreshold calls in one window. */
    method CheckSpikeAnomaly(endpointKey: string, burstThreshold: int, burstWindow: int, now: int)
      returns (spike: bool, calls: int)
      requires Valid()
      modifies this, memBuckets.Values
      ensures Valid() && fresh(memBuckets.Values - old(memBuckets.Values))
      ensures var c := SpikeCall(endpointKey, burstThreshold, burstWindow, now);
        && Contents() == Next(old(Contents()), c)
        && (spike, calls) == SpikeAnswer(Answer(Lookup(old(Contents()), c.key), c))
      ensures burstThreshold <= 0 ==> !spike && calls == 0 && Contents() == old(Contents())
      ensures burstThreshold > 0 && "spike:" + endpointKey !in old(Contents()) ==>
        var window := if burstWindow <= 0 then 10_000_000_000 else burstWindow;
        !spike && calls == 1 && Contents() == old(Contents())["spike:" + endpointKey := Bucket(1, now + window)]
    {
      if burstThreshold <= 0 {
        return false, 0;
      }
      var window := burstWindow;
      if window <= 0 {
        window := 10 * SECOND;
      }
      var res := Allow(Call("spike:" + endpointKey, burstThreshold, window, now));
      return !res.allowed, burstThreshold - res.remaining;
    }
  }

  function SpikeCall(endpointKey: string, burstThreshold: int, burstWindow: int, now: int): Call {
    Call("spike:" + endpointKey, burstThreshold, if burstWindow <= 0 then 10 * SECOND else burstWindow, now)
  }

  function SpikeAnswer(r: Result): (bool, int) {
    (!r.allowed, r.limit - r.remaining)
  }

  // ----- Whole traces

  function Run(m: Buckets, calls: seq<Call>): (answers: seq<Result>)
    ensures |answers| == |calls|
    decreases |calls|
  {
    if calls == [] then [] else [Answer(Lookup(m, calls[0].key), calls[0])] + Run(Next(m, calls[0]), calls[1..])
  }

  function After(m: Buckets, calls: seq<Call>): Buckets
    decreases |calls|
  {
    if calls == [] then m else After(Next(m, calls[0]), calls[1..])
  }

  /** The calls of one key. */
  function Only(calls: seq<Call>, key: string): (own: seq<Call>)
    ensures |own| <= |calls|
  {
    if calls == [] then [] else (if calls[0].key == key then [calls[0]] else []) + Only(calls[1..], key)
  }

  /** The answers to the calls of one key. */
  function Pick(calls: seq<Call>, answers: seq<Result>, key: string): seq<Result>
    requires |answers| == |calls|
  {
    if calls == [] then []
    else (if calls[0].key == key then [answers[0]] else []) + Pick(calls[1..], answers[1..], key)
  }

  /** What one bucket answers to a sequence of calls. */
  function KeyRun(b: Option<Bucket>, calls: seq<Call>): (answers: seq<Result>)
    ensures |answers| == |calls|
    decreases |calls|
  {
    if calls == [] then []
    else [Answer(b, calls[0])] + KeyRun(if calls[0].Unlimited() then b else Some(NextBucket(b, calls[0])), calls[1..])
  }

  lemma NextLookup(m: Buckets, c: Call, key: string)
    ensures Lookup(Next(m, c), key)
         == if c.key != key || c.Unlimited() then Lookup(m, key) else Some(NextBucket(Lookup(m, key), c))
  {
  }

  /** The answers for a key are those of its own bucket to its own calls: other keys play no part. */
  lemma {:induction false} KeysAreIndependent(m: Buckets, calls: seq<Call>, key: string)
    ensures Pick(calls, Run(m, calls), key) == KeyRun(Lookup(m, key), Only(calls, key))
    decreases |calls|
  {
    if calls != [] {
      var rest := Only(calls[1..], key);
      NextLookup(m, calls[0], key);
      KeysAreIndependent(Next(m, calls[0]), calls[1..], key);
      assert Run(m, calls)[1..] == Run(Next(m, calls[0]), calls[1..]);
      if calls[0].key == key {
        assert ([calls[0]] + rest)[1..] == rest;
      } else {
        assert [] + rest == rest;
      }
    }
  }

  lemma {:induction false} RunSplits(m: Buckets, first: seq<Call>, second: seq<Call>)
    ensures Run(m, first + second) == Run(m, first) + Run(After(m, first), second)
    decreases |first|
  {
    if first == [] {
      assert first + second == second;
    } else {
      var next, head := Next(m, first[0]), [Answer(Lookup(m, first[0].key), first[0])];
      RunSplits(next, first[1..], second);
      assert (first + second)[1..] == first[1..] + second;
      ConcatAssociates(head, Run(next, first[1..]), Run(After(next, first[1..]), second));
    }
  }

  /** Every counter has counted at least the call that opened it. */
  ghost predicate Counted(m: Buckets) {
    forall k | k in m :: m[k].count >= 1
  }

  lemma {:induction false} CountedAfter(m: Buckets, calls: seq<Call>)
    requires Counted(m)
    ensures Counted(After(m, calls))
    decreases |calls|
  {
    if calls != [] {
      CountedAfter(Next(m, calls[0]), calls[1..]);
    }
  }

  // ----- One key with one limit and one window

  predicate Monotone(calls: seq<Call>) {
    forall i, j | 0 <= i <= j < |calls| :: calls[i].now <= calls[j].now
  }

  predicate Steady(calls: seq<Call>, limit: int, window: int) {
    forall i | 0 <= i < |calls| :: calls[i].limit == limit && calls[i].Window() == window
  }

  function AllowedCount(answers: seq<Result>): nat {
    if answers == [] then 0 else (if answers[0].allowed then 1 else 0) + AllowedCount(answers[1..])
  }

  /** Inside one window the answers count down from the calls already made. */
  lemma {:induction false} InsideWindow(b: Bucket, calls: seq<Call>, limit: int, window: int, i: nat)
    requires limit > 0 && Steady(calls, limit, window) && i < |calls|
    requires forall j | 0 <= j <= i :: calls[j].now <= b.resetTime
    ensures KeyRun(Some(b), calls)[i].allowed <==> b.count + i + 1 <= limit
    ensures KeyRun(Some(b), calls)[i].remaining == Max(limit - b.count - i - 1, 0)
    decreases i
  {
    if i > 0 {
      InsideWindow(b.(count := b.count + 1), calls[1..], limit, window, i - 1);
    }
  }

  /** From the call that opens a window to its end, exactly the first `limit` calls are allowed and `remaining`
      says how many are left. */
  lemma WindowIsExact(b: Option<Bucket>, calls: seq<Call>, limit: int, window: int, i: nat)
    requires limit > 0 && Steady(calls, limit, window) && i < |calls|
    requires Opens(b, calls[0].now)
    requires forall j | 0 <= j <= i :: calls[j].now <= calls[0].now + window
    ensures KeyRun(b, calls)[i].allowed <==> i < limit
    ensures KeyRun(b, calls)[i].remaining == Max(limit - i - 1, 0)
  {
    if i > 0 {
      InsideWindow(Bucket(1, calls[0].now + window), calls[1..], limit, window, i - 1);
    }
  }

  /** The burst detector fires from the first call past the threshold on, and reports the calls of the window up to
      the threshold. */
  lemma SpikeIsExact(b: Option<Bucket>, calls: seq<Call>, threshold: int, window: int, i: nat)
    requires threshold > 0 && Steady(calls, threshold, window) && i < |calls|
    requires Opens(b, calls[0].now)
    requires forall j | 0 <= j <= i :: calls[j].now <= calls[0].now + window
    ensures SpikeAnswer(KeyRun(b, calls)[i]) == (i >= threshold, Min(i + 1, threshold))
  {
    WindowIsExact(b, calls, threshold, window, i);
    LimitIsReported(b, calls, i);
  }

  lemma {:induction false} LimitIsReported(b: Option<Bucket>, calls: seq<Call>, i: nat)
    requires i < |calls|
    ensures KeyRun(b, calls)[i].limit == calls[i].limit
    decreases i
  {
    if i > 0 {
      LimitIsReported(if calls[0].Unlimited() then b else Some(NextBucket(b, calls[0])), calls[1..], i - 1);
    }
  }

  /** What the open window still allows. */
  function Residue(b: Option<Bucket>, limit: int): int {
    if b.None? then 0 else Max(limit - b.value.count, 0)
  }

  lemma OneWindowLess(n: int, w: int)
    ensures (n - 1) * w == n * w - w
  {
  }

  lemma AtLeastOne(n: nat, w: int)
    requires n * w > 0
    ensures n >= 1
  {
  }

  /** When windows can open from `earliest` on and fewer than n + 1 of them fit before `last`. */
  lemma {:induction false} FewWindows(b: Option<Bucket>, calls: seq<Call>, limit: int, window: int, earliest: int,
                                      last: int, n: nat)
    requires limit > 0 && window > 0 && Steady(calls, limit, window) && Monotone(calls)
    requires forall i | 0 <= i < |calls| :: calls[i].now <= last
    requires (b.Some? && b.value.resetTime + 1 >= earliest) || forall i | 0 <= i < |calls| :: earliest <= calls[i].now
    requires last - earliest < n * (window + 1)
    ensures AllowedCount(KeyRun(b, calls)) <= Residue(b, limit) + n * limit
    decreases |calls|
  {
    if calls == [] {
      assert n * limit >= 0;
    } else {
      var c := calls[0];
      var next := NextBucket(b, c);
      assert c.limit == limit && c.Window() == window && !c.Unlimited();
      assert KeyRun(b, calls)[1..] == KeyRun(Some(next), calls[1..]);
      if Opens(b, c.now) {
        OneWindowLess(n, window + 1);
        OneWindowLess(n, limit);
        AtLeastOne(n, window + 1);
        FewWindows(Some(next), calls[1..], limit, window, c.now + window + 1, last, n - 1);
      } else {
        FewWindows(Some(next), calls[1..], limit, window, earliest, last, n);
      }
    }
  }

  /** The calls for one key inside any closed interval as long as n windows. */
  lemma KeyBound(b: Option<Bucket>, calls: seq<Call>, limit: int, window: int, n: nat)
    requires limit > 0 && window > 0 && n >= 1 && Steady(calls, limit, window) && Monotone(calls)
    requires forall i, j | 0 <= i <= j < |calls| :: calls[j].now - calls[i].now <= n * window
    requires b.Some? ==> b.value.count >= 1
    ensures AllowedCount(KeyRun(b, calls)) <= n * limit + limit - 1
    ensures b.None? ==> AllowedCount(KeyRun(b, calls)) <= n * limit
  {
    if calls == [] {
      assert n * limit >= 0;
    } else {
      assert n * (window + 1) == n * window + n;
      FewWindows(b, calls, limit, window, calls[0].now, calls[|calls| - 1].now, n);
    }
  }

  lemma {:induction false} OnlySelects(calls: seq<Call>, key: string, lo: int, hi: int)
    requires Monotone(calls) && forall i | 0 <= i < |calls| :: lo <= calls[i].now <= hi
    ensures Monotone(Only(calls, key))
    ensures forall i | 0 <= i < |Only(calls, key)| :: lo <= Only(calls, key)[i].now <= hi
  {
    if calls != [] {
      OnlySelects(calls[1..], key, calls[0].now, hi);
    }
  }

  /** For every trace, whatever came before and whatever other keys do meanwhile: a closed interval as long as n
      windows contains at most (n + 1) * limit - 1 allowed calls of a key. */
  lemma IntervalBound(m: Buckets, before: seq<Call>, during: seq<Call>, key: string, limit: int, window: int, n: nat)
    requires Counted(m) && Monotone(during) && limit > 0 && window > 0 && n >= 1
    requires Steady(Only(during, key), limit, window)
    requires during != [] ==> during[|during| - 1].now - during[0].now <= n * window
    ensures var all := before + during;
      AllowedCount(Pick(during, Run(m, all)[|before|..], key)) <= n * limit + limit - 1
  {
    var reached := After(m, before);
    RunSplits(m, before, during);
    assert Run(m, before + during)[|before|..] == Run(reached, during);
    CountedAfter(m, before);
    KeysAreIndependent(reached, during, key);
    if during != [] {
      OnlySelects(during, key, during[0].now, during[|during| - 1].now);
    }
    KeyBound(Lookup(reached, key), Only(during, key), limit, window, n);
  }

  // ----- The bound for one window cannot be lowered

  function Repeated(c: Call, n: nat): (calls: seq<Call>)
    ensures |calls| == n && forall i | 0 <= i < n :: calls[i] == c
  {
    seq(n, i => c)
  }

  lemma {:induction false} AllAllowed(answers: seq<Result>)
    requires forall i | 0 <= i < |answers| :: answers[i].allowed
    ensures AllowedCount(answers) == |answers|
  {
    if answers != [] {
      AllAllowed(answers[1..]);
    }
  }

  /** One call opens a window, the rest of its allowance is used at its last instant, and a full new allowance one
      instant later. */
  function Straddling(key: string, limit: nat, window: nat): seq<Call>
    requires limit > 0
  {
    Repeated(Call(key, limit, window, window), limit - 1) + Repeated(Call(key, limit, window, window + 1), limit)
  }

  lemma {:induction false} KeyRunSplits(b: Bucket, first: seq<Call>, second: seq<Call>)
    requires forall i | 0 <= i < |first| :: !first[i].Unlimited() && first[i].now <= b.resetTime
    ensures KeyRun(Some(b), first + second)
         == KeyRun(Some(b), first) + KeyRun(Some(b.(count := b.count + |first|)), second)
    decreases |first|
  {
    if first == [] {
      assert first + second == second;
    } else {
      KeyRunSplits(b.(count := b.count + 1), first[1..], second);
      assert (first + second)[1..] == first[1..] + second;
    }
  }

  /** All the calls at the two instants around the end of a window are allowed: 2 * limit - 1 of them, no more than
      one instant apart. */
  lemma BoundIsReached(key: string, limit: nat, window: nat)
    requires limit > 0 && window > 0
    ensures var opening := Call(key, limit, window, 0);
      AllowedCount(KeyRun(Some(NextBucket(None, opening)), Straddling(key, limit, window))) == 2 * limit - 1
  {
    var b := Bucket(1, window);
    var first := Repeated(Call(key, limit, window, window), limit - 1);
    var second := Repeated(Call(key, limit, window, window + 1), limit);
    KeyRunSplits(b, first, second);
    var answers := KeyRun(Some(b), first + second);
    forall i | 0 <= i < |answers|
      ensures answers[i].allowed
    {
      if i < limit - 1 {
        InsideWindow(b, first, limit, window, i);
      } else {
        WindowIsExact(Some(b.(count := limit)), second, limit, window, i - (limit - 1));
      }
    }
    AllAllowed(answers);
  }

  /** Calls of one limit and one window, in the order of the clock, the later of them within one window length. */
  predicate WithinOneWindow(before: seq<Call>, during: seq<Call>, limit: int, window: int) {
    && Monotone(before + during) && Steady(before + during, limit, window)
    && (during != [] ==> during[|during| - 1].now - during[0].now <= window)
  }

  lemma LaterCalls(before: seq<Call>, during: seq<Call>, limit: int, window: int)
    requires Monotone(before + during) && Steady(before + during, limit, window)
    ensures Monotone(during) && Steady(during, limit, window)
  {
    var all := before + during;
    assert forall i | 0 <= i < |during| :: during[i] == all[|before| + i];
  }

  lemma {:induction false} OnlySteady(calls: seq<Call>, key: string, limit: int, window: int)
    requires Steady(calls, limit, window)
    ensures Steady(Only(calls, key), limit, window)
  {
    if calls != [] {
      assert forall i | 0 <= i < |calls| - 1 :: calls[1..][i] == calls[i + 1];
      OnlySteady(calls[1..], key, limit, window);
    }
  }

  /** What a sliding window would keep: never more than `limit` allowed calls of a key within one window length. */
  ghost predicate Slides(key: string, limit: int, window: int) {
    forall before: seq<Call>, during: seq<Call> | WithinOneWindow(before, during, limit, window) ::
      AllowedCount(Pick(during, Run(map[], before + during)[|before|..], key)) <= limit
  }

  lemma {:induction false} OnlyOwn(calls: seq<Call>, key: string)
    requires forall i | 0 <= i < |calls| :: calls[i].key == key
    ensures Only(calls, key) == calls
  {
    if calls != [] {
      OnlyOwn(calls[1..], key);
    }
  }

  /** The opening call and the straddling ones are in order and alike. */
  lemma StraddlingInOrder(key: string, limit: nat, window: nat)
    requires limit >= 2 && window > 0
    ensures var all := [Call(key, limit, window, 0)] + Straddling(key, limit, window);
      Monotone(all) && Steady(all, limit, window)
  {
    var during := Straddling(key, limit, window);
    assert forall i | 0 <= i < |during| :: window <= during[i].now <= window + 1;
  }

  lemma StraddlingIsWithin(key: string, limit: nat, window: nat)
    requires limit >= 2 && window > 0
    ensures WithinOneWindow([Call(key, limit, window, 0)], Straddling(key, limit, window), limit, window)
  {
    StraddlingInOrder(key, limit, window);
  }

  lemma StraddlingCount(key: string, limit: nat, window: nat)
    requires limit >= 2 && window > 0
    ensures var before, during := [Call(key, limit, window, 0)], Straddling(key, limit, window);
      AllowedCount(Pick(during, Run(map[], before + during)[1..], key)) == 2 * limit - 1
  {
    var opening, during := Call(key, limit, window, 0), Straddling(key, limit, window);
    var reached := Next(map[], opening);
    assert ([opening] + during)[0] == opening && ([opening] + during)[1..] == during;
    assert Run(map[], [opening] + during)[1..] == Run(reached, during);
    KeysAreIndependent(reached, during, key);
    OnlyOwn(during, key);
    NextLookup(map[], opening, key);
    BoundIsReached(key, limit, window);
  }

  /** The limiter is a sliding window exactly for a limit of one. */
  lemma SlidesIff(key: string, limit: nat, window: nat)
    requires limit > 0 && window > 0
    ensures Slides(key, limit, window) <==> limit == 1
  {
    if limit == 1 {
      forall before: seq<Call>, during: seq<Call> | WithinOneWindow(before, during, limit, window)
        ensures AllowedCount(Pick(during, Run(map[], before + during)[|before|..], key)) <= limit
      {
        LaterCalls(before, during, limit, window);
        OnlySteady(during, key, limit, window);
        IntervalBound(map[], before, during, key, limit, window, 1);
      }
    } else {
      StraddlingIsWithin(key, limit, window);
      StraddlingCount(key, limit, window);
    }
  }

  // ----- what else an answer says

  lemma {:induction false} ResetInside(b: Bucket, calls: seq<Call>, limit: int, window: int, i: nat)
    requires limit > 0 && Steady(calls, limit, window) && i < |calls|
    requires forall j | 0 <= j <= i :: calls[j].now <= b.resetTime
    ensures KeyRun(Some(b), calls)[i].resetTime == b.resetTime - calls[i].now
    decreases i
  {
    if i > 0 {
      ResetInside(b.(count := b.count + 1), calls[1..], limit, window, i - 1);
    }
  }

  /** Inside a window every answer gives the limit and the time left to the window's end, counted from its opening. */
  lemma ResetIsExact(b: Option<Bucket>, calls: seq<Call>, limit: int, window: int, i: nat)
    requires limit > 0 && Steady(calls, limit, window) && i < |calls|
    requires Opens(b, calls[0].now)
    requires forall j | 0 <= j <= i :: calls[j].now <= calls[0].now + window
    ensures KeyRun(b, calls)[i].resetTime == calls[0].now + window - calls[i].now
    ensures KeyRun(b, calls)[i].limit == limit
  {
    LimitIsReported(b, calls, i);
    if i > 0 {
      ResetInside(Bucket(1, calls[0].now + window), calls[1..], limit, window, i - 1);
    }
  }

  /** Calls without a limit are all allowed, whatever their number and times, and count nothing. */
  lemma {:induction false} NoLimitNoCount(b: Option<Bucket>, calls: seq<Call>, more: seq<Call>, i: nat)
    requires i < |calls| && forall j | 0 <= j < |calls| :: calls[j].limit <= 0
    ensures KeyRun(b, calls)[i] == Result(true, calls[i].limit, calls[i].limit, 0)
    ensures KeyRun(b, calls + more)[|calls|..] == KeyRun(b, more)
    decreases |calls|
  {
    var rest := calls[1..];
    assert (calls + more)[1..] == rest + more;
    if rest == [] {
      assert rest + more == more;
    } else {
      NoLimitNoCount(b, rest, more, if i > 0 then i - 1 else 0);
    }
  }
}
