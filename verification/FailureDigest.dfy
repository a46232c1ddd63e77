/** The accumulator that turns bursts of delivery failures into digests: one bucket per endpoint, flushed when it is
    full or when its window has passed. */
module FailureDigest {
  import opened Prelude

  const SECOND: int := 1_000_000_000
  const MINUTE: int := 60 * SECOND

  /** The fields a bucket copies once, when it is created. */
  datatype Origin = Origin(projectID: string, projectName: string, endpointName: string, targetURL: string)

  datatype Failure = Failure(endpoint: string, origin: Origin, status: int, error: string, at: int)

  datatype Pending = Pending(origin: Origin, lastStatus: int, lastError: string, failureCount: int,
                             firstSeenAt: int, lastSeenAt: int)

  datatype Digest = Digest(endpoint: string, summary: Pending, windowSeconds: int)

  datatype Config = Config(window: int, threshold: int) {
    predicate Valid() {
      window > 0 && threshold > 0
    }
  }

  /** What the constructor makes of its arguments. */
  function Configured(window: int, threshold: int): (c: Config)
    ensures c.Valid()
    ensures c.window == (if window <= 0 then 60_000_000_000 else window)
    ensures c.threshold == (if threshold <= 0 then 10 else threshold)
  {
    Config(if window <= 0 then MINUTE else window, if threshold <= 0 then 10 else threshold)
  }

  datatype State = State(pending: map<string, Pending>, sent: seq<Digest>)

  // ----- The operations on values

  function Opened(f: Failure): Pending {
    Pending(f.origin, f.status, f.error, 1, f.at, f.at)
  }

  function Counted(b: Pending, f: Failure): Pending {
    b.(failureCount := b.failureCount + 1, lastStatus := f.status, lastError := f.error, lastSeenAt := f.at)
  }

  function DigestOf(endpoint: string, b: Pending, now: int): Digest {
    var seconds := (now - b.firstSeenAt) / SECOND;
    Digest(endpoint, b, if seconds == 0 then 1 else seconds)
  }

  /** One bucket leaves, and its digest goes out unless it is empty. */
  function Flushed(s: State, endpoint: string, now: int): State
    requires endpoint in s.pending
  {
    var b := s.pending[endpoint];
    State(s.pending - {endpoint}, if b.failureCount == 0 then s.sent else s.sent + [DigestOf(endpoint, b, now)])
  }

  function Noted(s: State, f: Failure): State {
    s.(pending := s.pending[f.endpoint :=
      if f.endpoint in s.pending then Counted(s.pending[f.endpoint], f) else Opened(f)])
  }

  function Recorded(c: Config, s: State, f: Failure): State {
    var t := Noted(s, f);
    if t.pending[f.endpoint].failureCount >= c.threshold then Flushed(t, f.endpoint, f.at) else t
  }

  predicate Expired(c: Config, b: Pending, now: int) {
    now - b.firstSeenAt >= c.window
  }

  function ExpiredKeys(c: Config, pending: map<string, Pending>, now: int): set<string> {
    set e | e in pending && Expired(c, pending[e], now)
  }

  /** An order in which a loop over a map may visit the given keys: each of them once. */
  predicate Visits(order: seq<string>, keys: set<string>) {
    if order == [] then keys == {} else order[0] in keys && Visits(order[1..], keys - {order[0]})
  }

  /** A bucket that is no longer there is passed over. */
  function FlushedInOrder(s: State, order: seq<string>, now: int): State
    decreases |order|
  {
    if order == [] then s
    else FlushedInOrder(if order[0] in s.pending then Flushed(s, order[0], now) else s, order[1..], now)
  }

  lemma {:induction false} FlushOneMore(s: State, order: seq<string>, endpoint: string, now: int)
    ensures var t := FlushedInOrder(s, order, now);
      endpoint in t.pending ==> FlushedInOrder(s, order + [endpoint], now) == Flushed(t, endpoint, now)
    decreases |order|
  {
    if order == [] {
      assert order + [endpoint] == [endpoint];
    } else {
      assert (order + [endpoint])[1..] == order[1..] + [endpoint];
      FlushOneMore(if order[0] in s.pending then Flushed(s, order[0], now) else s, order[1..], endpoint, now);
    }
  }

  lemma {:induction false} VisitOneMore(order: seq<string>, keys: set<string>, endpoint: string)
    requires Visits(order, keys) && endpoint !in keys
    ensures Visits(order + [endpoint], keys + {endpoint})
    decreases |order|
  {
    if order == [] {
      assert order + [endpoint] == [endpoint];
    } else {
      assert (order + [endpoint])[1..] == order[1..] + [endpoint];
      VisitOneMore(order[1..], keys - {order[0]}, endpoint);
      assert keys + {endpoint} - {order[0]} == keys - {order[0]} + {endpoint};
    }
  }

  lemma VisitAnother(order: seq<string>, keys: set<string>, left: set<string>, endpoint: string)
    requires Visits(order, keys - left) && endpoint in left && left <= keys
    ensures Visits(order + [endpoint], keys - (left - {endpoint}))
  {
    VisitOneMore(order, keys - left, endpoint);
    assert keys - (left - {endpoint}) == keys - left + {endpoint};
  }

  lemma {:induction false} FlushedPending(s: State, order: seq<string>, keys: set<string>, now: int)
    requires Visits(order, keys) && keys <= s.pending.Keys
    ensures FlushedInOrder(s, order, now).pending == s.pending - keys
    decreases |order|
  {
    if order != [] {
      var t := Flushed(s, order[0], now);
      FlushedPending(t, order[1..], keys - {order[0]}, now);
      assert s.pending - {order[0]} - (keys - {order[0]}) == s.pending - keys;
    }
  }

  // ----- What is held back

  /** How many failures the bucket of the endpoint stands for, this one included. */
  function CountWith(s: State, f: Failure): int {
    if f.endpoint in s.pending then s.pending[f.endpoint].failureCount + 1 else 1
  }

  /** Below the threshold nothing goes out and the failure waits in its bucket; at the threshold the bucket leaves as
      one digest. Other endpoints are not touched. */
  predicate Held(threshold: int, before: State, after: State, f: Failure) {
    && after.pending - {f.endpoint} == before.pending - {f.endpoint}
    && var n := CountWith(before, f);
    && (n < threshold ==>
          after.sent == before.sent && f.endpoint in after.pending && after.pending[f.endpoint].failureCount == n)
    && (n >= threshold && n != 0 ==>
          f.endpoint !in after.pending && |after.sent| == |before.sent| + 1 && before.sent <= after.sent
          && var d := after.sent[|before.sent|];
          d.endpoint == f.endpoint && d.summary.failureCount == n
          && d.summary.lastStatus == f.status && d.summary.lastError == f.error)
  }

  lemma RecordedHolds(c: Config, s: State, f: Failure)
    ensures Held(c.threshold, s, Recorded(c, s, f), f)
  {
    assert Noted(s, f).pending - {f.endpoint} == s.pending - {f.endpoint};
  }

  /** The window of a digest in whole seconds, and never less than one. */
  lemma DigestSeconds(endpoint: string, b: Pending, now: int)
    requires now >= b.firstSeenAt
    ensures DigestOf(endpoint, b, now).windowSeconds == Max(1, (now - b.firstSeenAt) / 1_000_000_000)
  {
  }

  // ----- The object

  class FailureBucket {
    var origin: Origin
    var lastStatus: int
    var lastError: string
    var failureCount: int
    var firstSeenAt: int
    var lastSeenAt: int

    constructor (f: Failure)
      ensures Contents() == Opened(f)
    {
      origin := f.origin;
      lastStatus, lastError := f.status, f.error;
      failureCount := 1;
      firstSeenAt, lastSeenAt := f.at, f.at;
    }

    function Contents(): Pending
      reads this
    {
      Pending(origin, lastStatus, lastError, failureCount, firstSeenAt, lastSeenAt)
    }

    method Count(f: Failure)
      modifies this
      ensures Contents() == Counted(old(Contents()), f)
    {
      failureCount := failureCount + 1;
      lastStatus, lastError := f.status, f.error;
      lastSeenAt := f.at;
    }
  }

  class Accumulator {
    const config: Config
    var buckets: map<string, FailureBucket>
    /** What the callback has been given. */
    var sent: seq<Digest>

    ghost predicate Valid()
      reads this
    {
      && config.Valid()
      && forall d, e | d in buckets && e in buckets && d != e :: buckets[d] != buckets[e]
    }

    ghost function Pendings(): map<string, Pending>
      reads this, buckets.Values
    {
      map e | e in buckets :: buckets[e].Contents()
    }

    ghost function Contents(): State
      reads this, buckets.Values
    {
      State(Pendings(), sent)
    }

    constructor (window: int, threshold: int)
      ensures Valid() && config == Configured(window, threshold) && Contents() == State(map[], [])
    {
      config := Configured(window, threshold);
      buckets := map[];
      sent := [];
    }

    method Delete(endpoint: string)
      requires Valid() && endpoint in buckets
      modifies this`buckets
      ensures Valid() && buckets == old(buckets) - {endpoint}
      ensures Pendings() == old(Pendings()) - {endpoint}
    {
      buckets := buckets - {endpoint};
    }

    method FlushBucket(endpoint: string, now: int)
      requires Valid() && endpoint in buckets
      modifies this
      ensures Valid() && buckets == old(buckets) - {endpoint}
      ensures Contents() == Flushed(old(Contents()), endpoint, now)
    {
      var b := buckets[endpoint];
      if b.failureCount == 0 {
        Delete(endpoint);
        return;
      }
      var seconds := (now - b.firstSeenAt) / SECOND;
      if seconds == 0 {
        seconds := 1;
      }
      var digest := Digest(endpoint, b.Contents(), seconds);
      assert Pendings()[endpoint] == b.Contents() && digest == DigestOf(endpoint, b.Contents(), now);
      Delete(endpoint);
      sent := sent + [digest];
    }

    method RecordFailure(f: Failure)
      requires Valid()
      modifies this, buckets.Values
      ensures Valid() && fresh(buckets.Values - old(buckets.Values))
      ensures Contents() == Recorded(config, old(Contents()), f)
      ensures Held(config.threshold, old(Contents()), Contents(), f)
    {
      RecordedHolds(config, Contents(), f);
      Note(f);
      if buckets[f.endpoint].failureCount >= config.threshold {
        FlushBucket(f.endpoint, f.at);
      }
    }

    method Note(f: Failure)
      requires Valid()
      modifies this`buckets, buckets.Values
      ensures Valid() && fresh(buckets.Values - old(buckets.Values)) && f.endpoint in buckets
      ensures Contents() == Noted(old(Contents()), f)
    {
      if f.endpoint !in buckets {
        var bucket := new FailureBucket(f);
        buckets := buckets[f.endpoint := bucket];
      } else {
        var bucket := buckets[f.endpoint];
        bucket.Count(f);
      }
    }

    /** Flushes the given endpoints one by one, in some order. */
    method FlushKeys(keys: set<string>, now: int) returns (ghost order: seq<string>)
      requires Valid() && keys <= buckets.Keys
      modifies this
      ensures Valid()
      ensures Visits(order, keys)
      ensures Contents() == FlushedInOrder(old(Contents()), order, now)
    {
      order := [];
      var left := keys;
      ghost var before := Contents();
      while left != {}
        invariant Valid() && left <= buckets.Keys
        invariant left <= keys && Visits(order, keys - left)
        invariant Contents() == FlushedInOrder(before, order, now)
        decreases |left|
      {
        var endpoint: string :| endpoint in left;
        VisitAnother(order, keys, left, endpoint);
        FlushOneMore(before, order, endpoint, now);
        FlushBucket(endpoint, now);
        order := order + [endpoint];
        left := left - {endpoint};
      }
      assert keys - left == keys;
    }

    method FlushAll(now: int) returns (ghost order: seq<string>)
      requires Valid()
      modifies this
      ensures Valid()
      ensures Visits(order, old(Contents()).pending.Keys)
      ensures Contents() == FlushedInOrder(old(Contents()), order, now)
      ensures Contents().pending == map[]
    {
      assert buckets.Keys == Contents().pending.Keys;
      ghost var before := Contents();
      order := FlushKeys(buckets.Keys, now);
      FlushedPending(before, order, before.pending.Keys, now);
    }

    method CheckAndFlushExpired(now: int) returns (ghost order: seq<string>)
      requires Valid()
      modifies this
      ensures Valid()
      ensures Visits(order, ExpiredKeys(config, old(Contents()).pending, now))
      ensures Contents() == FlushedInOrder(old(Contents()), order, now)
      ensures forall e | e in old(Contents()).pending :: var b := old(Contents()).pending[e];
        if now - b.firstSeenAt >= config.window then e !in Contents().pending
        else e in Contents().pending && Contents().pending[e] == b
    {
      var keys := set e | e in buckets && now - buckets[e].firstSeenAt >= config.window;
      assert keys == ExpiredKeys(config, Contents().pending, now);
      ghost var before := Contents();
      order := FlushKeys(keys, now);
      FlushedPending(before, order, keys, now);
    }
  }
}
