/** What the failure digests add up to over whole runs. */
module DigestTheorems {
  import opened Prelude
  import opened FailureDigest

  /** Each map loop carries the order in which it visits the buckets. */
  datatype Event =
    | Record(failure: Failure)
    | Check(at: int, order: seq<string>)
    | FlushAll(at: int, order: seq<string>)
  {
    function Time(): int {
      if Record? then failure.at else at
    }
  }

  predicate Enabled(c: Config, s: State, e: Event) {
    match e
    case Record(_) => true
    case Check(at, order) => Visits(order, ExpiredKeys(c, s.pending, at))
    case FlushAll(_, order) => Visits(order, s.pending.Keys)
  }

  function Apply(c: Config, s: State, e: Event): State {
    match e
    case Record(f) => Recorded(c, s, f)
    case Check(at, order) => FlushedInOrder(s, order, at)
    case FlushAll(at, order) => FlushedInOrder(s, order, at)
  }

  /** The history of a run, newest event last, on a clock that does not go back. */
  predicate IsRun(c: Config, start: int, events: seq<Event>) {
    events == [] ||
    var n := |events| - 1;
    && IsRun(c, start, events[..n])
    && Clock(start, events[..n]) <= events[n].Time()
    && Enabled(c, StateAfter(c, events[..n]), events[n])
  }

  function StateAfter(c: Config, events: seq<Event>): State {
    if events == [] then State(map[], [])
    else var n := |events| - 1; Apply(c, StateAfter(c, events[..n]), events[n])
  }

  function Clock(start: int, events: seq<Event>): int {
    if events == [] then start else events[|events| - 1].Time()
  }

  /** When expired buckets were last looked for; the ticker starts with the accumulator. */
  function LastCheck(start: int, events: seq<Event>): int {
    if events == [] then start
    else var n := |events| - 1; if events[n].Check? then events[n].at else LastCheck(start, events[..n])
  }

  /** The failures recorded for one endpoint, in order. */
  function Own(events: seq<Event>, endpoint: string): seq<Failure> {
    if events == [] then []
    else var n := |events| - 1;
      Own(events[..n], endpoint)
      + if events[n].Record? && events[n].failure.endpoint == endpoint then [events[n].failure] else []
  }

  /** The digests of one endpoint, in order. */
  function DigestsOf(sent: seq<Digest>, endpoint: string): seq<Digest> {
    if sent == [] then []
    else var n := |sent| - 1;
      DigestsOf(sent[..n], endpoint) + if sent[n].endpoint == endpoint then [sent[n]] else []
  }

  // ----- Blocks of failures

  /** What a bucket says of the failures it stands for: the origin of the first, the outcome of the last. */
  function Summary(block: seq<Failure>): Pending
    requires block != []
  {
    var first, last := block[0], block[|block| - 1];
    Pending(first.origin, last.status, last.error, |block|, first.at, last.at)
  }

  function Total(ds: seq<Digest>): int {
    if ds == [] then 0 else Total(ds[..|ds| - 1]) + ds[|ds| - 1].summary.failureCount
  }

  /** The digests cut the failures, from the oldest on, into consecutive blocks of at most `threshold`, and each
      summarises its block. */
  predicate Partitions(ds: seq<Digest>, own: seq<Failure>, threshold: int) {
    if ds == [] then true
    else
      var n := |ds| - 1;
      && Partitions(ds[..n], own, threshold)
      && var d := ds[n].summary;
      && 1 <= d.failureCount <= threshold
      && 0 <= Total(ds[..n]) <= |own| - d.failureCount
      && d == Summary(own[Total(ds[..n])..Total(ds[..n]) + d.failureCount])
  }

  lemma {:induction false} PartitionFits(ds: seq<Digest>, own: seq<Failure>, threshold: int)
    requires Partitions(ds, own, threshold)
    ensures 0 <= Total(ds) <= |own|
  {
    if ds != [] {
      PartitionFits(ds[..|ds| - 1], own, threshold);
    }
  }

  lemma {:induction false} PartitionGrows(ds: seq<Digest>, own: seq<Failure>, more: seq<Failure>, threshold: int)
    requires Partitions(ds, own, threshold)
    ensures Partitions(ds, own + more, threshold)
  {
    if ds != [] {
      var n := |ds| - 1;
      PartitionGrows(ds[..n], own, more, threshold);
      var from, to := Total(ds[..n]), Total(ds[..n]) + ds[n].summary.failureCount;
      assert (own + more)[from..to] == own[from..to];
    }
  }

  /** The failures no digest has reported yet. */
  function Unsent(ds: seq<Digest>, own: seq<Failure>): seq<Failure> {
    if 0 <= Total(ds) <= |own| then own[Total(ds)..] else []
  }

  /** In the order of the clock, and not after `now`. */
  predicate Ordered(own: seq<Failure>, now: int) {
    && (forall i, j | 0 <= i <= j < |own| :: own[i].at <= own[j].at)
    && forall i | 0 <= i < |own| :: own[i].at <= now
  }

  /** The digests partition the failures reported, and the bucket summarises the rest. */
  predicate Holds(c: Config, s: State, own: seq<Failure>, endpoint: string) {
    var ds := DigestsOf(s.sent, endpoint);
    var block := Unsent(ds, own);
    && Partitions(ds, own, c.threshold)
    && (endpoint in s.pending <==> block != [])
    && (endpoint in s.pending ==> s.pending[endpoint] == Summary(block))
    && |block| <= c.threshold
  }

  /** How the state stands to the failures of one endpoint between operations. */
  predicate Explains(c: Config, s: State, own: seq<Failure>, endpoint: string) {
    Holds(c, s, own, endpoint) && |Unsent(DigestsOf(s.sent, endpoint), own)| < c.threshold
  }

  // ----- One step

  lemma DigestsGrow(sent: seq<Digest>, d: Digest, endpoint: string)
    ensures DigestsOf(sent + [d], endpoint) == DigestsOf(sent, endpoint) + if d.endpoint == endpoint then [d] else []
  {
    assert (sent + [d])[..|sent|] == sent;
  }

  lemma TotalGrows(ds: seq<Digest>, d: Digest)
    ensures Total(ds + [d]) == Total(ds) + d.summary.failureCount
  {
    assert (ds + [d])[..|ds|] == ds;
  }

  lemma SummaryGrows(block: seq<Failure>, f: Failure)
    ensures Summary(block + [f]) == if block == [] then Opened(f) else Counted(Summary(block), f)
  {
  }

  lemma NotedHolds(c: Config, s: State, own: seq<Failure>, f: Failure)
    requires Explains(c, s, own, f.endpoint)
    ensures Holds(c, Noted(s, f), own + [f], f.endpoint)
  {
    var ds := DigestsOf(s.sent, f.endpoint);
    PartitionFits(ds, own, c.threshold);
    PartitionGrows(ds, own, [f], c.threshold);
    var block := Unsent(ds, own);
    assert Unsent(ds, own + [f]) == block + [f];
    SummaryGrows(block, f);
  }

  /** A digest of all the unsent failures completes the partition. */
  lemma PartitionCompletes(ds: seq<Digest>, d: Digest, own: seq<Failure>, threshold: int)
    requires Partitions(ds, own, threshold) && Unsent(ds, own) != [] && |Unsent(ds, own)| <= threshold
    requires d.summary == Summary(Unsent(ds, own))
    ensures Partitions(ds + [d], own, threshold) && Unsent(ds + [d], own) == []
  {
    var block := Unsent(ds, own);
    PartitionFits(ds, own, threshold);
    assert own[Total(ds)..Total(ds) + |block|] == block;
    TotalGrows(ds, d);
    assert (ds + [d])[..|ds|] == ds;
  }

  lemma FlushedDigests(s: State, endpoint: string, now: int, other: string)
    requires endpoint in s.pending && s.pending[endpoint].failureCount != 0
    ensures DigestsOf(Flushed(s, endpoint, now).sent, other)
         == DigestsOf(s.sent, other) + if other == endpoint then [DigestOf(endpoint, s.pending[endpoint], now)] else []
  {
    DigestsGrow(s.sent, DigestOf(endpoint, s.pending[endpoint], now), other);
  }

  /** A flush reports all the unsent failures of its endpoint. */
  lemma FlushedExplains(c: Config, s: State, own: seq<Failure>, endpoint: string, now: int)
    requires c.Valid() && Holds(c, s, own, endpoint) && endpoint in s.pending
    ensures Explains(c, Flushed(s, endpoint, now), own, endpoint)
  {
    FlushedDigests(s, endpoint, now, endpoint);
    PartitionCompletes(DigestsOf(s.sent, endpoint), DigestOf(endpoint, s.pending[endpoint], now), own, c.threshold);
  }

  lemma OtherDigestsKept(s: State, endpoint: string, other: string, now: int)
    requires other != endpoint && endpoint in s.pending
    ensures DigestsOf(Flushed(s, endpoint, now).sent, other) == DigestsOf(s.sent, other)
  {
    DigestsGrow(s.sent, DigestOf(endpoint, s.pending[endpoint], now), other);
    assert DigestsOf(s.sent, other) + [] == DigestsOf(s.sent, other);
  }

  lemma OthersUntouched(c: Config, s: State, own: seq<Failure>, endpoint: string, other: string, now: int)
    requires other != endpoint && endpoint in s.pending && Explains(c, s, own, other)
    ensures Explains(c, Flushed(s, endpoint, now), own, other)
  {
    OtherDigestsKept(s, endpoint, other, now);
  }

  lemma RecordedExplains(c: Config, s: State, own: seq<Failure>, f: Failure)
    requires c.Valid() && Explains(c, s, own, f.endpoint)
    ensures Explains(c, Recorded(c, s, f), own + [f], f.endpoint)
  {
    var t := Noted(s, f);
    NotedHolds(c, s, own, f);
    if t.pending[f.endpoint].failureCount >= c.threshold {
      FlushedExplains(c, t, own + [f], f.endpoint, f.at);
    }
  }

  lemma RecordedOther(c: Config, s: State, own: seq<Failure>, f: Failure, other: string)
    requires other != f.endpoint && Explains(c, s, own, other)
    ensures Explains(c, Recorded(c, s, f), own, other)
  {
    var t := Noted(s, f);
    if t.pending[f.endpoint].failureCount >= c.threshold {
      OthersUntouched(c, t, own, f.endpoint, other, f.at);
    }
  }

  /** After a loop of flushes the endpoints it visited have nothing unsent. */
  lemma {:induction false} LoopExplains(c: Config, s: State, own: seq<Failure>, order: seq<string>,
                                        now: int, endpoint: string)
    requires c.Valid() && Explains(c, s, own, endpoint)
    ensures var t := FlushedInOrder(s, order, now);
      && Explains(c, t, own, endpoint)
      && (endpoint in order ==> endpoint !in t.pending)
    decreases |order|
  {
    if order != [] {
      if order[0] in s.pending {
        if order[0] == endpoint {
          FlushedExplains(c, s, own, endpoint, now);
        } else {
          OthersUntouched(c, s, own, order[0], endpoint, now);
        }
        LoopExplains(c, Flushed(s, order[0], now), own, order[1..], now, endpoint);
        GoneStaysGone(Flushed(s, order[0], now), order[1..], now, order[0]);
      } else {
        LoopExplains(c, s, own, order[1..], now, endpoint);
        GoneStaysGone(s, order[1..], now, order[0]);
      }
    }
  }

  lemma {:induction false} GoneStaysGone(s: State, order: seq<string>, now: int, endpoint: string)
    requires endpoint !in s.pending
    ensures endpoint !in FlushedInOrder(s, order, now).pending
    decreases |order|
  {
    if order != [] {
      GoneStaysGone(if order[0] in s.pending then Flushed(s, order[0], now) else s, order[1..], now, endpoint);
    }
  }

  lemma {:induction false} VisitsMembers(order: seq<string>, keys: set<string>, e: string)
    requires Visits(order, keys)
    ensures e in order <==> e in keys
    decreases |order|
  {
    if order != [] {
      VisitsMembers(order[1..], keys - {order[0]}, e);
      assert e in order <==> e == order[0] || e in order[1..];
    }
  }

  // ----- Whole runs

  /** The digests of an endpoint are summaries of consecutive blocks of its failures, each of 1 to `threshold`, and
      its bucket is the summary of the rest, which is shorter than the threshold. */
  lemma {:induction false} DigestsPartitionFailures(c: Config, start: int, events: seq<Event>, endpoint: string)
    requires c.Valid() && IsRun(c, start, events)
    ensures Explains(c, StateAfter(c, events), Own(events, endpoint), endpoint)
  {
    if events != [] {
      var n := |events| - 1;
      var s, own, e := StateAfter(c, events[..n]), Own(events[..n], endpoint), events[n];
      DigestsPartitionFailures(c, start, events[..n], endpoint);
      if e.Record? {
        if e.failure.endpoint == endpoint {
          RecordedExplains(c, s, own, e.failure);
        } else {
          RecordedOther(c, s, own, e.failure, endpoint);
          assert own + [] == own;
        }
      } else {
        LoopExplains(c, s, own, e.order, e.at, endpoint);
        assert own + [] == own;
      }
    }
  }

  /** Recorded failures are those reported plus those pending. */
  lemma Conservation(c: Config, start: int, events: seq<Event>, endpoint: string)
    requires c.Valid() && IsRun(c, start, events)
    ensures var s := StateAfter(c, events);
      |Own(events, endpoint)| == Total(DigestsOf(s.sent, endpoint))
        + if endpoint in s.pending then s.pending[endpoint].failureCount else 0
    ensures var s := StateAfter(c, events);
      endpoint in s.pending ==> 1 <= s.pending[endpoint].failureCount < c.threshold
  {
    DigestsPartitionFailures(c, start, events, endpoint);
    var own := Own(events, endpoint);
    PartitionFits(DigestsOf(StateAfter(c, events).sent, endpoint), own, c.threshold);
  }

  lemma {:induction false} SizesOfPartition(ds: seq<Digest>, own: seq<Failure>, threshold: int, i: nat)
    requires Partitions(ds, own, threshold) && i < |ds|
    ensures 1 <= ds[i].summary.failureCount <= threshold
  {
    if i < |ds| - 1 {
      SizesOfPartition(ds[..|ds| - 1], own, threshold, i);
    }
  }

  /** Flushing everything, as closing does, leaves no failure unreported. */
  lemma FlushAllReportsAll(c: Config, start: int, events: seq<Event>, endpoint: string)
    requires c.Valid() && IsRun(c, start, events) && events != [] && events[|events| - 1].FlushAll?
    ensures |Own(events, endpoint)| == Total(DigestsOf(StateAfter(c, events).sent, endpoint))
  {
    var n := |events| - 1;
    var s := StateAfter(c, events[..n]);
    DigestsPartitionFailures(c, start, events[..n], endpoint);
    LoopExplains(c, s, Own(events[..n], endpoint), events[n].order, events[n].at, endpoint);
    VisitsMembers(events[n].order, s.pending.Keys, endpoint);
    GoneStays(s, events[n].order, events[n].at, endpoint);
    Conservation(c, start, events, endpoint);
  }

  lemma GoneStays(s: State, order: seq<string>, now: int, endpoint: string)
    ensures endpoint !in s.pending ==> endpoint !in FlushedInOrder(s, order, now).pending
  {
    if endpoint !in s.pending {
      GoneStaysGone(s, order, now, endpoint);
    }
  }

  // ----- Latency

  lemma OrderedGrows(own: seq<Failure>, now: int, f: Failure)
    requires Ordered(own, now) && now <= f.at
    ensures Ordered(own + [f], f.at)
  {
  }

  lemma {:induction false} OwnOrdered(c: Config, start: int, events: seq<Event>, endpoint: string)
    requires IsRun(c, start, events)
    ensures Ordered(Own(events, endpoint), Clock(start, events))
  {
    if events != [] {
      var n := |events| - 1;
      var own, e := Own(events[..n], endpoint), events[n];
      OwnOrdered(c, start, events[..n], endpoint);
      if e.Record? && e.failure.endpoint == endpoint {
        OrderedGrows(own, Clock(start, events[..n]), e.failure);
      } else {
        assert own + [] == own;
      }
    }
  }

  lemma {:induction false} CheckedInThePast(c: Config, start: int, events: seq<Event>)
    requires IsRun(c, start, events)
    ensures LastCheck(start, events) <= Clock(start, events)
  {
    if events != [] {
      CheckedInThePast(c, start, events[..|events| - 1]);
    }
  }

  /** Nothing that had waited a whole window survived the last check. */
  lemma {:induction false} PendingSinceLastCheck(c: Config, start: int, events: seq<Event>, endpoint: string)
    requires c.Valid() && IsRun(c, start, events)
    ensures var s := StateAfter(c, events);
      endpoint in s.pending ==> LastCheck(start, events) - s.pending[endpoint].firstSeenAt < c.window
  {
    if events != [] {
      var n := |events| - 1;
      var s, e := StateAfter(c, events[..n]), events[n];
      PendingSinceLastCheck(c, start, events[..n], endpoint);
      CheckedInThePast(c, start, events[..n]);
      if e.Record? {
      } else {
        LoopKeepsPending(s, e.order, e.at, endpoint);
        if e.Check? {
          VisitsMembers(e.order, ExpiredKeys(c, s.pending, e.at), endpoint);
          DigestsPartitionFailures(c, start, events[..n], endpoint);
          LoopExplains(c, s, Own(events[..n], endpoint), e.order, e.at, endpoint);
        }
      }
    }
  }

  lemma {:induction false} LoopKeepsPending(s: State, order: seq<string>, now: int, endpoint: string)
    ensures var t := FlushedInOrder(s, order, now);
      endpoint in t.pending ==> endpoint in s.pending && t.pending[endpoint] == s.pending[endpoint]
    decreases |order|
  {
    if order != [] {
      LoopKeepsPending(if order[0] in s.pending then Flushed(s, order[0], now) else s, order[1..], now, endpoint);
    }
  }

  /** When expiry checks are at most `gap` apart, a failure is reported before it is `window + gap` old: it is among
      those the digests account for. */
  lemma ReportedInTime(c: Config, start: int, events: seq<Event>, endpoint: string, gap: int, now: int, i: nat)
    requires c.Valid() && IsRun(c, start, events) && Clock(start, events) <= now <= LastCheck(start, events) + gap
    requires i < |Own(events, endpoint)| && Own(events, endpoint)[i].at + c.window + gap <= now
    ensures i < Total(DigestsOf(StateAfter(c, events).sent, endpoint))
  {
    var s, own := StateAfter(c, events), Own(events, endpoint);
    var ds := DigestsOf(s.sent, endpoint);
    DigestsPartitionFailures(c, start, events, endpoint);
    PartitionFits(ds, own, c.threshold);
    PendingSinceLastCheck(c, start, events, endpoint);
    OwnOrdered(c, start, events, endpoint);
  }

  // ----- Failures are held back

  /** A recorded failure sends nothing, or one digest of its endpoint that carries exactly the threshold. */
  lemma RecordSendsFull(c: Config, start: int, events: seq<Event>, f: Failure)
    requires c.Valid() && IsRun(c, start, events)
    ensures var s, t := StateAfter(c, events), Recorded(c, StateAfter(c, events), f);
      || t.sent == s.sent
      || (|t.sent| == |s.sent| + 1 && s.sent <= t.sent
          && t.sent[|s.sent|].endpoint == f.endpoint && t.sent[|s.sent|].summary.failureCount == c.threshold)
  {
    Conservation(c, start, events, f.endpoint);
    RecordedHolds(c, StateAfter(c, events), f);
  }

  /** The digests of an endpoint after one more failure of any endpoint. */
  lemma DigestsAfterRecord(c: Config, s: State, f: Failure, endpoint: string)
    requires c.Valid() && (f.endpoint in s.pending ==> 1 <= s.pending[f.endpoint].failureCount < c.threshold)
    ensures var ds, more := DigestsOf(s.sent, endpoint), DigestsOf(Recorded(c, s, f).sent, endpoint);
      more == ds || (f.endpoint == endpoint && |more| == |ds| + 1 && Total(more) == Total(ds) + c.threshold)
  {
    var t := Noted(s, f);
    if t.pending[f.endpoint].failureCount >= c.threshold {
      FlushedDigests(t, f.endpoint, f.at, endpoint);
      if endpoint == f.endpoint {
        TotalGrows(DigestsOf(s.sent, endpoint), DigestOf(endpoint, t.pending[endpoint], f.at));
      } else {
        assert DigestsOf(s.sent, endpoint) + [] == DigestsOf(s.sent, endpoint);
      }
    }
  }

  lemma {:induction false} FullDigests(c: Config, start: int, events: seq<Event>, endpoint: string)
    requires c.Valid() && IsRun(c, start, events) && forall i | 0 <= i < |events| :: events[i].Record?
    ensures var ds := DigestsOf(StateAfter(c, events).sent, endpoint); Total(ds) == |ds| * c.threshold
  {
    if events != [] {
      var n := |events| - 1;
      var s := StateAfter(c, events[..n]);
      FullDigests(c, start, events[..n], endpoint);
      Conservation(c, start, events[..n], events[n].failure.endpoint);
      DigestsAfterRecord(c, s, events[n].failure, endpoint);
      OneTimesMore(|DigestsOf(s.sent, endpoint)|, c.threshold);
    }
  }

  lemma OneTimesMore(n: int, threshold: int)
    ensures (n + 1) * threshold == n * threshold + threshold
  {
  }

  lemma MultipleGrows(d: int, threshold: int)
    requires threshold > 0
    ensures d >= 1 ==> d * threshold >= threshold
    ensures d <= -1 ==> d * threshold <= -threshold
  {
  }

  lemma SmallMultiple(d: int, threshold: int)
    requires threshold > 0 && -threshold < d * threshold < threshold
    ensures d == 0
  {
    MultipleGrows(d, threshold);
  }

  lemma Distributes(a: int, b: int, threshold: int)
    ensures (a - b) * threshold == a * threshold - b * threshold
  {
  }

  lemma QuotientAndRest(total: int, n: int, rest: int, threshold: int)
    requires threshold > 0 && total == n * threshold + rest && 0 <= rest < threshold
    ensures n == total / threshold
  {
    var q := total / threshold;
    Distributes(q, n, threshold);
    assert 0 <= total - q * threshold < threshold;
    SmallMultiple(q - n, threshold);
  }

  /** While no check and no flush intervenes, there is one digest for every threshold of failures, and no more. */
  lemma OneDigestPerThreshold(c: Config, start: int, events: seq<Event>, endpoint: string)
    requires c.Valid() && IsRun(c, start, events) && forall i | 0 <= i < |events| :: events[i].Record?
    ensures |DigestsOf(StateAfter(c, events).sent, endpoint)| == |Own(events, endpoint)| / c.threshold
  {
    var s, own := StateAfter(c, events), Own(events, endpoint);
    var n := |DigestsOf(s.sent, endpoint)|;
    FullDigests(c, start, events, endpoint);
    Conservation(c, start, events, endpoint);
    QuotientAndRest(|own|, n, |own| - n * c.threshold, c.threshold);
  }

  lemma {:induction false} LoopSkips(s: State, order: seq<string>, now: int, endpoint: string)
    requires endpoint !in order
    ensures DigestsOf(FlushedInOrder(s, order, now).sent, endpoint) == DigestsOf(s.sent, endpoint)
    decreases |order|
  {
    if order != [] {
      assert order[0] != endpoint && endpoint !in order[1..];
      if order[0] in s.pending {
        OtherDigestsKept(s, order[0], endpoint, now);
      }
      LoopSkips(if order[0] in s.pending then Flushed(s, order[0], now) else s, order[1..], now, endpoint);
    }
  }

  /** A check leaves a bucket younger than the window alone, and reports every other. */
  lemma CheckReportsExpired(c: Config, s: State, e: Event, endpoint: string)
    requires e.Check? && Enabled(c, s, e) && endpoint in s.pending
    ensures var t, b := Apply(c, s, e), s.pending[endpoint];
      if e.at - b.firstSeenAt < c.window
      then endpoint in t.pending && t.pending[endpoint] == b
           && DigestsOf(t.sent, endpoint) == DigestsOf(s.sent, endpoint)
      else endpoint !in t.pending
  {
    var keys := ExpiredKeys(c, s.pending, e.at);
    VisitsMembers(e.order, keys, endpoint);
    FlushedPending(s, e.order, keys, e.at);
    if endpoint !in keys {
      LoopSkips(s, e.order, e.at, endpoint);
    }
  }
}
