/** What the ingestion pipeline promises over every interleaving, failure and crash. */
module IngestionTheorems {
  import opened Prelude
  import opened Ingestion

  /** Every job refers to a committed request of its endpoint that was neither rejected, mocked nor a duplicate. */
  lemma JobsAreJustified(delivery: bool, events: seq<Event>, h: HookId)
    requires IsRun(delivery, events) && h in StateAfter(delivery, events).store.jobs
    ensures var store := StateAfter(delivery, events).store;
      && h in store.requests
      && store.jobs[h] == JobOf(store.requests[h].hook)
      && store.jobs[h].endpoint == store.requests[h].hook.endpoint
      && var r := store.requests[h];
        r.hook.mode.Open? && !r.hook.blocks && !r.duplicate && r.hook.target != "" && delivery
  {
    RunIsGood(delivery, events);
    assert JobGood(delivery, StateAfter(delivery, events), h);
  }

  /** An endpoint and a body have at most one job over the whole run, however often the cache forgets. */
  lemma OneJobPerKey(delivery: bool, events: seq<Event>, g: HookId, h: HookId)
    requires IsRun(delivery, events)
    requires var jobs := StateAfter(delivery, events).store.jobs;
      g in jobs && h in jobs && jobs[g].key.Some? && jobs[g].key == jobs[h].key
    ensures g == h
  {
    RunIsGood(delivery, events);
    assert SameKey(StateAfter(delivery, events).store.jobs[g], StateAfter(delivery, events).store.jobs[h]);
  }

  /** In terms of the webhooks: two requests of one endpoint with one body never both have jobs. */
  lemma OneJobPerBody(delivery: bool, events: seq<Event>, g: HookId, h: HookId)
    requires IsRun(delivery, events)
    requires var store := StateAfter(delivery, events).store;
      && g in store.jobs && h in store.jobs && g in store.requests && h in store.requests
      && store.requests[g].hook.endpoint == store.requests[h].hook.endpoint
      && store.requests[g].hook.bodyHash.Some?
      && store.requests[g].hook.bodyHash == store.requests[h].hook.bodyHash
    ensures g == h
  {
    JobsAreJustified(delivery, events, g);
    JobsAreJustified(delivery, events, h);
    OneJobPerKey(delivery, events, g, h);
  }

  /** What an answer says of the request that got it: blocked by its mode or by the policy, else a duplicate, else
      forwarded; none of them mocked. */
  lemma AnswersMean(delivery: bool, events: seq<Event>, h: HookId)
    requires IsRun(delivery, events) && h in StateAfter(delivery, events).answers
    ensures var s := StateAfter(delivery, events);
      s.answers[h] in {Forwarded, Duplicated, Blocked} ==>
        && h in s.store.requests && !s.store.requests[h].hook.mode.Mock?
        && var r := s.store.requests[h];
        && (s.answers[h].Blocked? <==> r.hook.mode.Block? || r.hook.blocks)
        && (s.answers[h].Duplicated? <==> !r.hook.mode.Block? && !r.hook.blocks && r.duplicate)
        && (s.answers[h].Forwarded? <==> r.hook.mode.Open? && !r.hook.blocks && !r.duplicate)
  {
    RunIsGood(delivery, events);
    assert AnswerGood(StateAfter(delivery, events), h);
  }

  /** The store with one request and, exactly when it needs one and its key has none yet, its job. */
  function Recorded(delivery: bool, store: Store, h: HookId, r: Request): Store {
    Store(store.requests[h := r],
          if NeedsJob(delivery, r) && !KeyTaken(store.jobs, KeyOf(r.hook)) then store.jobs[h := JobOf(r.hook)]
          else store.jobs)
  }

  lemma CommitRecords(delivery: bool, s: State, h: HookId)
    requires Good(delivery, s) && At(s, h, Queued)
    ensures h !in s.store.requests
    ensures Merged(s.store, h, s.flights[h]) == Recorded(delivery, s.store, h, s.flights[h].request)
  {
    assert FlightGood(delivery, s, h);
  }

  /** Request and job are committed together: a step leaves the store as it was, stores a mocked request, or records
      one new request whole. */
  lemma AllOrNothing(delivery: bool, events: seq<Event>, e: Event)
    requires IsRun(delivery, events) && Enabled(StateAfter(delivery, events), e)
    ensures var s, t := StateAfter(delivery, events), Apply(delivery, StateAfter(delivery, events), e);
      || t.store == s.store
      || (e.AnswerMock? && t.store == s.store.(requests := s.store.requests[e.h := Request(e.hook, false)]))
      || (&& e.Commit? && !e.outcome.Refused? && e.h !in s.store.requests
          && t.store == Recorded(delivery, s.store, e.h, s.flights[e.h].request))
  {
    RunIsGood(delivery, events);
    if e.Commit? {
      CommitRecords(delivery, StateAfter(delivery, events), e.h);
    }
  }

  /** A webhook answered FORWARD that has a target has its job, or shares the job of the same body. */
  lemma ForwardedHasJob(delivery: bool, events: seq<Event>, h: HookId)
    requires delivery && IsRun(delivery, events)
    requires h in StateAfter(delivery, events).answers && StateAfter(delivery, events).answers[h].Forwarded?
    ensures var store := StateAfter(delivery, events).store;
      && h in store.requests
      && (store.requests[h].hook.target != "" ==> JobPresent(store.jobs, h, store.requests[h].hook))
      && (store.requests[h].hook.target != "" ==> exists g | g in store.jobs ::
            g in store.requests && SameBody(store.requests[g].hook, store.requests[h].hook, g == h))
  {
    RunIsGood(delivery, events);
    var s := StateAfter(delivery, events);
    assert AnswerGood(s, h) && RequestGood(delivery, s, h);
    if s.store.requests[h].hook.target != "" {
      var k := KeyOf(s.store.requests[h].hook);
      var g := h;
      if h !in s.store.jobs {
        g :| g in s.store.jobs && k.Some? && s.store.jobs[g].key == k;
      }
      assert JobGood(delivery, s, g);
      assert SameBody(s.store.requests[g].hook, s.store.requests[h].hook, g == h);
    }
  }

  /** The same webhook, or one with a body, for the same endpoint. */
  predicate SameBody(v: Webhook, w: Webhook, same: bool) {
    same || (v.endpoint == w.endpoint && w.bodyHash.Some? && v.bodyHash == w.bodyHash)
  }

  /** The request has this key and calls for a job. */
  predicate CallsFor(delivery: bool, r: Request, k: Key) {
    KeyOf(r.hook) == Some(k) && NeedsJob(delivery, r)
  }

  /** A key has a job exactly when some committed request with that key called for one. */
  lemma JobsComeFromRequests(delivery: bool, events: seq<Event>, k: Key)
    requires IsRun(delivery, events)
    ensures var store := StateAfter(delivery, events).store;
      KeyTaken(store.jobs, Some(k))
      <==> exists g | g in store.requests :: CallsFor(delivery, store.requests[g], k)
  {
    RunIsGood(delivery, events);
    var s := StateAfter(delivery, events);
    if KeyTaken(s.store.jobs, Some(k)) {
      var g :| g in s.store.jobs && s.store.jobs[g].key == Some(k);
      assert JobGood(delivery, s, g);
    }
    if g :| g in s.store.requests && CallsFor(delivery, s.store.requests[g], k) {
      assert RequestGood(delivery, s, g);
      if g in s.store.jobs {
        assert JobGood(delivery, s, g);
      }
    }
  }

  /** An acknowledged duplicate is backed by a job exactly when some committed request with its body called for one:
      that a request with the body arrived, which is what the cache remembers, is not enough. */
  lemma DuplicateHasJobIff(delivery: bool, events: seq<Event>, h: HookId, k: Key)
    requires IsRun(delivery, events)
    requires var s := StateAfter(delivery, events);
      h in s.answers && s.answers[h].Duplicated? && h in s.store.requests && KeyOf(s.store.requests[h].hook) == Some(k)
    ensures var store := StateAfter(delivery, events).store;
      JobPresent(store.jobs, h, store.requests[h].hook)
      <==> exists g | g in store.requests && g != h :: CallsFor(delivery, store.requests[g], k)
  {
    RunIsGood(delivery, events);
    var s := StateAfter(delivery, events);
    assert AnswerGood(s, h);
    assert h in s.store.jobs ==> JobGood(delivery, s, h);
    JobsComeFromRequests(delivery, events, k);
  }

  // ----- Scripts

  function Extended(events: seq<Event>, e: Event): seq<Event> {
    events + [e]
  }

  lemma RunExtends(delivery: bool, events: seq<Event>, e: Event)
    requires IsRun(delivery, events) && Enabled(StateAfter(delivery, events), e)
    ensures IsRun(delivery, Extended(events, e))
    ensures StateAfter(delivery, Extended(events, e)) == Apply(delivery, StateAfter(delivery, events), e)
  {
    assert Extended(events, e)[..|events|] == events;
  }

  /** Without failures, and with nobody holding its key, a webhook goes through its five steps. */
  lemma CleanRun(delivery: bool, events: seq<Event>, h: HookId, w: Webhook, now: int) returns (all: seq<Event>)
    requires IsRun(delivery, events) && !w.mode.Mock?
    requires var s := StateAfter(delivery, events); New(s, h) && !KeyLocked(s, h, KeyOf(w))
    ensures IsRun(delivery, all) && events <= all && |all| == |events| + 5
    ensures var s, t := StateAfter(delivery, events), StateAfter(delivery, all);
      var r := Request(w, IsDuplicate(s.cache, w, now, Up));
      && t.store.requests == s.store.requests[h := r]
      && t.answers == s.answers[h := AnswerOf(r)]
      && t.cache == CacheAfter(s.cache, w, now, Up)
  {
    var s := StateAfter(delivery, events);
    all := events;
    var script := [Arrive(h, w, now, Up), Begin(h, true), Capture(h, true), Enqueue(h, true), Commit(h, Acknowledged)];
    RunExtends(delivery, all, script[0]);
    all := Extended(all, script[0]);
    RunExtends(delivery, all, script[1]);
    all := Extended(all, script[1]);
    RunExtends(delivery, all, script[2]);
    all := Extended(all, script[2]);
    assert KeyLocked(StateAfter(delivery, all), h, KeyOf(w)) ==> KeyLocked(s, h, KeyOf(w));
    RunExtends(delivery, all, script[3]);
    all := Extended(all, script[3]);
    RunExtends(delivery, all, script[4]);
    all := Extended(all, script[4]);
  }

  /** A body sent again after the cache has forgotten it is accepted afresh and then has a job. */
  lemma FreshBodyIsDelivered(events: seq<Event>, h: HookId, w: Webhook, now: int) returns (all: seq<Event>)
    requires IsRun(true, events) && w.mode.Open? && !w.blocks && w.target != ""
    requires var s := StateAfter(true, events);
      && New(s, h) && !KeyLocked(s, h, KeyOf(w))
      && (KeyOf(w).Some? ==> !Live(s.cache, KeyOf(w).value, now))
    ensures IsRun(true, all) && events <= all
    ensures var t := StateAfter(true, all); h in t.answers && t.answers[h].Forwarded? && JobPresent(t.store.jobs, h, w)
  {
    all := CleanRun(true, events, h, w, now);
    ForwardedHasJob(true, all, h);
  }

  /** The cache remembers a body whose transaction failed: the sender, told of the failure, sends it again within
      the minute, is answered DUPLICATE, and no job exists. */
  lemma LostToTheCache(w: Webhook, now: int, later: int) returns (all: seq<Event>)
    requires w.mode.Open? && !w.blocks && w.target != "" && w.bodyHash.Some? && now <= later < now + TTL
    ensures IsRun(true, all)
    ensures var t := StateAfter(true, all);
      && 0 in t.answers && t.answers[0].Failed?
      && 1 in t.answers && t.answers[1].Duplicated?
      && t.store.jobs == map[]
  {
    all := [];
    assert StateAfter(true, all) == INITIAL;
    RunExtends(true, all, Arrive(0, w, now, Up));
    all := Extended(all, Arrive(0, w, now, Up));
    RunExtends(true, all, Begin(0, false));
    all := Extended(all, Begin(0, false));
    assert StateAfter(true, all).store.requests == map[];
    all := CleanRun(true, all, 1, w, later);
    NoJobs(all);
  }

  /** With duplicates and failures only, no job. */
  lemma NoJobs(all: seq<Event>)
    requires IsRun(true, all)
    requires forall h | h in StateAfter(true, all).store.requests :: StateAfter(true, all).store.requests[h].duplicate
    ensures StateAfter(true, all).store.jobs == map[]
  {
    var s := StateAfter(true, all);
    RunIsGood(true, all);
    forall h
      ensures h !in s.store.jobs
    {
      assert h in s.store.jobs ==> JobGood(true, s, h);
    }
  }
}
