/** The ingestion of one webhook as the service runs it: straight through, with an early return on every failure. */
module IngestionService {
  import opened Prelude
  import opened Ingestion

  /** What goes wrong outside: the cache, the insertion of a mocked request, and each call to the database. */
  datatype Faults = Faults(valkey: Valkey, mockStored: bool, begun: bool, captured: bool, enqueued: bool,
                           commit: CommitOutcome)

  /** No webhook under way. */
  function Idle(store: Store, cache: Cache): State {
    State(store, cache, map[], map[])
  }

  /** The events lead from one state to the other. */
  predicate Plays(delivery: bool, s: State, events: seq<Event>, t: State)
    decreases |events|
  {
    if events == [] then s == t
    else Enabled(s, events[0]) && Plays(delivery, Apply(delivery, s, events[0]), events[1..], t)
  }

  lemma {:induction false} PlaysMore(delivery: bool, s: State, events: seq<Event>, t: State, e: Event)
    requires Plays(delivery, s, events, t) && Enabled(t, e)
    ensures Plays(delivery, s, events + [e], Apply(delivery, t, e))
    decreases |events|
  {
    if events == [] {
      assert events + [e] == [e];
    } else {
      PlaysMore(delivery, Apply(delivery, s, events[0]), events[1..], t, e);
      assert (events + [e])[1..] == events[1..] + [e];
    }
  }

  lemma {:induction false} PlaysKeepsGood(delivery: bool, s: State, events: seq<Event>, t: State)
    requires Good(delivery, s) && Plays(delivery, s, events, t)
    ensures Good(delivery, t)
    decreases |events|
  {
    if events != [] {
      StepKeepsGood(delivery, s, events[0]);
      PlaysKeepsGood(delivery, Apply(delivery, s, events[0]), events[1..], t);
    }
  }

  /** One webhook under way, and one webhook answered. */
  function Underway(store: Store, cache: Cache, h: HookId, r: Request, p: Phase, job: Option<Job>): State {
    State(store, cache, map[h := Flight(r, p, job)], map[])
  }

  function Answered(store: Store, cache: Cache, h: HookId, a: Answer): State {
    State(store, cache, map[], map[h := a])
  }

  lemma SoleFlight(h: HookId, f: Flight, g: Flight)
    ensures map[h := f][h := g] == map[h := g] && map[h := f] - {h} == map[]
  {
  }

  lemma BeginPlays(delivery: bool, s: State, events: seq<Event>, store: Store, cache: Cache, h: HookId, r: Request,
                   ok: bool)
    requires Plays(delivery, s, events, Underway(store, cache, h, r, Checked, None))
    ensures Plays(delivery, s, events + [Begin(h, ok)],
                  if ok then Underway(store, cache, h, r, Begun, None) else Answered(store, cache, h, Failed))
  {
    SoleFlight(h, Flight(r, Checked, None), Flight(r, Begun, None));
    PlaysMore(delivery, s, events, Underway(store, cache, h, r, Checked, None), Begin(h, ok));
  }

  lemma CapturePlays(delivery: bool, s: State, events: seq<Event>, store: Store, cache: Cache, h: HookId, r: Request,
                     ok: bool)
    requires Plays(delivery, s, events, Underway(store, cache, h, r, Begun, None))
    ensures Plays(delivery, s, events + [Capture(h, ok)],
                  if ok then Underway(store, cache, h, r, Captured, None) else Answered(store, cache, h, Failed))
  {
    SoleFlight(h, Flight(r, Begun, None), Flight(r, Captured, None));
    PlaysMore(delivery, s, events, Underway(store, cache, h, r, Begun, None), Capture(h, ok));
  }

  lemma EnqueuePlays(delivery: bool, s: State, events: seq<Event>, store: Store, cache: Cache, h: HookId, r: Request,
                     ok: bool)
    requires Plays(delivery, s, events, Underway(store, cache, h, r, Captured, None))
    ensures Plays(delivery, s, events + [Enqueue(h, ok)],
                  if !ok && NeedsJob(delivery, r) then Answered(store, cache, h, Failed)
                  else Underway(store, cache, h, r, Queued, Enqueued(delivery, store.jobs, r)))
  {
    SoleFlight(h, Flight(r, Captured, None), Flight(r, Queued, Enqueued(delivery, store.jobs, r)));
    PlaysMore(delivery, s, events, Underway(store, cache, h, r, Captured, None), Enqueue(h, ok));
  }

  lemma CommitPlays(delivery: bool, s: State, events: seq<Event>, store: Store, cache: Cache, h: HookId, r: Request,
                    job: Option<Job>, c: CommitOutcome)
    requires Plays(delivery, s, events, Underway(store, cache, h, r, Queued, job))
    ensures var merged := Merged(store, h, Flight(r, Queued, job));
      Plays(delivery, s, events + [Commit(h, c)],
            Answered(if c.Refused? then store else merged, cache, h, if c.Acknowledged? then AnswerOf(r) else Failed))
  {
    PlaysMore(delivery, s, events, Underway(store, cache, h, r, Queued, job), Commit(h, c));
  }

  /** Answers are the service's own business: they can be dropped. */
  lemma AnswersDrop(delivery: bool, s: State)
    requires Good(delivery, s)
    ensures Good(delivery, s.(answers := map[]))
  {
    var t := s.(answers := map[]);
    assert forall g | g in s.store.jobs :: JobGood(delivery, s, g) && JobGood(delivery, t, g);
    assert forall g | g in s.store.requests :: RequestGood(delivery, s, g) && RequestGood(delivery, t, g);
    assert forall g | g in s.flights :: FlightGood(delivery, s, g) && FlightGood(delivery, t, g);
  }

  // ----- what the service promises of one webhook

  /** The body was seen less than a minute ago, as far as the cache can tell. */
  predicate SeenBefore(cache: Cache, w: Webhook, now: int, valkey: Valkey) {
    w.bodyHash.Some? && valkey.Up?
    && Key(w.endpoint, w.bodyHash.value) in cache && now < cache[Key(w.endpoint, w.bodyHash.value)]
  }

  function ExpectedAnswer(w: Webhook, seen: bool): Answer {
    if w.mode.Block? || w.blocks then Blocked else if seen then Duplicated else Forwarded
  }

  /** Neither the endpoint nor the policy stops it, it is new, it has somewhere to go, and deliveries are made. */
  predicate WantsJob(delivery: bool, w: Webhook, seen: bool) {
    w.mode.Open? && !w.blocks && !seen && w.target != "" && delivery
  }

  /** No job yet for this body and endpoint. */
  predicate BodyIsFree(jobs: map<HookId, Job>, w: Webhook) {
    w.bodyHash.Some? ==> forall g | g in jobs :: jobs[g].key != Some(Key(w.endpoint, w.bodyHash.value))
  }

  /** Everything that a transaction needs goes well until it is committed. */
  predicate Commits(delivery: bool, w: Webhook, seen: bool, f: Faults) {
    f.begun && f.captured && (WantsJob(delivery, w, seen) ==> f.enqueued) && !f.commit.Refused?
  }

  /** The tables after one webhook that is not mocked. */
  predicate Stored(delivery: bool, before: Store, after: Store, h: HookId, w: Webhook, seen: bool, f: Faults) {
    if Commits(delivery, w, seen, f) then
      && after.requests == before.requests[h := Request(w, seen)]
      && after.jobs == if WantsJob(delivery, w, seen) && BodyIsFree(before.jobs, w)
                       then before.jobs[h := Job(w.endpoint, if w.bodyHash.Some?
                                                             then Some(Key(w.endpoint, w.bodyHash.value)) else None)]
                       else before.jobs
    else after == before
  }

  class Service {
    const delivery: bool
    var store: Store
    var cache: Cache

    ghost predicate Valid()
      reads this
    {
      Good(delivery, Idle(store, cache))
    }

    constructor (delivery: bool)
      ensures Valid() && this.delivery == delivery && store == Store(map[], map[])
    {
      this.delivery := delivery;
      store := Store(map[], map[]);
      cache := map[];
    }

    /** Whether the key was live; sets it if not. A failed call reports no duplicate. */
    method CheckAndSetIdempotency(k: Key, now: int, valkey: Valkey) returns (duplicate: bool)
      modifies this`cache
      ensures duplicate <==> valkey.Up? && Live(old(cache), k, now)
      ensures cache == if valkey.Down? then old(cache) else SetIfAbsent(old(cache), k, now)
      ensures duplicate ==> k in old(cache) && now < old(cache)[k]
      ensures !valkey.Down? && !(k in old(cache) && now < old(cache)[k]) ==>
        cache == old(cache)[k := now + 60_000_000_000]
      ensures valkey.Down? || (k in old(cache) && now < old(cache)[k]) ==> cache == old(cache)
    {
      if valkey.Down? {
        return false;
      }
      var absent := k !in cache || now >= cache[k];
      if absent {
        cache := cache[k := now + TTL];
      }
      return !absent && valkey.Up?;
    }

    /** One webhook, nothing else under way: the steps of the state machine, one after the other. */
    method ProcessWebhook(h: HookId, w: Webhook, now: int, f: Faults) returns (answer: Answer, ghost events: seq<Event>)
      requires Valid() && h !in store.requests
      modifies this`store, this`cache
      ensures Valid()
      ensures Plays(delivery, Idle(old(store), old(cache)), events, Answered(store, cache, h, answer))
      ensures answer.Failed? && !f.commit.LostReply? ==> store == old(store)
      ensures w.mode.Mock? ==> answer.Mocked? && store.jobs == old(store).jobs && cache == old(cache)
      ensures !w.mode.Mock? ==> var seen := SeenBefore(old(cache), w, now, f.valkey);
        && Stored(delivery, old(store), store, h, w, seen, f)
        && answer == if Commits(delivery, w, seen, f) && f.commit.Acknowledged? then ExpectedAnswer(w, seen) else Failed
      ensures w.blocks && !w.mode.Mock? ==> (answer.Blocked? || answer.Failed?) && h !in store.jobs
    {
      ghost var s := Idle(store, cache);
      assert h in store.jobs ==> JobGood(delivery, s, h);
      answer, events := Persist(h, w, now, f);
      PlaysKeepsGood(delivery, s, events, Answered(store, cache, h, answer));
      AnswersDrop(delivery, Answered(store, cache, h, answer));
    }

    method Persist(h: HookId, w: Webhook, now: int, f: Faults) returns (answer: Answer, ghost events: seq<Event>)
      requires h !in store.requests
      modifies this`store, this`cache
      ensures Plays(delivery, Idle(old(store), old(cache)), events, Answered(store, cache, h, answer))
      ensures answer.Failed? && !f.commit.LostReply? ==> store == old(store)
      ensures w.mode.Mock? ==> answer.Mocked? && store.jobs == old(store).jobs && cache == old(cache)
      ensures !w.mode.Mock? ==> var seen := SeenBefore(old(cache), w, now, f.valkey);
        && Stored(delivery, old(store), store, h, w, seen, f)
        && answer == if Commits(delivery, w, seen, f) && f.commit.Acknowledged? then ExpectedAnswer(w, seen) else Failed
    {
      ghost var s, t := Idle(store, cache), Idle(store, cache);
      events := [];
      if w.mode.Mock? {
        PlaysMore(delivery, s, events, t, AnswerMock(h, w, f.mockStored));
        events := events + [AnswerMock(h, w, f.mockStored)];
        if f.mockStored {
          store := store.(requests := store.requests[h := Request(w, false)]);
        }
        return Mocked, events;
      }
      var key := KeyOf(w);
      var isDuplicate := false;
      if key.Some? {
        isDuplicate := CheckAndSetIdempotency(key.value, now, f.valkey);
      }
      PlaysMore(delivery, s, events, t, Arrive(h, w, now, f.valkey));
      t := Apply(delivery, t, Arrive(h, w, now, f.valkey));
      events := events + [Arrive(h, w, now, f.valkey)];
      ghost var more: seq<Event>;
      answer, more := Transact(h, Request(w, isDuplicate), f, events, s);
      events := more;
    }

    /** The transaction: it works on its own view of the tables, which becomes the tables when it commits. */
    method Transact(h: HookId, r: Request, f: Faults, ghost before: seq<Event>, ghost s: State)
      returns (answer: Answer, ghost events: seq<Event>)
      requires !r.hook.mode.Mock?
      requires Plays(delivery, s, before, Underway(store, cache, h, r, Checked, None))
      modifies this`store
      ensures Plays(delivery, s, events, Answered(store, cache, h, answer))
      ensures answer.Failed? && !f.commit.LostReply? ==> store == old(store)
      ensures Stored(delivery, old(store), store, h, r.hook, r.duplicate, f)
      ensures answer == if Commits(delivery, r.hook, r.duplicate, f) && f.commit.Acknowledged?
                        then ExpectedAnswer(r.hook, r.duplicate) else Failed
    {
      var blocked := r.hook.mode.Block? || r.hook.blocks;
      var shouldCreate := !blocked && !r.hook.mode.Mock? && !r.duplicate && r.hook.target != "";
      BeginPlays(delivery, s, before, store, cache, h, r, f.begun);
      events := before + [Begin(h, f.begun)];
      if !f.begun {
        return Failed, events;
      }
      var tx := store;
      CapturePlays(delivery, s, events, store, cache, h, r, f.captured);
      events := events + [Capture(h, f.captured)];
      if !f.captured {
        return Failed, events;
      }
      tx := tx.(requests := tx.requests[h := r]);
      EnqueuePlays(delivery, s, events, store, cache, h, r, f.enqueued);
      events := events + [Enqueue(h, f.enqueued)];
      if shouldCreate && delivery {
        if !f.enqueued {
          return Failed, events;
        }
        if !KeyTaken(tx.jobs, KeyOf(r.hook)) {
          tx := tx.(jobs := tx.jobs[h := JobOf(r.hook)]);
        }
      }
      CommitPlays(delivery, s, events, store, cache, h, r, Enqueued(delivery, store.jobs, r), f.commit);
      events := events + [Commit(h, f.commit)];
      if !f.commit.Refused? {
        store := tx;
      }
      if !f.commit.Acknowledged? {
        return Failed, events;
      }
      if blocked {
        return Blocked, events;
      }
      if r.duplicate {
        return Duplicated, events;
      }
      return Forwarded, events;
    }
  }
}
