/** The persistence of an accepted webhook: the duplicate check in the cache, the job decision, and one transaction
    holding the captured request and its delivery job. Webhooks interleave, any step may fail, and a process may
    crash at any point. */
module Ingestion {
  import opened Prelude

  type HookId = nat

  /** How long the cache remembers a body. */
  const TTL: int := 60_000_000_000

  datatype Mode = Mock | Block | Open

  /** What the earlier stages know of a webhook. The hash is absent for an empty body; `blocks` is the verdict of the
      policy; the target is the configured one, or the endpoint's, or empty. */
  datatype Webhook = Webhook(endpoint: nat, mode: Mode, bodyHash: Option<string>, blocks: bool, target: string)

  datatype Key = Key(endpoint: nat, bodyHash: string)

  function KeyOf(w: Webhook): Option<Key> {
    if w.bodyHash.Some? then Some(Key(w.endpoint, w.bodyHash.value)) else None
  }

  datatype Request = Request(hook: Webhook, duplicate: bool)

  datatype Job = Job(endpoint: nat, key: Option<Key>)

  /** The committed tables. A job goes by the request it refers to. */
  datatype Store = Store(requests: map<HookId, Request>, jobs: map<HookId, Job>)

  type Cache = map<Key, int>

  predicate Rejected(w: Webhook) {
    w.mode.Block? || w.blocks
  }

  /** Whether the request calls for a delivery job; `delivery` says that the service is configured. */
  predicate NeedsJob(delivery: bool, r: Request) {
    !Rejected(r.hook) && !r.hook.mode.Mock? && !r.duplicate && r.hook.target != "" && delivery
  }

  function JobOf(w: Webhook): Job {
    Job(w.endpoint, KeyOf(w))
  }

  predicate Live(cache: Cache, k: Key, now: int) {
    k in cache && now < cache[k]
  }

  /** SETNX with an expiry. */
  function SetIfAbsent(cache: Cache, k: Key, now: int): Cache {
    if Live(cache, k, now) then cache else cache[k := now + TTL]
  }

  predicate KeyTaken(jobs: map<HookId, Job>, k: Option<Key>) {
    k.Some? && exists h | h in jobs :: jobs[h].key == k
  }

  // ----- The steps

  datatype Phase = Checked | Begun | Captured | Queued

  /** A webhook being processed, with the job its transaction has inserted, if any. */
  datatype Flight = Flight(request: Request, phase: Phase, job: Option<Job>)

  datatype Answer = Forwarded | Duplicated | Blocked | Mocked | Failed

  datatype State = State(store: Store, cache: Cache, flights: map<HookId, Flight>, answers: map<HookId, Answer>)

  /** Lost: the cache did its work but the reply never came. */
  datatype Valkey = Up | Down | Lost

  datatype CommitOutcome = Acknowledged | Refused | LostReply

  datatype Event =
    | Arrive(h: HookId, hook: Webhook, now: int, valkey: Valkey)
    | AnswerMock(h: HookId, hook: Webhook, stored: bool)
    | Begin(h: HookId, ok: bool)
    | Capture(h: HookId, ok: bool)
    | Enqueue(h: HookId, ok: bool)
    | Commit(h: HookId, outcome: CommitOutcome)
    | Crash(h: HookId)

  const INITIAL := State(Store(map[], map[]), map[], map[], map[])

  predicate New(s: State, h: HookId) {
    h !in s.flights && h !in s.store.requests && h !in s.answers
  }

  predicate At(s: State, h: HookId, p: Phase) {
    h in s.flights && s.flights[h].phase == p
  }

  /** Another open transaction has inserted a job with this key: the insertion waits for it. */
  predicate KeyLocked(s: State, h: HookId, k: Option<Key>) {
    k.Some? && exists g | g in s.flights && g != h :: s.flights[g].job.Some? && s.flights[g].job.value.key == k
  }

  predicate Enabled(s: State, e: Event) {
    match e
    case Arrive(h, w, _, _) => New(s, h) && !w.mode.Mock?
    case AnswerMock(h, w, _) => New(s, h) && w.mode.Mock?
    case Begin(h, _) => At(s, h, Checked)
    case Capture(h, _) => At(s, h, Begun)
    case Enqueue(h, _) => At(s, h, Captured) && !KeyLocked(s, h, KeyOf(s.flights[h].request.hook))
    case Commit(h, _) => At(s, h, Queued)
    case Crash(h) => h in s.flights
  }

  function IsDuplicate(cache: Cache, w: Webhook, now: int, valkey: Valkey): bool {
    var k := KeyOf(w);
    k.Some? && valkey.Up? && Live(cache, k.value, now)
  }

  function CacheAfter(cache: Cache, w: Webhook, now: int, valkey: Valkey): Cache {
    var k := KeyOf(w);
    if k.Some? && !valkey.Down? then SetIfAbsent(cache, k.value, now) else cache
  }

  function AnswerOf(r: Request): Answer {
    if Rejected(r.hook) then Blocked else if r.duplicate then Duplicated else Forwarded
  }

  /** The store with the rows of a committed transaction. */
  function Merged(store: Store, h: HookId, f: Flight): Store {
    Store(store.requests[h := f.request], if f.job.Some? then store.jobs[h := f.job.value] else store.jobs)
  }

  function Moved(s: State, h: HookId, f: Flight): State {
    s.(flights := s.flights[h := f])
  }

  function Ended(s: State, h: HookId, store: Store, a: Answer): State {
    s.(store := store, flights := s.flights - {h}, answers := s.answers[h := a])
  }

  /** What the insertion of the job leaves in the transaction. */
  function Enqueued(delivery: bool, jobs: map<HookId, Job>, r: Request): Option<Job> {
    if NeedsJob(delivery, r) && !KeyTaken(jobs, KeyOf(r.hook)) then Some(JobOf(r.hook)) else None
  }

  function Apply(delivery: bool, s: State, e: Event): State
    requires Enabled(s, e)
  {
    match e
    case Arrive(h, w, now, valkey) =>
      var f := Flight(Request(w, IsDuplicate(s.cache, w, now, valkey)), Checked, None);
      Moved(s, h, f).(cache := CacheAfter(s.cache, w, now, valkey))
    case AnswerMock(h, w, stored) =>
      Ended(s, h, if stored then s.store.(requests := s.store.requests[h := Request(w, false)]) else s.store, Mocked)
    case Begin(h, ok) =>
      if ok then Moved(s, h, s.flights[h].(phase := Begun)) else Ended(s, h, s.store, Failed)
    case Capture(h, ok) =>
      if ok then Moved(s, h, s.flights[h].(phase := Captured)) else Ended(s, h, s.store, Failed)
    case Enqueue(h, ok) =>
      var r := s.flights[h].request;
      if !ok && NeedsJob(delivery, r) then Ended(s, h, s.store, Failed)
      else Moved(s, h, Flight(r, Queued, Enqueued(delivery, s.store.jobs, r)))
    case Commit(h, outcome) =>
      var f := s.flights[h];
      (match outcome
       case Acknowledged => Ended(s, h, Merged(s.store, h, f), AnswerOf(f.request))
       case Refused => Ended(s, h, s.store, Failed)
       case LostReply => Ended(s, h, Merged(s.store, h, f), Failed))
    case Crash(h) => s.(flights := s.flights - {h})
  }

  predicate IsRun(delivery: bool, events: seq<Event>)
    decreases |events|, 0
  {
    events == [] ||
    var n := |events| - 1;
    IsRun(delivery, events[..n]) && Enabled(StateAfter(delivery, events[..n]), events[n])
  }

  function StateAfter(delivery: bool, events: seq<Event>): State
    requires IsRun(delivery, events)
    decreases |events|, 1
  {
    if events == [] then INITIAL
    else var n := |events| - 1; Apply(delivery, StateAfter(delivery, events[..n]), events[n])
  }

  // ----- What every step keeps

  /** The committed store has the job the request calls for: its own, or an earlier one with the same key. */
  predicate JobPresent(jobs: map<HookId, Job>, h: HookId, w: Webhook) {
    h in jobs || KeyTaken(jobs, KeyOf(w))
  }

  predicate JobGood(delivery: bool, s: State, h: HookId)
    requires h in s.store.jobs
  {
    && h in s.store.requests
    && NeedsJob(delivery, s.store.requests[h])
    && s.store.jobs[h] == JobOf(s.store.requests[h].hook)
  }

  predicate RequestGood(delivery: bool, s: State, h: HookId)
    requires h in s.store.requests
  {
    NeedsJob(delivery, s.store.requests[h]) ==> JobPresent(s.store.jobs, h, s.store.requests[h].hook)
  }

  predicate FlightGood(delivery: bool, s: State, h: HookId)
    requires h in s.flights
  {
    var f := s.flights[h];
    && h !in s.store.requests && h !in s.answers
    && !f.request.hook.mode.Mock?
    && (f.phase.Queued? ==> f.job == Enqueued(delivery, s.store.jobs, f.request))
    && (!f.phase.Queued? ==> f.job.None?)
  }

  predicate AnswerGood(s: State, h: HookId)
    requires h in s.answers
  {
    s.answers[h] in {Forwarded, Duplicated, Blocked} ==>
      && h in s.store.requests
      && !s.store.requests[h].hook.mode.Mock?
      && s.answers[h] == AnswerOf(s.store.requests[h])
  }

  predicate SameKey(j: Job, k: Job) {
    j.key.Some? && j.key == k.key
  }

  ghost predicate Good(delivery: bool, s: State) {
    && (forall h | h in s.store.jobs :: JobGood(delivery, s, h))
    && (forall h | h in s.store.requests :: RequestGood(delivery, s, h))
    && (forall h | h in s.flights :: FlightGood(delivery, s, h))
    && (forall h | h in s.answers :: AnswerGood(s, h))
    && (forall g, h | g in s.store.jobs && h in s.store.jobs && g != h :: !SameKey(s.store.jobs[g], s.store.jobs[h]))
    && (forall g, h | g in s.flights && h in s.flights && g != h && s.flights[g].job.Some? && s.flights[h].job.Some? ::
          !SameKey(s.flights[g].job.value, s.flights[h].job.value))
  }

  function Committed(s: State, h: HookId, a: Answer): State
    requires h in s.flights
  {
    Ended(s, h, Merged(s.store, h, s.flights[h]), a)
  }

  predicate MayCommit(s: State, h: HookId, a: Answer) {
    At(s, h, Queued) && a in {AnswerOf(s.flights[h].request), Failed}
  }

  /** The id is new to the tables, and no job of another row is touched. */
  lemma CommitIsNew(delivery: bool, s: State, h: HookId)
    requires Good(delivery, s) && At(s, h, Queued)
    ensures h !in s.store.requests && h !in s.store.jobs && h !in s.answers
    ensures s.flights[h].job == Enqueued(delivery, s.store.jobs, s.flights[h].request)
  {
    assert FlightGood(delivery, s, h);
    assert h in s.store.jobs ==> JobGood(delivery, s, h);
  }

  lemma CommitKeepsRequests(delivery: bool, s: State, h: HookId, a: Answer, g: HookId)
    requires Good(delivery, s) && MayCommit(s, h, a) && g in Committed(s, h, a).store.requests
    ensures RequestGood(delivery, Committed(s, h, a), g)
  {
    CommitIsNew(delivery, s, h);
    var r := Committed(s, h, a).store.requests[g];
    KeyStaysTaken(s.store.jobs, Committed(s, h, a).store.jobs, KeyOf(r.hook));
    assert g != h ==> RequestGood(delivery, s, g);
  }

  lemma CommitKeepsFlights(delivery: bool, s: State, h: HookId, a: Answer, g: HookId)
    requires Good(delivery, s) && MayCommit(s, h, a) && g in Committed(s, h, a).flights
    ensures FlightGood(delivery, Committed(s, h, a), g)
  {
    CommitIsNew(delivery, s, h);
    assert FlightGood(delivery, s, g);
    OtherJobsSame(s, h, g);
  }

  lemma CommitKeepsJobs(delivery: bool, s: State, h: HookId, a: Answer, g: HookId)
    requires Good(delivery, s) && MayCommit(s, h, a) && g in Committed(s, h, a).store.jobs
    ensures JobGood(delivery, Committed(s, h, a), g)
  {
    CommitIsNew(delivery, s, h);
    assert g != h ==> JobGood(delivery, s, g);
  }

  lemma CommitKeepsKeys(delivery: bool, s: State, h: HookId, a: Answer, g: HookId, k: HookId)
    requires Good(delivery, s) && MayCommit(s, h, a) && g != k
    requires g in Committed(s, h, a).store.jobs && k in Committed(s, h, a).store.jobs
    ensures !SameKey(Committed(s, h, a).store.jobs[g], Committed(s, h, a).store.jobs[k])
  {
    CommitIsNew(delivery, s, h);
  }

  lemma CommitKeepsAnswers(delivery: bool, s: State, h: HookId, a: Answer, g: HookId)
    requires Good(delivery, s) && MayCommit(s, h, a) && g in Committed(s, h, a).answers
    ensures AnswerGood(Committed(s, h, a), g)
  {
    CommitIsNew(delivery, s, h);
    assert FlightGood(delivery, s, h);
    assert g != h ==> AnswerGood(s, g);
  }

  lemma CommitKeepsGood(delivery: bool, s: State, h: HookId, a: Answer)
    requires Good(delivery, s) && MayCommit(s, h, a)
    ensures Good(delivery, Committed(s, h, a))
  {
    var t := Committed(s, h, a);
    forall g | g in t.store.jobs ensures JobGood(delivery, t, g) {
      CommitKeepsJobs(delivery, s, h, a, g);
    }
    forall g | g in t.store.requests ensures RequestGood(delivery, t, g) {
      CommitKeepsRequests(delivery, s, h, a, g);
    }
    forall g | g in t.flights ensures FlightGood(delivery, t, g) {
      CommitKeepsFlights(delivery, s, h, a, g);
    }
    forall g | g in t.answers ensures AnswerGood(t, g) {
      CommitKeepsAnswers(delivery, s, h, a, g);
    }
    forall g, k | g in t.store.jobs && k in t.store.jobs && g != k
      ensures !SameKey(t.store.jobs[g], t.store.jobs[k])
    {
      CommitKeepsKeys(delivery, s, h, a, g, k);
    }
  }

  lemma KeyStaysTaken(before: map<HookId, Job>, after: map<HookId, Job>, k: Option<Key>)
    requires forall h | h in before :: h in after && after[h] == before[h]
    ensures KeyTaken(before, k) ==> KeyTaken(after, k)
  {
  }

  /** A commit does not change what another queued transaction should hold: its key is a different one. */
  lemma OtherJobsSame(s: State, h: HookId, g: HookId)
    requires h in s.flights && g in s.flights && g != h
    requires s.flights[g].job.Some? && s.flights[h].job.Some? ==>
      !SameKey(s.flights[g].job.value, s.flights[h].job.value)
    requires s.flights[g].job.Some? ==> s.flights[g].job.value == JobOf(s.flights[g].request.hook)
    requires h !in s.store.jobs
    ensures var k := KeyOf(s.flights[g].request.hook);
      var after := Merged(s.store, h, s.flights[h]).jobs;
      && (KeyTaken(s.store.jobs, k) ==> KeyTaken(after, k))
      && (s.flights[g].job.Some? ==> (KeyTaken(s.store.jobs, k) <==> KeyTaken(after, k)))
  {
    KeyStaysTaken(s.store.jobs, Merged(s.store, h, s.flights[h]).jobs, KeyOf(s.flights[g].request.hook));
  }

  /** Steps that leave the store alone. */
  lemma FlightMoveKeepsGood(delivery: bool, s: State, h: HookId, f: Flight)
    requires Good(delivery, s) && h !in s.store.requests && h !in s.answers && !f.request.hook.mode.Mock?
    requires f.phase.Queued? ==> f.job == Enqueued(delivery, s.store.jobs, f.request)
    requires !f.phase.Queued? ==> f.job.None?
    requires f.job.Some? ==> !KeyLocked(s, h, f.job.value.key)
    ensures Good(delivery, Moved(s, h, f))
  {
    var t := Moved(s, h, f);
    assert forall g | g in s.store.jobs :: JobGood(delivery, s, g) && JobGood(delivery, t, g);
    assert forall g | g in s.store.requests :: RequestGood(delivery, s, g) && RequestGood(delivery, t, g);
    assert forall g | g in s.answers :: AnswerGood(s, g) && AnswerGood(t, g);
    forall g | g in t.flights
      ensures FlightGood(delivery, t, g)
    {
      if g != h {
        assert FlightGood(delivery, s, g);
      }
    }
  }

  lemma EndKeepsGood(delivery: bool, s: State, h: HookId, a: Answer)
    requires Good(delivery, s) && (a.Failed? || a.Mocked?)
    ensures Good(delivery, Ended(s, h, s.store, a))
  {
    var t := Ended(s, h, s.store, a);
    assert forall g | g in s.store.jobs :: JobGood(delivery, s, g) && JobGood(delivery, t, g);
    assert forall g | g in s.store.requests :: RequestGood(delivery, s, g) && RequestGood(delivery, t, g);
    forall g | g in t.flights
      ensures FlightGood(delivery, t, g)
    {
      assert FlightGood(delivery, s, g);
    }
    forall g | g in t.answers
      ensures AnswerGood(t, g)
    {
      if g != h {
        assert AnswerGood(s, g);
      }
    }
  }

  lemma CrashKeepsGood(delivery: bool, s: State, h: HookId)
    requires Good(delivery, s)
    ensures Good(delivery, s.(flights := s.flights - {h}))
  {
    var t := s.(flights := s.flights - {h});
    assert forall g | g in s.store.jobs :: JobGood(delivery, s, g) && JobGood(delivery, t, g);
    assert forall g | g in s.store.requests :: RequestGood(delivery, s, g) && RequestGood(delivery, t, g);
    assert forall g | g in s.answers :: AnswerGood(s, g) && AnswerGood(t, g);
    assert forall g | g in t.flights :: FlightGood(delivery, s, g) && FlightGood(delivery, t, g);
  }

  lemma MockKeepsGood(delivery: bool, s: State, h: HookId, w: Webhook)
    requires Good(delivery, s) && New(s, h) && w.mode.Mock?
    ensures Good(delivery, Ended(s, h, s.store.(requests := s.store.requests[h := Request(w, false)]), Mocked))
  {
    var t := Ended(s, h, s.store.(requests := s.store.requests[h := Request(w, false)]), Mocked);
    assert forall g | g in s.store.jobs :: JobGood(delivery, s, g) && JobGood(delivery, t, g);
    forall g | g in t.store.requests
      ensures RequestGood(delivery, t, g)
    {
      if g != h {
        assert RequestGood(delivery, s, g);
      }
    }
    forall g | g in t.answers
      ensures AnswerGood(t, g)
    {
      if g != h {
        assert AnswerGood(s, g);
      }
    }
    assert forall g | g in t.flights :: FlightGood(delivery, s, g) && FlightGood(delivery, t, g);
  }

  lemma CacheIsFree(delivery: bool, s: State, cache: Cache)
    requires Good(delivery, s)
    ensures Good(delivery, s.(cache := cache))
  {
    var t := s.(cache := cache);
    assert forall g | g in s.store.jobs :: JobGood(delivery, s, g) && JobGood(delivery, t, g);
    assert forall g | g in s.store.requests :: RequestGood(delivery, s, g) && RequestGood(delivery, t, g);
    assert forall g | g in s.answers :: AnswerGood(s, g) && AnswerGood(t, g);
    assert forall g | g in t.flights :: FlightGood(delivery, s, g) && FlightGood(delivery, t, g);
  }

  lemma StepKeepsGood(delivery: bool, s: State, e: Event)
    requires Good(delivery, s) && Enabled(s, e)
    ensures Good(delivery, Apply(delivery, s, e))
  {
    var h := e.h;
    assert h in s.flights ==> FlightGood(delivery, s, h);
    match e
    case Arrive(_, w, now, valkey) =>
      var f := Flight(Request(w, IsDuplicate(s.cache, w, now, valkey)), Checked, None);
      FlightMoveKeepsGood(delivery, s, h, f);
      CacheIsFree(delivery, Moved(s, h, f), CacheAfter(s.cache, w, now, valkey));
    case AnswerMock(_, w, stored) =>
      if stored {
        MockKeepsGood(delivery, s, h, w);
      } else {
        EndKeepsGood(delivery, s, h, Mocked);
      }
    case Begin(_, ok) =>
      if ok {
        FlightMoveKeepsGood(delivery, s, h, s.flights[h].(phase := Begun));
      } else {
        EndKeepsGood(delivery, s, h, Failed);
      }
    case Capture(_, ok) =>
      if ok {
        FlightMoveKeepsGood(delivery, s, h, s.flights[h].(phase := Captured));
      } else {
        EndKeepsGood(delivery, s, h, Failed);
      }
    case Enqueue(_, ok) =>
      var r := s.flights[h].request;
      if !ok && NeedsJob(delivery, r) {
        EndKeepsGood(delivery, s, h, Failed);
      } else {
        FlightMoveKeepsGood(delivery, s, h, Flight(r, Queued, Enqueued(delivery, s.store.jobs, r)));
      }
    case Commit(_, outcome) =>
      if outcome.Refused? {
        EndKeepsGood(delivery, s, h, Failed);
      } else {
        CommitKeepsGood(delivery, s, h, if outcome.Acknowledged? then AnswerOf(s.flights[h].request) else Failed);
      }
    case Crash(_) =>
      CrashKeepsGood(delivery, s, h);
  }

  lemma {:induction false} RunIsGood(delivery: bool, events: seq<Event>)
    requires IsRun(delivery, events)
    ensures Good(delivery, StateAfter(delivery, events))
  {
    if events != [] {
      var n := |events| - 1;
      RunIsGood(delivery, events[..n]);
      StepKeepsGood(delivery, StateAfter(delivery, events[..n]), events[n]);
    }
  }
}
