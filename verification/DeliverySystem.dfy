/** The delivery queue as a step system: the poller, the workers, crashes, lease recovery and manual
    replays act on the table in any order. A flight is a claimed job snapshot somebody still holds,
    from the claim until it is settled, refused or abandoned. */
module DeliverySystem {
  import opened Prelude
  import opened DeliveryState
  import opened RetryPolicy
  import opened DeliveryTable

  const DAY: int := 86_400_000_000_000

  /** What one attempt runs into: the URL guard, the network, or an HTTP answer. */
  datatype Answer = UrlBlocked | NetworkError | Response(statusCode: int, header: RetryAfter)

  predicate Accepted(a: Answer) {
    a.Response? && Succeeds(a.statusCode, false, false)
  }

  predicate WorthRetrying(a: Answer) {
    a.NetworkError? || (a.Response? && Transient(a.statusCode, false))
  }

  // ----- one attempt's effect on the row

  function Evaluate(snapshot: Job, a: Answer, c: Chance): EvaluationResult {
    var opts := DEFAULT_RETRY_OPTIONS.(maxRetries := snapshot.maxRetries);
    match a
    case UrlBlocked => DeadLettered(ActDeadLetter)
    case NetworkError => EvaluateResponse(0, true, snapshot.attempts + 1, NoHeaders, opts, c)
    case Response(code, header) => EvaluateResponse(code, false, snapshot.attempts + 1, header, opts, c)
  }

  /** The decision uses the snapshot taken at claim time; the statement hits whatever row is there now. */
  function SettleRow(row: Job, snapshot: Job, a: Answer, c: Chance, now: int): Job {
    var eval := Evaluate(snapshot, a, c);
    if eval.nextState.Delivered? then CompleteRow(row, now)
    else FailRow(row, eval.nextState, now + (if eval.nextState.DeadLetter? then DAY else eval.backoffDelay), now)
  }

  lemma EvaluateOutcome(snapshot: Job, a: Answer, c: Chance)
    ensures var next := Evaluate(snapshot, a, c).nextState;
      next == (if Accepted(a) then Delivered
               else if WorthRetrying(a) && snapshot.attempts + 1 < EffectiveMax(snapshot.maxRetries) then RetryWait
               else DeadLetter)
  {
    var opts := DEFAULT_RETRY_OPTIONS.(maxRetries := snapshot.maxRetries);
    match a
    case UrlBlocked =>
    case NetworkError => DecisionOutcome(0, true, snapshot.attempts + 1, NoHeaders, opts, c);
    case Response(code, header) => DecisionOutcome(code, false, snapshot.attempts + 1, header, opts, c);
  }

  /** How long a job waits that is to be retried: as a rate limit asks, else by the backoff of the attempt just made. */
  lemma JobDelay(snapshot: Job, a: Answer, c: Chance)
    requires Evaluate(snapshot, a, c).nextState.RetryWait?
    ensures Evaluate(snapshot, a, c).backoffDelay
         == if a.Response? && a.statusCode == 429
            then ParseRetryAfter(a.header, snapshot.attempts + 1, 100_000_000, 30_000_000_000, c)
            else CalculateBackoff(snapshot.attempts + 1, 100_000_000, 30_000_000_000, c)
  {
  }

  // ----- state

  datatype FlightId = FlightId(job: JobId, serial: nat)

  datatype Stage = InHand | Submitted | Counted(n: nat) | Recorded

  datatype Flight = Flight(snapshot: Job, stage: Stage)

  /** What has happened to a job so far; `log` holds the attempt numbers recorded in delivery_attempts. */
  datatype History = History(
    firstMax: int, claims: nat, recoveries: nat, refusals: nat, replays: nat, replaysOfClaimed: nat,
    answers: seq<Answer>, log: seq<nat>)

  datatype State = State(now: int, rows: Rows, history: map<JobId, History>, flights: map<FlightId, Flight>)

  datatype Event =
    | Tick(t: int)
    | Create(id: JobId, endpoint: nat, request: nat, key: Option<string>, maxRetries: int)
    | Claim(worker: WorkerId, limit: nat, batch: set<JobId>)
    | Accept(f: FlightId)
    | Refuse(f: FlightId)
    | Count(f: FlightId)
    | Record(f: FlightId)
    | Settle(f: FlightId, answer: Answer, chance: Chance)
    | Abandon(f: FlightId)
    | Crash
    | Recover
    | Replay(id: JobId)

  predicate Enabled(s: State, e: Event) {
    match e
    case Tick(t) => t >= s.now
    case Create(id, _, _, _, _) => id !in s.rows
    case Claim(_, limit, batch) => ClaimBatch(s.rows, s.now, limit, batch)
    case Accept(f) => f in s.flights && s.flights[f].stage.InHand?
    case Refuse(f) => f in s.flights && s.flights[f].stage.InHand?
    case Count(f) => f in s.flights && s.flights[f].stage.Submitted?
    case Record(f) => f in s.flights && s.flights[f].stage.Counted?
    case Settle(f, _, _) => f in s.flights && s.flights[f].stage.Recorded?
    case Abandon(f) => f in s.flights
    case Crash => true
    case Recover => true
    case Replay(id) => id in s.rows
  }

  function Noted(history: map<JobId, History>, id: JobId, note: History -> History): map<JobId, History> {
    if id in history then history[id := note(history[id])] else history
  }

  function LogOf(s: State, id: JobId): seq<nat> {
    if id in s.history then s.history[id].log else []
  }

  function NextSerial(s: State, id: JobId): nat {
    if id in s.history then s.history[id].claims + 1 else 0
  }

  function Launched(s: State, batch: set<JobId>, worker: WorkerId): map<FlightId, Flight> {
    var ids := set id | id in batch :: FlightId(id, NextSerial(s, id));
    map f | f in ids && f.job in s.rows :: Flight(ClaimRow(s.rows[f.job], worker, s.now), InHand)
  }

  function AtStage(s: State, f: FlightId, stage: Stage): State
    requires f in s.flights
  {
    s.(flights := s.flights[f := s.flights[f].(stage := stage)])
  }

  function Landed(s: State, f: FlightId): State {
    s.(flights := s.flights - {f})
  }

  function Apply(s: State, e: Event): State
    requires Enabled(s, e)
  {
    match e
    case Tick(t) => s.(now := t)
    case Create(id, endpoint, request, key, maxRetries) =>
      if KeyTaken(s.rows, endpoint, key) then s
      else s.(rows := s.rows[id := NewRow(endpoint, request, key, maxRetries, s.now)],
              history := s.history[id := History(maxRetries, 0, 0, 0, 0, 0, [], [])])
    case Claim(worker, _, batch) =>
      s.(rows := ClaimAll(s.rows, batch, worker, s.now),
         history := map id | id in s.history ::
           if id in batch then s.history[id].(claims := s.history[id].claims + 1) else s.history[id],
         flights := s.flights + Launched(s, batch, worker))
    case Accept(f) => AtStage(s, f, Submitted)
    case Refuse(f) =>
      Landed(s, f).(rows := Updated(s.rows, f.job, j => RequeueRow(j, s.now)),
                    history := Noted(s.history, f.job, (h: History) => h.(refusals := h.refusals + 1)))
    case Count(f) => AtStage(s, f, Counted(|LogOf(s, f.job)|))
    case Record(f) =>
      AtStage(s, f, Recorded).(
        history := Noted(s.history, f.job, (h: History) => h.(log := h.log + [s.flights[f].stage.n + 1])))
    case Settle(f, answer, c) =>
      Landed(s, f).(rows := Updated(s.rows, f.job, j => SettleRow(j, s.flights[f].snapshot, answer, c, s.now)),
                    history := Noted(s.history, f.job, (h: History) => h.(answers := h.answers + [answer])))
    case Abandon(f) => Landed(s, f)
    case Crash => s.(flights := map[])
    case Recover =>
      s.(rows := RecoverAll(s.rows, s.now),
         history := map id | id in s.history ::
           if id in s.rows && Stale(s.rows[id], s.now)
           then s.history[id].(recoveries := s.history[id].recoveries + 1) else s.history[id])
    case Replay(id) =>
      s.(rows := Updated(s.rows, id, j => RequeueRow(j, s.now)),
         history := Noted(s.history, id, (h: History) =>
           h.(replays := h.replays + 1,
              replaysOfClaimed := h.replaysOfClaimed + (if s.rows[id].status.Processing? then 1 else 0))))
  }

  // ----- the two operating hypotheses

  /** Every execution ends within its lease, and nobody replays a job while it is in flight. */
  predicate Disciplined(s: State, e: Event) {
    match e
    case Tick(t) => forall f | f in s.flights :: WithinLease(s.flights[f], t)
    case Replay(id) => forall f | f in s.flights :: f.job != id
    case _ => true
  }

  predicate WithinLease(fl: Flight, t: int) {
    fl.snapshot.lockedAt.Some? && t <= fl.snapshot.lockedAt.value + LEASE
  }

  // ----- what every reachable state satisfies

  /** All these answers were retried with this budget. */
  predicate AllRetried(answers: seq<Answer>, max: int) {
    |answers| < max && forall i | 0 <= i < |answers| :: WorthRetrying(answers[i])
  }

  /** The status of a never requeued job as a function of the upstream answers it got. */
  predicate Outcome(status: DeliveryState, answers: seq<Answer>, max: int) {
    if IsTerminal(status) then
      && answers != []
      && var n := |answers| - 1;
      && AllRetried(answers[..n], max)
      && !(WorthRetrying(answers[n]) && n + 1 < max)
      && (status.Delivered? <==> Accepted(answers[n]))
    else
      AllRetried(answers, max)
  }

  /** Locked exactly while PROCESSING. */
  predicate LocksMirror(j: Job) {
    && (j.status.Processing? <==> j.lockedAt.Some?)
    && (j.lockedAt.Some? <==> j.lockedBy.Some?)
    && !j.status.NotConfigured?
  }

  predicate LocksOk(j: Job) {
    LocksMirror(j) && (j.completedAt.Some? <==> IsTerminal(j.status))
  }

  predicate BudgetOk(j: Job, h: History) {
    && 0 <= j.attempts <= EffectiveMax(j.maxRetries)
    && (!IsTerminal(j.status) ==> j.attempts < EffectiveMax(j.maxRetries))
    && EffectiveMax(j.maxRetries) <= EffectiveMax(h.firstMax) + 3 * (h.replays + h.refusals)
  }

  predicate CountsOk(j: Job, h: History) {
    && j.attempts == |h.answers| <= |h.log|
    && h.replaysOfClaimed <= h.replays
    && h.claims == j.attempts + h.recoveries + h.refusals + h.replaysOfClaimed + (if j.status.Processing? then 1 else 0)
    && (forall i | 0 <= i < |h.log| :: h.log[i] == i + 1)
  }

  /** Requeued or not: the last answer decided how a finished job ended, and a retryable fault only ends
      one whose budget is spent. */
  predicate VerdictOk(j: Job, h: History) {
    IsTerminal(j.status) ==>
      && h.answers != []
      && var last := h.answers[|h.answers| - 1];
      && (j.status.Delivered? <==> Accepted(last))
      && (WorthRetrying(last) ==> j.attempts == EffectiveMax(j.maxRetries))
  }

  predicate OutcomeOk(j: Job, h: History) {
    h.replays == 0 && h.refusals == 0 ==>
      j.maxRetries == h.firstMax && Outcome(j.status, h.answers, EffectiveMax(h.firstMax))
  }

  predicate JobOk(j: Job, h: History) {
    LocksOk(j) && BudgetOk(j, h) && CountsOk(j, h) && VerdictOk(j, h) && OutcomeOk(j, h)
  }

  /** A flight carries the row exactly as it stands and the serial of the job's latest claim. */
  predicate FlightOk(s: State, f: FlightId)
    requires f in s.flights
  {
    var fl := s.flights[f];
    && f.job in s.rows && f.job in s.history
    && fl.snapshot == s.rows[f.job] && fl.snapshot.status.Processing?
    && f.serial == s.history[f.job].claims
    && WithinLease(fl, s.now)
    && (fl.stage.Counted? ==> fl.stage.n == |s.history[f.job].log|)
    && (fl.stage.Recorded? ==> |s.history[f.job].answers| < |s.history[f.job].log|)
  }

  predicate Good(s: State) {
    && s.history.Keys == s.rows.Keys
    && (forall id | id in s.rows :: JobOk(s.rows[id], s.history[id]))
    && (forall f | f in s.flights :: FlightOk(s, f))
  }

  /** Exclusivity: a job has at most one flight. */
  lemma OneFlightPerJob(s: State)
    requires Good(s)
    ensures forall f, g | f in s.flights && g in s.flights && f.job == g.job :: f == g
  {
    forall f, g | f in s.flights && g in s.flights && f.job == g.job ensures f == g {
      assert FlightOk(s, f) && FlightOk(s, g);
    }
  }

  lemma CreateKeepsGood(s: State, e: Event)
    requires Good(s) && e.Create? && Enabled(s, e)
    ensures Good(Apply(s, e))
  {
  }

  lemma ClaimKeepsJob(j: Job, h: History, worker: WorkerId, now: int)
    requires JobOk(j, h) && Due(j, now)
    ensures JobOk(ClaimRow(j, worker, now), h.(claims := h.claims + 1))
  {
  }

  lemma ClaimOfJob(s: State, e: Event, id: JobId)
    requires e.Claim? && Enabled(s, e) && id in s.rows && id in s.history
    ensures var s' := Apply(s, e);
      && id in s'.rows && id in s'.history
      && (if id in e.batch
          then Due(s.rows[id], s.now) && s'.rows[id] == ClaimRow(s.rows[id], e.worker, s.now)
            && s'.history[id] == s.history[id].(claims := s.history[id].claims + 1)
          else s'.rows[id] == s.rows[id] && s'.history[id] == s.history[id])
  {
    assert id in e.batch ==> id in DueJobs(s.rows, s.now);
  }

  lemma ClaimKeepsJobs(s: State, e: Event)
    requires Good(s) && e.Claim? && Enabled(s, e)
    ensures var s' := Apply(s, e); forall id | id in s'.rows :: JobOk(s'.rows[id], s'.history[id])
  {
    forall id | id in s.rows ensures JobOk(Apply(s, e).rows[id], Apply(s, e).history[id]) {
      assert JobOk(s.rows[id], s.history[id]);
      ClaimOfJob(s, e, id);
      if id in e.batch {
        ClaimKeepsJob(s.rows[id], s.history[id], e.worker, s.now);
      }
    }
  }

  lemma LaunchedFlight(s: State, batch: set<JobId>, worker: WorkerId, f: FlightId)
    requires f in Launched(s, batch, worker)
    ensures f.job in batch && f.job in s.rows && f.serial == NextSerial(s, f.job)
    ensures Launched(s, batch, worker)[f] == Flight(ClaimRow(s.rows[f.job], worker, s.now), InHand)
  {
  }

  lemma ClaimKeepsGood(s: State, e: Event)
    requires Good(s) && e.Claim? && Enabled(s, e)
    ensures Good(Apply(s, e))
  {
    ClaimKeepsJobs(s, e);
    var s' := Apply(s, e);
    forall f | f in s'.flights ensures FlightOk(s', f) {
      if f in Launched(s, e.batch, e.worker) {
        LaunchedFlight(s, e.batch, e.worker, f);
      } else {
        assert FlightOk(s, f);
      }
    }
  }

  /** Steps that leave every row and history alone. */
  lemma StageKeepsGood(s: State, e: Event)
    requires Good(s) && (e.Accept? || e.Count? || e.Abandon? || e.Crash? || e.Tick?)
    requires Enabled(s, e) && Disciplined(s, e)
    ensures Good(Apply(s, e))
  {
    var s' := Apply(s, e);
    forall f | f in s'.flights ensures FlightOk(s', f) {
      assert FlightOk(s, f);
      StageKeepsFlight(s, e, f);
    }
  }

  lemma StageKeepsFlight(s: State, e: Event, f: FlightId)
    requires f in s.flights && FlightOk(s, f) && (e.Accept? || e.Count? || e.Abandon? || e.Crash? || e.Tick?)
    requires Enabled(s, e) && Disciplined(s, e)
    ensures f in Apply(s, e).flights ==> FlightOk(Apply(s, e), f)
  {
  }

  /** A step that rewrites one job, keeps it well-formed and leaves other jobs' flights alone. */
  lemma OneJobRewritten(s: State, s': State, id: JobId, j: Job, h: History)
    requires Good(s) && id in s.rows && JobOk(j, h)
    requires s'.now == s.now && s'.rows == s.rows[id := j] && s'.history == s.history[id := h]
    requires forall f | f in s'.flights ::
      if f.job == id then FlightOk(s', f) else f in s.flights && s'.flights[f] == s.flights[f]
    ensures Good(s')
  {
    forall other | other in s'.rows ensures JobOk(s'.rows[other], s'.history[other]) {
      assert other != id ==> JobOk(s.rows[other], s.history[other]);
    }
    forall f | f in s'.flights ensures FlightOk(s', f) {
      assert f.job != id ==> FlightOk(s, f);
    }
  }

  lemma RecordKeepsJob(j: Job, h: History)
    requires JobOk(j, h)
    ensures JobOk(j, h.(log := h.log + [|h.log| + 1]))
  {
  }

  /** One more attempt number in the log, and the flight one stage on. */
  predicate Recording(s: State, s': State, f: FlightId)
    requires f in s.flights && f.job in s.history
  {
    var h := s.history[f.job];
    && s'.rows == s.rows && s'.now == s.now
    && s'.history == s.history[f.job := h.(log := h.log + [|h.log| + 1])]
    && s'.flights == s.flights[f := s.flights[f].(stage := Recorded)]
  }

  lemma RecordRecords(s: State, e: Event)
    requires e.Record? && Enabled(s, e) && FlightOk(s, e.f)
    ensures Recording(s, Apply(s, e), e.f)
  {
  }

  lemma RecordingKeepsFlight(s: State, s': State, f: FlightId)
    requires f in s.flights && FlightOk(s, f) && JobOk(s.rows[f.job], s.history[f.job]) && Recording(s, s', f)
    ensures FlightOk(s', f)
  {
  }

  lemma RecordingKeepsGood(s: State, s': State, f: FlightId)
    requires Good(s) && f in s.flights && FlightOk(s, f) && Recording(s, s', f)
    ensures Good(s')
  {
    var id := f.job;
    assert JobOk(s.rows[id], s.history[id]);
    OneFlightPerJob(s);
    RecordingKeepsFlight(s, s', f);
    RecordKeepsJob(s.rows[id], s.history[id]);
    OneJobRewritten(s, s', id, s.rows[id], s'.history[id]);
  }

  lemma RecordKeepsGood(s: State, e: Event)
    requires Good(s) && e.Record? && Enabled(s, e)
    ensures Good(Apply(s, e))
  {
    assert FlightOk(s, e.f);
    RecordRecords(s, e);
    RecordingKeepsGood(s, Apply(s, e), e.f);
  }

  lemma RequeueKeepsJob(j: Job, h: History, now: int, replay: bool)
    requires JobOk(j, h) && (!replay ==> j.status.Processing?)
    ensures JobOk(RequeueRow(j, now),
      if replay
      then h.(replays := h.replays + 1,
              replaysOfClaimed := h.replaysOfClaimed + (if j.status.Processing? then 1 else 0))
      else h.(refusals := h.refusals + 1))
  {
  }

  lemma RefuseKeepsGood(s: State, e: Event)
    requires Good(s) && e.Refuse? && Enabled(s, e)
    ensures Good(Apply(s, e))
  {
    OneFlightPerJob(s);
    assert FlightOk(s, e.f);
    var s', id := Apply(s, e), e.f.job;
    RequeueKeepsJob(s.rows[id], s.history[id], s.now, false);
    OneJobRewritten(s, s', id, s'.rows[id], s'.history[id]);
  }

  lemma ReplayKeepsGood(s: State, e: Event)
    requires Good(s) && e.Replay? && Enabled(s, e) && Disciplined(s, e)
    ensures Good(Apply(s, e))
  {
    var s', id := Apply(s, e), e.id;
    RequeueKeepsJob(s.rows[id], s.history[id], s.now, true);
    OneJobRewritten(s, s', id, s'.rows[id], s'.history[id]);
  }

  lemma RecoverKeepsGood(s: State, e: Event)
    requires Good(s) && e.Recover?
    ensures Good(Apply(s, e))
  {
    var s' := Apply(s, e);
    forall id | id in s'.rows ensures JobOk(s'.rows[id], s'.history[id]) {
      assert JobOk(s.rows[id], s.history[id]);
    }
    forall f | f in s'.flights ensures FlightOk(s', f) {
      assert FlightOk(s, f);
      assert !Stale(s.rows[f.job], s.now);
    }
  }

  lemma SettleKeepsJob(j: Job, h: History, a: Answer, c: Chance, now: int)
    requires JobOk(j, h) && j.status.Processing? && |h.answers| < |h.log|
    ensures JobOk(SettleRow(j, j, a, c, now), h.(answers := h.answers + [a]))
  {
    EvaluateOutcome(j, a, c);
    assert (h.answers + [a])[..|h.answers|] == h.answers;
  }

  lemma SettleKeepsGood(s: State, e: Event)
    requires Good(s) && e.Settle? && Enabled(s, e)
    ensures Good(Apply(s, e))
  {
    OneFlightPerJob(s);
    assert FlightOk(s, e.f);
    var s', id := Apply(s, e), e.f.job;
    SettleKeepsJob(s.rows[id], s.history[id], e.answer, e.chance, s.now);
    OneJobRewritten(s, s', id, s'.rows[id], s'.history[id]);
  }

  /** Whatever happens next, as long as it respects the lease and replay discipline, the state stays good. */
  lemma StepKeepsGood(s: State, e: Event)
    requires Good(s) && Enabled(s, e) && Disciplined(s, e)
    ensures Good(Apply(s, e))
  {
    match e
    case Create(_, _, _, _, _) => CreateKeepsGood(s, e);
    case Claim(_, _, _) => ClaimKeepsGood(s, e);
    case Refuse(_) => RefuseKeepsGood(s, e);
    case Replay(_) => ReplayKeepsGood(s, e);
    case Recover => RecoverKeepsGood(s, e);
    case Settle(_, _, _) => SettleKeepsGood(s, e);
    case Record(_) => RecordKeepsGood(s, e);
    case _ => StageKeepsGood(s, e);
  }
}
