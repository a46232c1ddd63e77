/** What holds along every run of the delivery queue that keeps the two operating hypotheses. */
module DeliveryRuns {
  import opened Prelude
  import opened DeliveryState
  import opened RetryPolicy
  import opened DeliveryTable
  import opened DeliverySystem
  import opened NoJobLost

  // ----- runs

  ghost predicate DisciplinedRun(s: State, es: seq<Event>)
    decreases |es|
  {
    es == [] || (Enabled(s, es[0]) && Disciplined(s, es[0]) && DisciplinedRun(Apply(s, es[0]), es[1..]))
  }

  ghost function After(s: State, es: seq<Event>): State
    requires DisciplinedRun(s, es)
    decreases |es|
  {
    if es == [] then s else After(Apply(s, es[0]), es[1..])
  }

  ghost predicate Reaches(s: State, t: State) {
    exists es :: DisciplinedRun(s, es) && After(s, es) == t
  }

  ghost predicate Reachable(s: State) {
    exists now :: Reaches(Initial(now), s)
  }

  lemma ReachesSelf(s: State)
    ensures Reaches(s, s)
  {
    assert DisciplinedRun(s, []) && After(s, []) == s;
  }

  lemma {:induction false} RunAppends(s: State, es: seq<Event>, fs: seq<Event>)
    requires DisciplinedRun(s, es) && DisciplinedRun(After(s, es), fs)
    ensures DisciplinedRun(s, es + fs) && After(s, es + fs) == After(After(s, es), fs)
    decreases |es|
  {
    if es == [] {
      assert es + fs == fs;
    } else {
      var all := es + fs;
      RunAppends(Apply(s, es[0]), es[1..], fs);
      assert all[0] == es[0] && all[1..] == es[1..] + fs;
    }
  }

  lemma ReachesTransitive(s: State, t: State, u: State)
    requires Reaches(s, t) && Reaches(t, u)
    ensures Reaches(s, u)
  {
    var es :| DisciplinedRun(s, es) && After(s, es) == t;
    var fs :| DisciplinedRun(t, fs) && After(t, fs) == u;
    RunAppends(s, es, fs);
  }

  lemma ReachesOne(t: State, e: Event)
    requires Enabled(t, e) && Disciplined(t, e)
    ensures Reaches(t, Apply(t, e))
  {
    var es := [e];
    var next := Apply(t, e);
    assert es[0] == e && es[1..] == [];
    ReachesSelf(next);
    assert DisciplinedRun(next, es[1..]) && After(next, es[1..]) == next;
    assert After(t, es) == After(next, es[1..]);
  }

  lemma ReachesStep(s: State, t: State, e: Event)
    requires Reaches(s, t) && Enabled(t, e) && Disciplined(t, e)
    ensures Reaches(s, Apply(t, e))
  {
    ReachesOne(t, e);
    ReachesTransitive(s, t, Apply(t, e));
  }

  lemma {:induction false} RunKeepsGood(s: State, es: seq<Event>)
    requires Good(s) && DisciplinedRun(s, es)
    ensures Good(After(s, es))
    decreases |es|
  {
    if es != [] {
      StepKeepsGood(s, es[0]);
      RunKeepsGood(Apply(s, es[0]), es[1..]);
    }
  }

  lemma ReachableIsGood(s: State)
    requires Reachable(s)
    ensures Good(s)
  {
    var now :| Reaches(Initial(now), s);
    var es :| DisciplinedRun(Initial(now), es) && After(Initial(now), es) == s;
    RunKeepsGood(Initial(now), es);
  }

  // ----- lease exclusivity

  ghost predicate Exclusive(s: State) {
    forall f, g | f in s.flights && g in s.flights && f.job == g.job :: f == g
  }

  /** Over all interleavings: never two executions of one job, and whoever is about to settle finds the
      row it claimed, still PROCESSING, with the attempts it saw. */
  lemma LeaseExclusivity(s: State)
    requires Reachable(s)
    ensures Exclusive(s)
    ensures forall f | f in s.flights ::
      f.job in s.rows && s.rows[f.job] == s.flights[f].snapshot && s.rows[f.job].status.Processing?
  {
    ReachableIsGood(s);
    OneFlightPerJob(s);
    forall f | f in s.flights
      ensures f.job in s.rows && s.rows[f.job] == s.flights[f].snapshot && s.rows[f.job].status.Processing?
    {
      assert FlightOk(s, f);
    }
  }

  lemma GoodStaysExclusive(s: State)
    requires Good(s)
    ensures ClaimsStayExclusive(s)
  {
    forall c: Event | c.Claim? && Enabled(s, c) ensures Exclusive(Apply(s, c)) {
      StepKeepsGood(s, c);
      OneFlightPerJob(Apply(s, c));
    }
  }

  /** An execution that outlives its lease, or whose job is replayed, is claimed again after recovery. */
  lemma BreachAllowsSecond(s: State, e: Event, f: FlightId)
    requires Good(s) && Enabled(s, e) && f in s.flights
    requires (e.Tick? && !WithinLease(s.flights[f], e.t)) || (e.Replay? && f.job == e.id)
    ensures !ClaimsStayExclusive(Apply(Apply(s, e), Recover))
  {
    assert FlightOk(s, f);
    SecondExecution(Apply(Apply(s, e), Recover), f);
  }

  /** The hypotheses are exactly what exclusivity needs: letting the clock or a replay break them is the
      same as letting recovery and the next claim start a second execution. */
  lemma DisciplineIsExact(s: State, e: Event)
    requires Good(s) && (e.Tick? || e.Replay?) && Enabled(s, e)
    ensures Disciplined(s, e) <==> ClaimsStayExclusive(Apply(Apply(s, e), Recover))
  {
    if Disciplined(s, e) {
      StepKeepsGood(s, e);
      StepKeepsGood(Apply(s, e), Recover);
      GoodStaysExclusive(Apply(Apply(s, e), Recover));
    } else {
      var f :| f in s.flights && (if e.Tick? then !WithinLease(s.flights[f], e.t) else f.job == e.id);
      BreachAllowsSecond(s, e, f);
    }
  }

  ghost predicate ClaimsStayExclusive(s: State) {
    forall c: Event | c.Claim? && Enabled(s, c) :: Exclusive(Apply(s, c))
  }

  lemma SecondExecution(s: State, f: FlightId)
    requires f in s.flights && f.job in s.rows && f.job in s.history
    requires f.serial == s.history[f.job].claims && Due(s.rows[f.job], s.now)
    ensures !ClaimsStayExclusive(s)
  {
    var due := DueJobs(s.rows, s.now);
    var c := Claim("", |due|, due);
    var s' := Apply(s, c);
    var g := FlightId(f.job, NextSerial(s, f.job));
    assert g in Launched(s, due, "");
    assert f in s'.flights && g in s'.flights && f != g;
    assert !Exclusive(s');
  }

  // ----- status changes

  /** Whoever is refused or settles holds the row as it stands, PROCESSING. */
  lemma FlightRow(s: State, e: Event)
    requires Good(s) && Enabled(s, e) && (e.Refuse? || e.Settle?)
    ensures e.f.job in s.rows && s.rows[e.f.job].status.Processing? && s.flights[e.f].snapshot == s.rows[e.f.job]
  {
    assert FlightOk(s, e.f);
  }

  lemma SettledStatus(j: Job, a: Answer, c: Chance, now: int)
    requires j.status.Processing?
    ensures var to := SettleRow(j, j, a, c, now).status; CanTransition(j.status, to)
  {
    EvaluateOutcome(j, a, c);
  }

  /** Every status change is one CanTransition lists, except a refused submit and a replay of a job that is
      PROCESSING or RETRY_WAIT: those two move it straight to PENDING. */
  lemma StatusChanges(s: State, e: Event, id: JobId)
    requires Good(s) && Enabled(s, e) && Disciplined(s, e) && id in s.rows
    ensures id in Apply(s, e).rows
    ensures var from, to := s.rows[id].status, Apply(s, e).rows[id].status;
      CanTransition(from, to) <==>
        !(|| (e.Refuse? && e.f.job == id)
          || (e.Replay? && e.id == id && (from.Processing? || from.RetryWait?)))
  {
    RowOfStep(s, e, id);
    RowStatus(s, e, id);
  }

  lemma RowStatus(s: State, e: Event, id: JobId)
    requires Good(s) && Enabled(s, e) && id in s.rows
    ensures var from, to := s.rows[id].status, RowAfter(s, e, id).status;
      CanTransition(from, to) <==>
        !(|| (e.Refuse? && e.f.job == id)
          || (e.Replay? && e.id == id && (from.Processing? || from.RetryWait?)))
  {
    assert JobOk(s.rows[id], s.history[id]);
    if e.Settle? && e.f.job == id {
      FlightRow(s, e);
      SettledStatus(s.rows[id], e.answer, e.chance, s.now);
    } else if e.Refuse? {
      FlightRow(s, e);
    } else if e.Claim? && id in e.batch {
      assert Due(s.rows[id], s.now);
    }
  }

  /** Only an explicit replay touches a delivered or dead-lettered job, and only a settling step ends one. */
  lemma TerminalIsFinal(s: State, e: Event, id: JobId)
    requires Good(s) && Enabled(s, e) && Disciplined(s, e) && id in s.rows
    ensures id in Apply(s, e).rows
    ensures IsTerminal(s.rows[id].status) && e != Replay(id) ==> Apply(s, e).rows[id] == s.rows[id]
    ensures !IsTerminal(s.rows[id].status) && IsTerminal(Apply(s, e).rows[id].status) ==> e.Settle? && e.f.job == id
  {
    RowOfStep(s, e, id);
    TerminalRow(s, e, id);
  }

  lemma TerminalRow(s: State, e: Event, id: JobId)
    requires Good(s) && Enabled(s, e) && id in s.rows
    ensures IsTerminal(s.rows[id].status) && e != Replay(id) ==> RowAfter(s, e, id) == s.rows[id]
    ensures !IsTerminal(s.rows[id].status) && IsTerminal(RowAfter(s, e, id).status) ==> e.Settle? && e.f.job == id
  {
    if e.Refuse? || e.Settle? {
      FlightRow(s, e);
    } else if e.Claim? && id in e.batch {
      assert Due(s.rows[id], s.now);
    }
  }

  // ----- the backoff is waited out

  lemma WaitingRowStays(s: State, e: Event, id: JobId)
    requires Good(s) && Enabled(s, e) && id in s.rows && s.rows[id].status.RetryWait?
    requires s.now < s.rows[id].nextRetryAt && e != Replay(id)
    ensures id in Apply(s, e).rows && Apply(s, e).rows[id] == s.rows[id]
  {
    RowOfStep(s, e, id);
    assert JobOk(s.rows[id], s.history[id]);
    if e.Refuse? || e.Settle? {
      FlightRow(s, e);
    } else {
      assert !Due(s.rows[id], s.now) && !Stale(s.rows[id], s.now);
    }
  }

  lemma {:induction false} ClockMovesOn(s: State, es: seq<Event>)
    requires DisciplinedRun(s, es)
    ensures s.now <= After(s, es).now
    decreases |es|
  {
    if es != [] {
      ClockMovesOn(Apply(s, es[0]), es[1..]);
    }
  }

  /** Unless it is replayed, a waiting job is left as it is until its time has come: no claim takes it before. */
  lemma {:induction false} WaitingIsKept(s: State, es: seq<Event>, id: JobId)
    requires Good(s) && DisciplinedRun(s, es) && Replay(id) !in es
    requires id in s.rows && s.rows[id].status.RetryWait? && After(s, es).now < s.rows[id].nextRetryAt
    ensures id in After(s, es).rows && After(s, es).rows[id] == s.rows[id]
    decreases |es|
  {
    if es != [] {
      var t := Apply(s, es[0]);
      ClockMovesOn(s, es);
      StepKeepsGood(s, es[0]);
      WaitingRowStays(s, es[0], id);
      WaitingIsKept(t, es[1..], id);
    }
  }

  /** After an answer that is to be retried: whatever happens but a replay, until the backoff counted from the answer is
      over the row waits as it was settled, so it is not due and nobody claims it. */
  lemma BackoffIsWaitedOut(s: State, f: FlightId, a: Answer, c: Chance, es: seq<Event>)
    requires Good(s) && Enabled(s, Settle(f, a, c)) && f in s.flights
    requires Evaluate(s.flights[f].snapshot, a, c).nextState.RetryWait?
    requires DisciplinedRun(Apply(s, Settle(f, a, c)), es) && Replay(f.job) !in es
    requires After(Apply(s, Settle(f, a, c)), es).now < s.now + Evaluate(s.flights[f].snapshot, a, c).backoffDelay
    ensures var t := After(Apply(s, Settle(f, a, c)), es);
      && f.job in t.rows && t.rows[f.job].status.RetryWait? && !Due(t.rows[f.job], t.now)
      && t.rows[f.job].nextRetryAt == s.now + Evaluate(s.flights[f].snapshot, a, c).backoffDelay
  {
    var e := Settle(f, a, c);
    FlightRow(s, e);
    RowOfStep(s, e, f.job);
    StepKeepsGood(s, e);
    WaitingIsKept(Apply(s, e), es, f.job);
  }

  /** A requeue grants at least three further attempts and never shrinks the budget; and whatever puts a job
      back into the queue makes it claimable at once. */
  lemma BackInTheQueue(s: State, e: Event, id: JobId)
    requires Good(s) && Enabled(s, e) && Disciplined(s, e)
    requires (e.Refuse? && e.f.job == id) || e == Replay(id)
          || (e.Recover? && id in s.rows && Stale(s.rows[id], s.now))
          || (e.Create? && e.id == id && !KeyTaken(s.rows, e.endpoint, e.key))
    ensures id in Apply(s, e).rows && Due(Apply(s, e).rows[id], s.now)
    ensures e.Refuse? || e.Replay? ==>
      && id in s.rows
      && var j, j' := s.rows[id], Apply(s, e).rows[id];
         j'.attempts == j.attempts && j'.maxRetries >= j.maxRetries && j'.maxRetries - j'.attempts >= 3
  {
    if e.Refuse? { assert FlightOk(s, e.f); }
  }

  // ----- retry budget and conservation of claims

  /** Claims are conserved: each one was settled, lost with its lease, refused, replayed away, or is running;
      the budget is never exceeded and grows by at most three per requeue; attempt numbers are 1, 2, 3, ... */
  lemma RetryBudget(s: State, id: JobId)
    requires Reachable(s) && id in s.rows
    ensures id in s.history
    ensures var j, h := s.rows[id], s.history[id];
      && j.attempts == |h.answers|
      && h.claims == j.attempts + h.recoveries + h.refusals + h.replaysOfClaimed
                     + (if j.status.Processing? then 1 else 0)
      && (!IsTerminal(j.status) ==> j.attempts < EffectiveMax(j.maxRetries))
      && j.attempts <= EffectiveMax(j.maxRetries) <= EffectiveMax(h.firstMax) + 3 * (h.replays + h.refusals)
      && (forall i | 0 <= i < |h.log| :: h.log[i] == i + 1)
    ensures var h := s.history[id];
      h.replays + h.refusals == 0 ==> h.claims <= EffectiveMax(h.firstMax) + h.recoveries
  {
    ReachableIsGood(s);
    assert JobOk(s.rows[id], s.history[id]);
  }

  /** Requeued or not, a finished job was delivered exactly when its last answer was accepted, and a
      retryable fault dead-lettered it only with the budget spent. */
  lemma LastAnswerDecides(s: State, id: JobId)
    requires Reachable(s) && id in s.rows && IsTerminal(s.rows[id].status)
    ensures id in s.history && s.history[id].answers != []
    ensures var last := s.history[id].answers[|s.history[id].answers| - 1];
      && (s.rows[id].status.Delivered? <==> Accepted(last))
      && (WorthRetrying(last) ==>
            s.rows[id].status.DeadLetter? && s.rows[id].attempts == EffectiveMax(s.rows[id].maxRetries))
  {
    ReachableIsGood(s);
    assert JobOk(s.rows[id], s.history[id]);
  }

  // ----- no job is lost

  /** Under the two hypotheses a row is also completed exactly when terminal. */
  lemma LocksMirrorStatus(s: State, id: JobId)
    requires Reachable(s) && id in s.rows
    ensures var j := s.rows[id];
      && (j.status.Processing? <==> j.lockedAt.Some? && j.lockedBy.Some?)
      && (!j.status.Processing? <==> j.lockedAt.None? && j.lockedBy.None?)
      && (j.completedAt.Some? <==> j.status.Delivered? || j.status.DeadLetter?)
  {
    ReachableIsGood(s);
    assert JobOk(s.rows[id], s.history[id]);
  }

  /** Every poller and worker crashes. */
  lemma Crashed(s: State) returns (t: State)
    requires Good(s)
    ensures Reaches(s, t) && Good(t) && t == s.(flights := map[])
  {
    ReachesOne(s, Crash);
    StepKeepsGood(s, Crash);
    t := Apply(s, Crash);
  }

  lemma Waited(s: State, clock: int) returns (t: State)
    requires Good(s) && s.flights == map[] && clock >= s.now
    ensures Reaches(s, t) && Good(t) && t == s.(now := clock)
  {
    ReachesOne(s, Tick(clock));
    StepKeepsGood(s, Tick(clock));
    t := Apply(s, Tick(clock));
  }

  lemma Recovered(s: State, id: JobId) returns (t: State)
    requires Good(s) && id in s.rows && !IsTerminal(s.rows[id].status) && s.now >= ClaimableFrom(s.rows[id])
    ensures Reaches(s, t) && Good(t) && id in t.rows && Due(t.rows[id], t.now)
    ensures t.rows[id].maxRetries == s.rows[id].maxRetries
    ensures SameTally(s.history[id], t.history[id]) && t.history[id].answers == s.history[id].answers
  {
    assert JobOk(s.rows[id], s.history[id]);
    RecoverStep(s, id);
    ReachesOne(s, Recover);
    StepKeepsGood(s, Recover);
    t := Apply(s, Recover);
  }

  lemma Taken(s: State, id: JobId) returns (t: State, f: FlightId)
    requires Good(s) && id in s.rows && Due(s.rows[id], s.now)
    ensures Reaches(s, t) && f in t.flights && f.job == id && t.flights[f].stage.InHand?
    ensures id in t.rows && id in t.history && t.flights[f].snapshot == t.rows[id]
    ensures t.rows[id].maxRetries == s.rows[id].maxRetries
    ensures SameTally(s.history[id], t.history[id]) && t.history[id].answers == s.history[id].answers
  {
    var claim;
    claim, f := ClaimStep(s, id);
    ReachesOne(s, claim);
    t := Apply(s, claim);
  }

  /** After a crash of every poller and worker, any unfinished job can be claimed again. */
  lemma Reclaimed(s: State, id: JobId) returns (t: State, f: FlightId)
    requires Good(s) && id in s.rows && !IsTerminal(s.rows[id].status)
    ensures Reaches(s, t) && f in t.flights && f.job == id && t.flights[f].stage.InHand?
    ensures id in t.rows && id in t.history && t.flights[f].snapshot == t.rows[id]
    ensures t.rows[id].maxRetries == s.rows[id].maxRetries
    ensures SameTally(s.history[id], t.history[id]) && t.history[id].answers == s.history[id].answers
  {
    var t0 := Crashed(s);
    var t1 := Waited(t0, Max(s.now, ClaimableFrom(s.rows[id])));
    var t2 := Recovered(t1, id);
    t, f := Taken(t2, id);
    ReachesTransitive(s, t0, t1);
    ReachesTransitive(s, t1, t2);
    ReachesTransitive(s, t2, t);
  }

  /** ... and one more attempt made, whatever the upstream answers. */
  lemma OneMoreAttempt(s: State, id: JobId, a: Answer, c: Chance) returns (t: State)
    requires Good(s) && id in s.rows && !IsTerminal(s.rows[id].status)
    ensures Reaches(s, t) && Good(t) && id in t.rows
    ensures SameTally(s.history[id], t.history[id]) && t.history[id].answers == s.history[id].answers + [a]
  {
    var claimed, f := Reclaimed(s, id);
    t := Flown(s, claimed, f, a, c);
    var es :| DisciplinedRun(s, es) && After(s, es) == t;
    RunKeepsGood(s, es);
  }

  /** A flight in hand can be submitted, counted, recorded and settled. */
  lemma Flown(s: State, t: State, f: FlightId, a: Answer, c: Chance) returns (u: State)
    requires Reaches(s, t) && f in t.flights && t.flights[f].stage.InHand?
    requires f.job in t.rows && f.job in t.history
    ensures Reaches(s, u) && f.job in u.rows && f.job in u.history
    ensures u.rows == t.rows[f.job := SettleRow(t.rows[f.job], t.flights[f].snapshot, a, c, t.now)]
    ensures var h, h' := t.history[f.job], u.history[f.job];
      h' == h.(answers := h.answers + [a], log := h.log + [|h.log| + 1])
  {
    u := t;
    ReachesStep(s, u, Accept(f));
    u := Apply(u, Accept(f));
    ReachesStep(s, u, Count(f));
    u := Apply(u, Count(f));
    ReachesStep(s, u, Record(f));
    u := Apply(u, Record(f));
    ReachesStep(s, u, Settle(f, a, c));
    u := Apply(u, Settle(f, a, c));
  }

  // ----- the outcome of a run

  /** The number of attempts after which a job with this budget is settled by this stream of answers:
      the index of the first answer that is not worth retrying, or the whole budget. */
  function SettlesAt(answers: nat -> Answer, max: nat, n: nat): (k: nat)
    requires 1 <= n <= max
    ensures n <= k <= max
    ensures forall i | n - 1 <= i < k - 1 :: WorthRetrying(answers(i))
    ensures k < max ==> !WorthRetrying(answers(k - 1))
    decreases max - n
  {
    if n == max || !WorthRetrying(answers(n - 1)) then n else SettlesAt(answers, max, n + 1)
  }

  ghost predicate Heard(answers: seq<Answer>, upstream: nat -> Answer) {
    forall i | 0 <= i < |answers| :: answers[i] == upstream(i)
  }

  /** Whatever the interleaving and however many leases are lost, a job that was never requeued is settled
      after exactly the attempts its upstream dictates: delivered if the last answer was accepted, else
      dead-lettered. */
  lemma RunOutcome(s: State, id: JobId, upstream: nat -> Answer)
    requires Reachable(s) && id in s.rows && id in s.history
    requires s.history[id].replays == 0 && s.history[id].refusals == 0
    requires Heard(s.history[id].answers, upstream)
    ensures var j := s.rows[id];
      var k := SettlesAt(upstream, EffectiveMax(s.history[id].firstMax), 1);
      && j.attempts <= k
      && (IsTerminal(j.status) <==> j.attempts == k)
      && (j.status.Delivered? <==> j.attempts == k && Accepted(upstream(k - 1)))
      && (j.status.DeadLetter? <==> j.attempts == k && !Accepted(upstream(k - 1)))
  {
    ReachableIsGood(s);
    OutcomeByStream(s.rows[id], s.history[id], upstream);
  }

  lemma OutcomeByStream(j: Job, h: History, upstream: nat -> Answer)
    requires JobOk(j, h) && h.replays == 0 && h.refusals == 0 && Heard(h.answers, upstream)
    ensures var k := SettlesAt(upstream, EffectiveMax(h.firstMax), 1);
      && j.attempts <= k
      && (IsTerminal(j.status) <==> j.attempts == k)
      && (j.status.Delivered? <==> j.attempts == k && Accepted(upstream(k - 1)))
      && (j.status.DeadLetter? <==> j.attempts == k && !Accepted(upstream(k - 1)))
  {
    var max := EffectiveMax(h.firstMax);
    var k := SettlesAt(upstream, max, 1);
    var n := |h.answers|;
    if IsTerminal(j.status) {
      assert forall i | 0 <= i < n - 1 :: h.answers[..n - 1][i] == h.answers[i] == upstream(i);
      assert n <= k;
      assert h.answers[n - 1] == upstream(n - 1);
      assert k <= n;
    } else {
      assert n < k;
    }
  }

  /** And it always gets there: from every reachable state the remaining attempts can be made, so a job
      never requeued ends DELIVERED or DEAD_LETTER after exactly that many. */
  lemma {:induction false} CanAlwaysSettle(s: State, id: JobId, upstream: nat -> Answer, c: Chance) returns (t: State)
    requires Good(s) && id in s.rows && Heard(s.history[id].answers, upstream)
    requires s.history[id].replays == 0 && s.history[id].refusals == 0
    ensures Reaches(s, t) && Good(t) && id in t.rows
    ensures t.rows[id].attempts == SettlesAt(upstream, EffectiveMax(s.history[id].firstMax), 1)
    ensures IsTerminal(t.rows[id].status)
    decreases SettlesAt(upstream, EffectiveMax(s.history[id].firstMax), 1) - s.rows[id].attempts
  {
    OutcomeByStream(s.rows[id], s.history[id], upstream);
    if IsTerminal(s.rows[id].status) {
      t := s;
      ReachesSelf(s);
    } else {
      var n := |s.history[id].answers|;
      var next := OneMoreAttempt(s, id, upstream(n), c);
      OutcomeByStream(next.rows[id], next.history[id], upstream);
      t := CanAlwaysSettle(next, id, upstream, c);
      ReachesTransitive(s, next, t);
    }
  }
}
