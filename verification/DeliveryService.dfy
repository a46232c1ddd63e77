/** The delivery service over the table: one attempt, one poll, and the poller's batch loops. */
module DeliveryService {
  import opened Prelude
  import opened DeliveryState
  import opened RetryPolicy
  import opened DeliveryTable
  import opened DeliverySystem

  /** What the attempt meets: an answer, or a request that cannot even be built. */
  datatype Encounter = Unbuildable | Met(answer: Answer)

  datatype Task = Task(id: JobId, snapshot: Job)

  // ----- what a poll does to the rows

  /** Claimed rows stay claimed when handed to the pool, and go straight back to PENDING when released. */
  function Polled(rows: Rows, batch: set<JobId>, released: set<JobId>, worker: WorkerId, now: int): Rows {
    map id | id in rows ::
      if id !in batch then rows[id]
      else if id in released then RequeueRow(ClaimRow(rows[id], worker, now), now)
      else ClaimRow(rows[id], worker, now)
  }

  /** Row by row: what is handed over is locked by this worker, what is given back is as good as new, with at least
      three attempts of budget left. */
  lemma PolledRow(rows: Rows, batch: set<JobId>, released: set<JobId>, worker: WorkerId, now: int, id: JobId)
    requires id in rows
    ensures var polled, j := Polled(rows, batch, released, worker, now), rows[id];
      id in polled && polled[id] ==
        if id !in batch then j
        else if id in released
        then j.(status := Pending, lockedAt := None, lockedBy := None, nextRetryAt := now, completedAt := None,
                maxRetries := if j.maxRetries >= j.attempts + 3 then j.maxRetries else j.attempts + 3)
        else j.(status := Processing, lockedAt := Some(now), lockedBy := Some(worker))
  {
  }

  /** What is due after a poll at the same instant: everything it left behind and everything it gave back. */
  lemma DueAfterPoll(rows: Rows, batch: set<JobId>, released: set<JobId>, worker: WorkerId, now: int)
    requires batch <= DueJobs(rows, now)
    ensures DueJobs(Polled(rows, batch, released, worker, now), now) == DueJobs(rows, now) - (batch - released)
  {
    var after := Polled(rows, batch, released, worker, now);
    forall id ensures id in DueJobs(after, now) <==> id in DueJobs(rows, now) - (batch - released) {
      if id in batch { assert id in DueJobs(rows, now); }
    }
  }

  predicate NoneStale(rows: Rows, now: int) {
    forall id | id in rows :: !Stale(rows[id], now)
  }

  /** Every retry provoked among jobs that have made at most so many attempts waits a positive time. */
  ghost predicate PositiveBackoffs(encounters: nat -> Encounter, chances: nat -> Chance, most: int) {
    forall n: nat, j: Job | j.attempts <= most && encounters(n).Met? :: RetryWaits(j, encounters(n).answer, chances(n))
  }

  predicate RetryWaits(j: Job, a: Answer, c: Chance) {
    Evaluate(j, a, c).nextState.RetryWait? ==> Evaluate(j, a, c).backoffDelay > 0
  }

  /** No Retry-After of this answer wraps around. */
  predicate HeaderFits(a: Answer) {
    a.Response? && a.header.Seconds? && a.header.n > 0 ==> Wrap64(a.header.n * SECOND) > 0
  }

  lemma RetryIsPositive(j: Job, a: Answer, c: Chance)
    requires Representable(j.attempts + 1, 100 * MILLISECOND, 30 * SECOND) && HeaderFits(a)
    ensures RetryWaits(j, a, c)
  {
    match a
    case UrlBlocked =>
    case NetworkError => DefaultRetryWaits(0, true, j.attempts + 1, NoHeaders, j.maxRetries, c);
    case Response(code, header) => DefaultRetryWaits(code, false, j.attempts + 1, header, j.maxRetries, c);
  }

  /** Up to 36 attempts made, the doubling of the next backoff fits, so every retry waits as long as no Retry-After
      wraps. */
  lemma BackoffsArePositive(encounters: nat -> Encounter, chances: nat -> Chance, most: int)
    requires most <= 36
    requires forall n: nat | encounters(n).Met? :: HeaderFits(encounters(n).answer)
    ensures PositiveBackoffs(encounters, chances, most)
  {
    forall n: nat, j: Job | j.attempts <= most && encounters(n).Met?
      ensures RetryWaits(j, encounters(n).answer, chances(n))
    {
      DefaultsRepresentable(j.attempts + 1);
      RetryIsPositive(j, encounters(n).answer, chances(n));
    }
  }

  /** What an answer has made of a row: a retry is due exactly from the end of its backoff on, a dead letter never, with
      a day on its clock, and an accepted delivery never. */
  ghost predicate Settled(before: Job, after: Job, snapshot: Job, a: Answer, c: Chance, now: int) {
    var eval := Evaluate(snapshot, a, c);
    && after.attempts == before.attempts + 1 && after.lockedAt.None? && after.lockedBy.None?
    && after.status == (if a.Response? && 200 <= a.statusCode < 300 then Delivered
                        else if eval.nextState.RetryWait? then RetryWait else DeadLetter)
    && (after.status.RetryWait? ==>
          after.nextRetryAt == now + eval.backoffDelay
          && forall t: int :: Due(after, t) <==> t >= now + eval.backoffDelay)
    && (after.status.DeadLetter? ==> after.nextRetryAt == now + 86_400_000_000_000 && after.completedAt == Some(now))
    && (after.status.Delivered? ==> after.completedAt == Some(now))
    && (after.status.DeadLetter? || after.status.Delivered? ==> forall t: int :: !Due(after, t))
  }

  lemma SettledRow(id: JobId, job: Job, a: Answer, c: Chance, now: int, before: Rows, after: Rows)
    requires after == Updated(before, id, j => SettleRow(j, job, a, c, now))
    ensures id in before ==> id in after && Settled(before[id], after[id], job, a, c, now)
  {
    EvaluateOutcome(job, a, c);
  }

  function Limit(batchSize: int): (limit: nat)
    ensures limit > 0
    ensures batchSize <= 0 ==> limit == 10
    ensures batchSize > 0 ==> limit == batchSize
  {
    if batchSize <= 0 then 10 else batchSize
  }

  class DeliveryService {
    const queries: JobTable
    const workerID: WorkerId
    /** delivery_attempts: the attempt numbers recorded per job. */
    var attempts: map<JobId, seq<nat>>
    /** Tasks the worker pool has accepted and not yet run. */
    var tasks: seq<Task>

    constructor (queries: JobTable, workerID: WorkerId)
      ensures this.queries == queries && this.workerID == workerID && attempts == map[] && tasks == []
    {
      this.queries := queries;
      this.workerID := workerID;
      attempts := map[];
      tasks := [];
    }

    function AttemptsOf(id: JobId): seq<nat>
      reads this
    {
      if id in attempts then attempts[id] else []
    }

    method RecordDeliveryAttempt(id: JobId)
      modifies this`attempts
      ensures attempts == old(attempts)[id := old(AttemptsOf(id)) + [|old(AttemptsOf(id))| + 1]]
    {
      var attemptNum := |AttemptsOf(id)| + 1;
      attempts := attempts[id := AttemptsOf(id) + [attemptNum]];
    }

    /** One forward attempt of a claimed snapshot. */
    method ExecuteJob(id: JobId, job: Job, encounter: Encounter, c: Chance, now: int)
      modifies this`attempts, queries
      ensures encounter.Unbuildable? ==> queries.rows == old(queries.rows) && attempts == old(attempts)
      ensures encounter.Met? ==>
        && queries.rows == Updated(old(queries.rows), id, j => SettleRow(j, job, encounter.answer, c, now))
        && attempts == old(attempts)[id := old(AttemptsOf(id)) + [|old(AttemptsOf(id))| + 1]]
      ensures encounter.Met? && id in old(queries.rows) ==>
        Settled(old(queries.rows)[id], queries.rows[id], job, encounter.answer, c, now)
    {
      if encounter.Met? && encounter.answer.UrlBlocked? {
        RecordDeliveryAttempt(id);
        var _ := queries.FailDeliveryJob(id, DeadLetter, now + DAY, now);
        SettledRow(id, job, encounter.answer, c, now, old(queries.rows), queries.rows);
        return;
      }
      if encounter.Unbuildable? {
        return;
      }
      var eval := Evaluate(job, encounter.answer, c);
      RecordDeliveryAttempt(id);
      if eval.nextState.Delivered? {
        var _ := queries.CompleteDeliveryJob(id, now);
      } else {
        var nextRetry := now + eval.backoffDelay;
        if eval.nextState.DeadLetter? {
          nextRetry := now + DAY;
        }
        var _ := queries.FailDeliveryJob(id, eval.nextState, nextRetry, now);
      }
      SettledRow(id, job, encounter.answer, c, now, old(queries.rows), queries.rows);
    }

    /** Claim a batch and hand each job to the pool; whatever cannot be loaded or is refused is released. */
    method PollAndProcessQueue(batchSize: int, now: int, unloadable: set<JobId>, refused: set<JobId>)
      returns (processed: nat, batch: set<JobId>)
      modifies this`tasks, queries
      ensures ClaimBatch(old(queries.rows), now, Limit(batchSize), batch)
      ensures processed == |batch| == Min(if batchSize <= 0 then 10 else batchSize, |DueJobs(old(queries.rows), now)|)
      ensures var released := batch * (unloadable + refused);
        && queries.rows == Polled(old(queries.rows), batch, released, workerID, now)
        && Enqueued(old(tasks), tasks, batch - released, old(queries.rows), workerID, now)
    {
      batch := queries.ClaimPendingDeliveryJobs(workerID, Limit(batchSize), now);
      processed := |batch|;
      ghost var before := old(queries.rows);
      var rest := batch;
      ghost var handed, released := {}, {};
      while rest != {}
        invariant rest <= batch
        invariant forall id :: id in released <==> id in batch && id !in rest && (id in unloadable || id in refused)
        invariant forall id :: id in handed <==> id in batch && id !in rest && id !in unloadable && id !in refused
        invariant queries.rows == Polled(before, batch, released, workerID, now)
        invariant Enqueued(old(tasks), tasks, handed, before, workerID, now)
        decreases |rest|
      {
        var id :| id in rest;
        if id !in unloadable && id !in refused {
          HandedOver(old(tasks), tasks, handed, before, workerID, now, id);
          tasks := tasks + [Task(id, queries.rows[id])];
          handed := handed + {id};
        } else {
          Released(before, batch, released, workerID, now, id);
          var _ := queries.RequeueDeliveryJob(id, now);
          released := released + {id};
        }
        rest := rest - {id};
      }
      assert released == batch * (unloadable + refused);
      assert handed == batch - released;
    }

    /** The jobs that may be run: those waiting in the pool and those a claim may take. */
    ghost predicate AttemptsUpTo(most: int, now: int)
      reads this, queries
    {
      && (forall i | 0 <= i < |tasks| :: tasks[i].snapshot.attempts <= most)
      && DueUpTo(queries.rows, most, now)
    }

    /** The pool's workers run up to `count` accepted tasks, oldest first, all at this instant. */
    method RunTasks(count: nat, encounters: nat -> Encounter, chances: nat -> Chance, most: int, now: int)
      requires PositiveBackoffs(encounters, chances, most) && AttemptsUpTo(most, now)
      modifies this, queries
      ensures AttemptsUpTo(most, now)
      ensures DueJobs(queries.rows, now) <= DueJobs(old(queries.rows), now)
      ensures NoneStale(old(queries.rows), now) ==> NoneStale(queries.rows, now)
      ensures tasks == old(tasks)[Min(count, |old(tasks)|)..]
    {
      var n := 0;
      while n < count && n < |tasks|
        invariant tasks == old(tasks) && 0 <= n <= Min(count, |tasks|) && DueUpTo(queries.rows, most, now)
        invariant DueJobs(queries.rows, now) <= DueJobs(old(queries.rows), now)
        invariant NoneStale(old(queries.rows), now) ==> NoneStale(queries.rows, now)
      {
        var task := tasks[n];
        if encounters(n).Met? {
          SettledIsNotDue(queries.rows, task, encounters(n).answer, chances(n), now, most);
        }
        ExecuteJob(task.id, task.snapshot, encounters(n), chances(n), now);
        n := n + 1;
      }
      tasks := tasks[n..];
    }

    /** One round of the batch loop: a poll, which gives back what cannot be loaded or is refused, and whatever the
        workers finish before the next one. */
    method PollRound(batchSize: int, now: int, unloadable: set<JobId>, refused: set<JobId>,
                     count: nat, encounters: nat -> Encounter, chances: nat -> Chance, most: int)
      returns (processed: nat)
      requires PositiveBackoffs(encounters, chances, most) && AttemptsUpTo(most, now)
      modifies this, queries
      ensures AttemptsUpTo(most, now) && DueJobs(queries.rows, now) <= DueJobs(old(queries.rows), now)
      ensures var back := DueJobs(old(queries.rows), now) * (unloadable + refused);
        |DueJobs(queries.rows, now)| <= |DueJobs(old(queries.rows), now)| - processed + |back|
      ensures processed < Limit(batchSize) ==> DueJobs(queries.rows, now) <= unloadable + refused
      ensures NoneStale(old(queries.rows), now) ==> NoneStale(queries.rows, now)
    {
      ghost var before, tasksBefore := queries.rows, tasks;
      var batch;
      processed, batch := PollAndProcessQueue(batchSize, now, unloadable, refused);
      ghost var polled, back := queries.rows, unloadable + refused;
      PolledKeepsAttempts(before, batch, batch * back, workerID, now, most);
      HandedUpTo(tasksBefore, tasks, batch - batch * back, before, workerID, now, most);
      RoundShrinks(before, batch, back, workerID, Limit(batchSize), now);
      RunTasks(count, encounters, chances, most, now);
      Shrinks(DueJobs(queries.rows, now), DueJobs(polled, now));
    }

    /** The triggered loop: poll until a batch comes back short. Fewer jobs are given back than a batch holds and every
        retry waits; then it ends, and only jobs that are given back are due, whatever the workers finish meanwhile. */
    method PollUntilShort(batchSize: int, now: int, unloadable: set<JobId>, refused: set<JobId>, pace: nat -> nat,
                          encounters: nat -> Encounter, chances: nat -> Chance, most: int)
      requires PositiveBackoffs(encounters, chances, most) && AttemptsUpTo(most, now)
      requires |DueJobs(queries.rows, now) * (unloadable + refused)| < Limit(batchSize)
      modifies this, queries
      ensures DueJobs(queries.rows, now) <= DueJobs(old(queries.rows), now) * (unloadable + refused)
      ensures NoneStale(old(queries.rows), now) ==> NoneStale(queries.rows, now)
    {
      ghost var back := unloadable + refused;
      var short := false;
      var round := 0;
      while !short
        invariant AttemptsUpTo(most, now) && DueJobs(queries.rows, now) <= DueJobs(old(queries.rows), now)
        invariant short ==> DueJobs(queries.rows, now) <= back
        invariant |DueJobs(queries.rows, now) * back| < Limit(batchSize)
        invariant NoneStale(old(queries.rows), now) ==> NoneStale(queries.rows, now)
        decreases !short, |DueJobs(queries.rows, now)|
      {
        ghost var due := DueJobs(queries.rows, now);
        var processed := PollRound(batchSize, now, unloadable, refused, pace(round), encounters, chances, most);
        Shrinks(DueJobs(queries.rows, now) * back, due * back);
        round := round + 1;
        short := processed < Limit(batchSize);
      }
    }

    /** A tick of the periodic poller: recover stale leases, then poll until short. Nothing stale remains, and nothing
        due but what is given back. */
    method TickerCycle(batchSize: int, now: int, unloadable: set<JobId>, refused: set<JobId>, pace: nat -> nat,
                       encounters: nat -> Encounter, chances: nat -> Chance, most: int)
      requires PositiveBackoffs(encounters, chances, most)
      requires forall i | 0 <= i < |tasks| :: tasks[i].snapshot.attempts <= most
      requires DueUpTo(RecoverAll(queries.rows, now), most, now)
      requires |DueJobs(RecoverAll(queries.rows, now), now) * (unloadable + refused)| < Limit(batchSize)
      modifies this, queries
      ensures DueJobs(queries.rows, now) <= unloadable + refused && NoneStale(queries.rows, now)
    {
      queries.RecoverStaleDeliveryJobs(now);
      PollUntilShort(batchSize, now, unloadable, refused, pace, encounters, chances, most);
    }
  }

  /** No job a claim may take has made more attempts. */
  predicate DueUpTo(rows: Rows, most: int, now: int) {
    forall id | id in DueJobs(rows, now) :: rows[id].attempts <= most
  }

  lemma PolledKeepsAttempts(rows: Rows, batch: set<JobId>, released: set<JobId>, worker: WorkerId, now: int, most: int)
    requires DueUpTo(rows, most, now) && batch <= DueJobs(rows, now)
    ensures DueUpTo(Polled(rows, batch, released, worker, now), most, now)
  {
    DueAfterPoll(rows, batch, released, worker, now);
  }

  lemma HandedUpTo(before: seq<Task>, after: seq<Task>, handed: set<JobId>, rows: Rows, worker: WorkerId, now: int,
                   most: int)
    requires Enqueued(before, after, handed, rows, worker, now)
    requires forall i | 0 <= i < |before| :: before[i].snapshot.attempts <= most
    requires DueUpTo(rows, most, now) && handed <= DueJobs(rows, now)
    ensures forall i | 0 <= i < |after| :: after[i].snapshot.attempts <= most
  {
    forall i | 0 <= i < |after|
      ensures after[i].snapshot.attempts <= most
    {
      if i >= |before| {
        assert after[i] == after[|before|..][i - |before|];
      }
    }
  }

  /** A round takes everything of its batch off the due jobs but what it gives back. */
  lemma RoundShrinks(rows: Rows, batch: set<JobId>, back: set<JobId>, worker: WorkerId, limit: nat, now: int)
    requires ClaimBatch(rows, now, limit, batch)
    ensures var due, after := DueJobs(rows, now), DueJobs(Polled(rows, batch, batch * back, worker, now), now);
      && after <= due && after * back == due * back
      && |after| <= |due| - |batch| + |due * back|
      && (|batch| < limit ==> after <= back)
  {
    DueAfterPoll(rows, batch, batch * back, worker, now);
    BatchLeaves(rows, now, limit, batch);
    TakenOff(DueJobs(rows, now), batch, back);
  }

  /** Taking a batch off, except what is given back. */
  lemma TakenOff(due: set<JobId>, batch: set<JobId>, back: set<JobId>)
    requires batch <= due
    ensures var after := due - (batch - batch * back);
      && after <= due && after * back == due * back
      && |after| <= |due - batch| + |due * back|
      && (due - batch == {} ==> after <= back)
  {
    var kept := batch * back;
    assert due - (batch - kept) == (due - batch) + kept;
    Shrinks(kept, due * back);
  }

  lemma Shrinks(a: set<JobId>, b: set<JobId>)
    requires a <= b
    ensures |a| <= |b|
  {
    assert b == a + (b - a);
  }

  /** A full batch leaves fewer due jobs behind, a short one none. */
  lemma BatchLeaves(rows: Rows, now: int, limit: nat, batch: set<JobId>)
    requires ClaimBatch(rows, now, limit, batch)
    ensures |DueJobs(rows, now) - batch| == |DueJobs(rows, now)| - |batch|
    ensures |batch| < limit ==> DueJobs(rows, now) - batch == {}
  {
    assert DueJobs(rows, now) == batch + (DueJobs(rows, now) - batch);
  }

  lemma SettledIsNotDue(rows: Rows, task: Task, a: Answer, c: Chance, now: int, most: int)
    requires RetryWaits(task.snapshot, a, c)
    ensures var rows' := Updated(rows, task.id, j => SettleRow(j, task.snapshot, a, c, now));
      && DueJobs(rows', now) == DueJobs(rows, now) - {task.id}
      && (NoneStale(rows, now) ==> NoneStale(rows', now))
      && (DueUpTo(rows, most, now) ==> DueUpTo(rows', most, now))
  {
    EvaluateOutcome(task.snapshot, a, c);
  }

  /** The queue grew by one task per handed job, each carrying the row as claimed, and by nothing else. */
  ghost predicate Enqueued(before: seq<Task>, after: seq<Task>, handed: set<JobId>, rows: Rows, worker: WorkerId,
                           now: int)
  {
    && before <= after && |after| == |before| + |handed|
    && (forall id | id in handed :: id in rows && Task(id, ClaimRow(rows[id], worker, now)) in after[|before|..])
    && (forall t | t in after[|before|..] ::
          t.id in handed && t.id in rows && t.snapshot == ClaimRow(rows[t.id], worker, now))
  }

  lemma HandedOver(before: seq<Task>, after: seq<Task>, handed: set<JobId>, rows: Rows, worker: WorkerId, now: int,
                   id: JobId)
    requires Enqueued(before, after, handed, rows, worker, now) && id !in handed && id in rows
    ensures Enqueued(before, after + [Task(id, ClaimRow(rows[id], worker, now))], handed + {id}, rows, worker, now)
  {
    var task := Task(id, ClaimRow(rows[id], worker, now));
    assert (after + [task])[|before|..] == after[|before|..] + [task];
  }

  lemma Released(rows: Rows, batch: set<JobId>, released: set<JobId>, worker: WorkerId, now: int, id: JobId)
    requires id in batch && id !in released && id in rows
    ensures Polled(rows, batch, released + {id}, worker, now)
         == Updated(Polled(rows, batch, released, worker, now), id, j => RequeueRow(j, now))
  {
  }
}
