/** The delivery_jobs table: its rows, what each SQL statement does to a row, and the table object
    whose methods are the statements. Times are nanoseconds on one clock. */
module DeliveryTable {
  import opened Prelude
  import opened DeliveryState

  type JobId = nat
  type WorkerId = string

  const LEASE: int := 120_000_000_000

  datatype Job = Job(
    endpoint: nat, request: nat, key: Option<string>,
    status: DeliveryState, attempts: int, maxRetries: int, nextRetryAt: int,
    lockedAt: Option<int>, lockedBy: Option<WorkerId>, completedAt: Option<int>)

  type Rows = map<JobId, Job>

  // ----- what a statement does to one row

  function NewRow(endpoint: nat, request: nat, key: Option<string>, maxRetries: int, now: int): Job {
    Job(endpoint, request, key, Pending, 0, maxRetries, now, None, None, None)
  }

  function ClaimRow(j: Job, worker: WorkerId, now: int): Job {
    j.(status := Processing, lockedAt := Some(now), lockedBy := Some(worker))
  }

  function CompleteRow(j: Job, now: int): Job {
    j.(status := Delivered, attempts := j.attempts + 1, lockedAt := None, lockedBy := None, completedAt := Some(now))
  }

  function FailRow(j: Job, status: DeliveryState, nextRetryAt: int, now: int): Job {
    j.(status := status, attempts := j.attempts + 1, lockedAt := None, lockedBy := None, nextRetryAt := nextRetryAt,
       completedAt := if status.DeadLetter? then Some(now) else j.completedAt)
  }

  function RecoverRow(j: Job, now: int): Job {
    j.(status := RetryWait, lockedAt := None, lockedBy := None, nextRetryAt := now)
  }

  function RequeueRow(j: Job, now: int): Job {
    j.(status := Pending, maxRetries := Max(j.maxRetries, j.attempts + 3), lockedAt := None, lockedBy := None,
       nextRetryAt := now, completedAt := None)
  }

  // ----- which rows a statement selects

  predicate Due(j: Job, now: int) {
    && (j.status.Pending? || j.status.RetryWait?)
    && j.nextRetryAt <= now
    && (j.lockedAt.None? || j.lockedAt.value < now - LEASE)
  }

  predicate Stale(j: Job, now: int) {
    j.status.Processing? && j.lockedAt.Some? && j.lockedAt.value < now - LEASE
  }

  function DueJobs(rows: Rows, now: int): set<JobId> {
    set id | id in rows && Due(rows[id], now)
  }

  /** A batch the claim may take: due jobs only, as many as the limit allows, none of them due later
      than a due job left behind. */
  predicate ClaimBatch(rows: Rows, now: int, limit: nat, batch: set<JobId>) {
    && batch <= DueJobs(rows, now)
    && |batch| == Min(limit, |DueJobs(rows, now)|)
    && (forall b, d | b in batch && d in DueJobs(rows, now) - batch :: rows[b].nextRetryAt <= rows[d].nextRetryAt)
  }

  predicate KeyTaken(rows: Rows, endpoint: nat, key: Option<string>) {
    key.Some? && exists id | id in rows :: rows[id].endpoint == endpoint && rows[id].key == key
  }

  // ----- what a statement does to the table

  function ClaimAll(rows: Rows, batch: set<JobId>, worker: WorkerId, now: int): Rows {
    map id | id in rows :: if id in batch then ClaimRow(rows[id], worker, now) else rows[id]
  }

  function RecoverAll(rows: Rows, now: int): Rows {
    map id | id in rows :: if Stale(rows[id], now) then RecoverRow(rows[id], now) else rows[id]
  }

  /** An UPDATE ... WHERE id = $1. */
  function Updated(rows: Rows, id: JobId, f: Job -> Job): Rows {
    if id in rows then rows[id := f(rows[id])] else rows
  }

  // ----- selecting a batch

  /** A due job of least next_retry_at among the given ones. */
  method Earliest(rows: Rows, candidates: set<JobId>) returns (first: JobId)
    requires candidates != {} && candidates <= rows.Keys
    ensures first in candidates
    ensures forall c | c in candidates :: rows[first].nextRetryAt <= rows[c].nextRetryAt
  {
    first :| first in candidates;
    var rest := candidates - {first};
    while rest != {}
      invariant first in candidates && rest <= candidates
      invariant forall c | c in candidates - rest :: rows[first].nextRetryAt <= rows[c].nextRetryAt
      decreases |rest|
    {
      var c :| c in rest;
      rest := rest - {c};
      if rows[c].nextRetryAt < rows[first].nextRetryAt {
        first := c;
      }
    }
  }

  /** ORDER BY next_retry_at LIMIT $2. */
  method SelectBatch(rows: Rows, now: int, limit: nat) returns (batch: set<JobId>)
    ensures ClaimBatch(rows, now, limit, batch)
  {
    batch := {};
    var due := DueJobs(rows, now);
    var rest := due;
    while |batch| < limit && rest != {}
      invariant batch !! rest && batch + rest == due
      invariant |batch| <= limit && |batch| + |rest| == |due|
      invariant forall b, d | b in batch && d in rest :: rows[b].nextRetryAt <= rows[d].nextRetryAt
      decreases |rest|
    {
      var id := Earliest(rows, rest);
      batch := batch + {id};
      rest := rest - {id};
    }
    assert rest == due - batch;
  }

  class JobTable {
    var rows: Rows

    constructor ()
      ensures rows == map[]
    {
      rows := map[];
    }

    /** INSERT ... ON CONFLICT DO NOTHING; no row comes back on a conflict. */
    method CreateDeliveryJob(id: JobId, endpoint: nat, request: nat, key: Option<string>, maxRetries: int, now: int)
      returns (created: bool)
      requires id !in rows
      modifies this
      ensures created == !old(KeyTaken(rows, endpoint, key))
      ensures rows == if created then old(rows)[id := NewRow(endpoint, request, key, maxRetries, now)] else old(rows)
      ensures created ==> rows[id] == Job(endpoint, request, key, Pending, 0, maxRetries, now, None, None, None)
      ensures !created <==>
        key.Some? && exists other | other in old(rows) ::
          old(rows)[other].endpoint == endpoint && old(rows)[other].key == key
    {
      created := !KeyTaken(rows, endpoint, key);
      if created {
        rows := rows[id := NewRow(endpoint, request, key, maxRetries, now)];
      }
    }

    method ClaimPendingDeliveryJobs(worker: WorkerId, limit: nat, now: int) returns (batch: set<JobId>)
      modifies this
      ensures ClaimBatch(old(rows), now, limit, batch)
      ensures rows == ClaimAll(old(rows), batch, worker, now)
      ensures forall id | id in batch :: id in old(rows) && var j := old(rows)[id];
        && (j.status.Pending? || j.status.RetryWait?) && j.nextRetryAt <= now
        && (j.lockedAt.None? || j.lockedAt.value < now - 120_000_000_000)
        && rows[id] == j.(status := Processing, lockedAt := Some(now), lockedBy := Some(worker))
    {
      batch := SelectBatch(rows, now, limit);
      rows := map id | id in rows :: if id in batch then ClaimRow(rows[id], worker, now) else rows[id];
    }

    method CompleteDeliveryJob(id: JobId, now: int) returns (found: bool)
      modifies this
      ensures found == (id in old(rows))
      ensures rows == Updated(old(rows), id, j => CompleteRow(j, now))
      ensures found ==> rows[id] == old(rows)[id].(
        status := Delivered, attempts := old(rows)[id].attempts + 1, lockedAt := None, lockedBy := None,
        completedAt := Some(now))
    {
      found := id in rows;
      if found {
        rows := rows[id := CompleteRow(rows[id], now)];
      }
    }

    method FailDeliveryJob(id: JobId, status: DeliveryState, nextRetryAt: int, now: int) returns (found: bool)
      modifies this
      ensures found == (id in old(rows))
      ensures rows == Updated(old(rows), id, j => FailRow(j, status, nextRetryAt, now))
      ensures found ==> rows[id] == old(rows)[id].(
        status := status, attempts := old(rows)[id].attempts + 1, lockedAt := None, lockedBy := None,
        nextRetryAt := nextRetryAt,
        completedAt := if status == DeadLetter then Some(now) else old(rows)[id].completedAt)
    {
      found := id in rows;
      if found {
        rows := rows[id := FailRow(rows[id], status, nextRetryAt, now)];
      }
    }

    method RecoverStaleDeliveryJobs(now: int)
      modifies this
      ensures rows == RecoverAll(old(rows), now)
      ensures forall id | id in old(rows) :: id in rows && var j := old(rows)[id];
        rows[id] == if j.status == Processing && j.lockedAt.Some? && j.lockedAt.value < now - 120_000_000_000
                    then j.(status := RetryWait, lockedAt := None, lockedBy := None, nextRetryAt := now)
                    else j
    {
      rows := map id | id in rows :: if Stale(rows[id], now) then RecoverRow(rows[id], now) else rows[id];
    }

    method RequeueDeliveryJob(id: JobId, now: int) returns (found: bool)
      modifies this
      ensures found == (id in old(rows))
      ensures rows == Updated(old(rows), id, j => RequeueRow(j, now))
      ensures found ==> var j := old(rows)[id];
        rows[id] == j.(status := Pending, lockedAt := None, lockedBy := None, nextRetryAt := now, completedAt := None,
                       maxRetries := if j.maxRetries >= j.attempts + 3 then j.maxRetries else j.attempts + 3)
    {
      found := id in rows;
      if found {
        rows := rows[id := RequeueRow(rows[id], now)];
      }
    }
  }
}
