/** What holds of the delivery queue on every run whatsoever: workers may outlive their leases, and jobs may be replayed
    while they are in flight. */
module NoJobLost {
  import opened Prelude
  import opened DeliveryState
  import opened DeliveryTable
  import opened DeliverySystem

  // ----- runs

  ghost predicate Run(s: State, es: seq<Event>)
    decreases |es|
  {
    es == [] || (Enabled(s, es[0]) && Run(Apply(s, es[0]), es[1..]))
  }

  ghost function End(s: State, es: seq<Event>): State
    requires Run(s, es)
    decreases |es|
  {
    if es == [] then s else End(Apply(s, es[0]), es[1..])
  }

  /** An empty table, nothing in flight. */
  function Initial(now: int): State {
    State(now, map[], map[], map[])
  }

  /** Some run from an empty table leads here. */
  ghost predicate Occurs(s: State) {
    exists now, es :: Run(Initial(now), es) && End(Initial(now), es) == s
  }

  lemma {:induction false} RunAppends(s: State, es: seq<Event>, fs: seq<Event>)
    requires Run(s, es) && Run(End(s, es), fs)
    ensures Run(s, es + fs) && End(s, es + fs) == End(End(s, es), fs)
    decreases |es|
  {
    if es == [] {
      assert es + fs == fs;
    } else {
      var all := es + fs;
      RunAppends(Apply(s, es[0]), es[1..], fs);
      assert all[0] == es[0] && all[1..] == es[1..] + fs;
    }
  }

  lemma OneStep(s: State, e: Event)
    requires Enabled(s, e)
    ensures Run(s, [e]) && End(s, [e]) == Apply(s, e)
  {
    var es := [e];
    assert es[0] == e && es[1..] == [];
    assert Run(Apply(s, e), es[1..]) && End(Apply(s, e), es[1..]) == Apply(s, e);
  }

  // ----- what every step keeps

  /** What a step makes of one row. */
  function RowAfter(s: State, e: Event, id: JobId): Job
    requires Enabled(s, e) && id in s.rows
  {
    var j := s.rows[id];
    match e
    case Claim(worker, _, batch) => if id in batch then ClaimRow(j, worker, s.now) else j
    case Refuse(f) => if f.job == id then RequeueRow(j, s.now) else j
    case Settle(f, answer, c) => if f.job == id then SettleRow(j, s.flights[f].snapshot, answer, c, s.now) else j
    case Recover => if Stale(j, s.now) then RecoverRow(j, s.now) else j
    case Replay(target) => if target == id then RequeueRow(j, s.now) else j
    case _ => j
  }

  lemma RowOfStep(s: State, e: Event, id: JobId)
    requires Enabled(s, e) && id in s.rows
    ensures id in Apply(s, e).rows && Apply(s, e).rows[id] == RowAfter(s, e, id)
  {
  }

  ghost predicate Lawful(s: State) {
    s.history.Keys == s.rows.Keys && forall id | id in s.rows :: LocksMirror(s.rows[id])
  }

  lemma RowStaysLawful(s: State, e: Event, id: JobId)
    requires Enabled(s, e) && id in s.rows && LocksMirror(s.rows[id])
    ensures LocksMirror(RowAfter(s, e, id))
  {
    if e.Settle? && e.f.job == id {
      EvaluateOutcome(s.flights[e.f].snapshot, e.answer, e.chance);
    }
  }

  lemma KeysOfStep(s: State, e: Event)
    requires Enabled(s, e) && s.history.Keys == s.rows.Keys
    ensures var t := Apply(s, e);
      && t.history.Keys == t.rows.Keys
      && (forall id | id in t.rows.Keys - s.rows.Keys :: LocksMirror(t.rows[id]))
  {
  }

  lemma StepKeepsLawful(s: State, e: Event)
    requires Lawful(s) && Enabled(s, e)
    ensures Lawful(Apply(s, e))
  {
    KeysOfStep(s, e);
    forall id | id in Apply(s, e).rows ensures LocksMirror(Apply(s, e).rows[id]) {
      if id in s.rows {
        RowOfStep(s, e, id);
        RowStaysLawful(s, e, id);
      } else {
        assert id in Apply(s, e).rows.Keys - s.rows.Keys;
      }
    }
  }

  lemma {:induction false} RunKeepsLawful(s: State, es: seq<Event>)
    requires Lawful(s) && Run(s, es)
    ensures Lawful(End(s, es))
    decreases |es|
  {
    if es != [] {
      StepKeepsLawful(s, es[0]);
      RunKeepsLawful(Apply(s, es[0]), es[1..]);
    }
  }

  /** Whatever the state and the run, no job is removed. */
  lemma {:induction false} JobsNeverVanish(s: State, es: seq<Event>)
    requires Run(s, es)
    ensures s.rows.Keys <= End(s, es).rows.Keys
    decreases |es|
  {
    if es != [] {
      forall id | id in s.rows ensures id in Apply(s, es[0]).rows {
        RowOfStep(s, es[0], id);
      }
      JobsNeverVanish(Apply(s, es[0]), es[1..]);
    }
  }

  lemma OccurringIsLawful(s: State)
    requires Occurs(s)
    ensures Lawful(s)
  {
    var now, es :| Run(Initial(now), es) && End(Initial(now), es) == s;
    RunKeepsLawful(Initial(now), es);
  }

  /** In every state that occurs a row is PROCESSING exactly when both lock fields are set, and otherwise neither is. */
  lemma LocksMirrorStatus(s: State, id: JobId)
    requires Occurs(s) && id in s.rows
    ensures var j := s.rows[id];
      && (j.status.Processing? <==> j.lockedAt.Some? && j.lockedBy.Some?)
      && (!j.status.Processing? <==> j.lockedAt.None? && j.lockedBy.None?)
  {
    OccurringIsLawful(s);
  }

  // ----- recovery and the next claim

  /** The instant from which recovery makes a job claimable whatever happened to its worker. */
  function ClaimableFrom(j: Job): int {
    if j.lockedAt.Some? then Max(j.nextRetryAt, j.lockedAt.value + LEASE + 1) else j.nextRetryAt
  }

  lemma RecoveredRow(j: Job, t: int)
    requires LocksMirror(j) && !IsTerminal(j.status) && t >= ClaimableFrom(j)
    ensures Due(if Stale(j, t) then RecoverRow(j, t) else j, t)
  {
  }

  /** From then on recovery leaves an unfinished job due, and any claim large enough takes it. */
  lemma RecoveryMakesDue(s: State, id: JobId, t: int, limit: nat, batch: set<JobId>)
    requires Occurs(s) && id in s.rows && !IsTerminal(s.rows[id].status) && t >= ClaimableFrom(s.rows[id])
    ensures var rows := RecoverAll(s.rows, t);
      && id in rows && Due(rows[id], t)
      && (ClaimBatch(rows, t, limit, batch) && limit >= |DueJobs(rows, t)| ==> id in batch)
  {
    OccurringIsLawful(s);
    RecoveredRow(s.rows[id], t);
    var due := DueJobs(RecoverAll(s.rows, t), t);
    if batch <= due && |batch| == |due| {
      WholeSet(batch, due);
    }
  }

  lemma WholeSet(part: set<JobId>, whole: set<JobId>)
    requires part <= whole && |part| == |whole|
    ensures part == whole
  {
    assert whole == part + (whole - part);
  }

  predicate SameTally(h: History, h': History) {
    h'.firstMax == h.firstMax && h'.replays == h.replays && h'.refusals == h.refusals
  }

  /** What stays of a job that is recovered or claimed: its budget, and what happened to it so far. */
  ghost predicate Undisturbed(s: State, t: State, id: JobId) {
    && id in s.rows && id in s.history && id in t.rows && id in t.history
    && t.rows[id].maxRetries == s.rows[id].maxRetries
    && SameTally(s.history[id], t.history[id]) && t.history[id].answers == s.history[id].answers
  }

  lemma RecoverStep(s: State, id: JobId)
    requires s.history.Keys == s.rows.Keys && id in s.rows && LocksMirror(s.rows[id])
    requires !IsTerminal(s.rows[id].status) && s.now >= ClaimableFrom(s.rows[id])
    ensures var t := Apply(s, Recover);
      Undisturbed(s, t, id) && Due(t.rows[id], t.now) && t.history.Keys == t.rows.Keys
  {
    RecoveredRow(s.rows[id], s.now);
  }

  lemma ClaimStep(s: State, id: JobId) returns (claim: Event, f: FlightId)
    requires s.history.Keys == s.rows.Keys && id in s.rows && Due(s.rows[id], s.now)
    ensures claim.Claim? && Enabled(s, claim)
    ensures var t := Apply(s, claim);
      && Undisturbed(s, t, id)
      && f in t.flights && f.job == id && t.flights[f].stage.InHand? && t.flights[f].snapshot == t.rows[id]
  {
    var due := DueJobs(s.rows, s.now);
    claim := Claim("worker", |due|, due);
    f := FlightId(id, NextSerial(s, id));
    assert f in Launched(s, due, "worker");
  }

  /** From every state that occurs an unfinished job can be claimed again: crash, wait, recover, claim. */
  lemma Reclaimed(s: State, id: JobId) returns (es: seq<Event>, t: State, f: FlightId)
    requires Occurs(s) && id in s.rows && !IsTerminal(s.rows[id].status)
    ensures Run(s, es) && End(s, es) == t && Undisturbed(s, t, id)
    ensures f in t.flights && f.job == id && t.flights[f].stage.InHand? && t.flights[f].snapshot == t.rows[id]
  {
    OccurringIsLawful(s);
    var waited := Tick(Max(s.now, ClaimableFrom(s.rows[id])));
    var t0 := Apply(s, Crash);
    var t1 := Apply(t0, waited);
    var t2 := Apply(t1, Recover);
    RecoverStep(t1, id);
    var claim;
    claim, f := ClaimStep(t2, id);
    t := Apply(t2, claim);
    es := [Crash] + [waited] + [Recover] + [claim];
    FourSteps(s, Crash, waited, Recover, claim);
  }

  lemma FourSteps(s: State, a: Event, b: Event, c: Event, d: Event)
    requires Enabled(s, a) && Enabled(Apply(s, a), b) && Enabled(Apply(Apply(s, a), b), c)
    requires Enabled(Apply(Apply(Apply(s, a), b), c), d)
    ensures Run(s, [a] + [b] + [c] + [d])
    ensures End(s, [a] + [b] + [c] + [d]) == Apply(Apply(Apply(Apply(s, a), b), c), d)
  {
    OneStep(s, a);
    OneStep(Apply(s, a), b);
    RunAppends(s, [a], [b]);
    OneStep(Apply(Apply(s, a), b), c);
    RunAppends(s, [a] + [b], [c]);
    OneStep(Apply(Apply(Apply(s, a), b), c), d);
    RunAppends(s, [a] + [b] + [c], [d]);
  }
}
