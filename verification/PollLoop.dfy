/** When the poller's batch loop ends, when the same jobs are given back each time: those whose request cannot be loaded
    and those the pool refuses. That it goes on holds however the clock moves; that it ends is about one instant. */
module PollLoop {
  import opened Prelude
  import opened DeliveryTable
  import opened DeliveryService

  /** A poll of the loop, and the table the next poll finds. */
  datatype Round = Round(at: int, batch: set<JobId>, after: Rows)

  // ----- at any instants

  /** Whatever happens between two polls, what was given back and is due stays due. */
  ghost predicate StillDue(before: Rows, after: Rows, back: set<JobId>, now: int) {
    DueJobs(before, now) * back <= DueJobs(after, now)
  }

  /** Polls one after the other, none before its predecessor. */
  ghost predicate Polls(rows: Rows, rounds: seq<Round>, back: set<JobId>, limit: nat, worker: WorkerId, clock: int)
    decreases |rounds|
  {
    rounds == [] ||
    var r := rounds[0];
    && r.at >= clock && ClaimBatch(rows, r.at, limit, r.batch)
    && StillDue(Polled(rows, r.batch, r.batch * back, worker, r.at), r.after, back, r.at)
    && Polls(r.after, rounds[1..], back, limit, worker, r.at)
  }

  lemma DueStaysDue(rows: Rows, t: int, u: int)
    requires t <= u
    ensures DueJobs(rows, t) <= DueJobs(rows, u)
  {
  }

  /** A poll gives back all it takes of these jobs, so they are due again. */
  lemma GivenBackStaysDue(rows: Rows, batch: set<JobId>, back: set<JobId>, limit: nat, worker: WorkerId, clock: int,
                          now: int)
    requires clock <= now && ClaimBatch(rows, now, limit, batch)
    ensures DueJobs(rows, clock) * back <= DueJobs(Polled(rows, batch, batch * back, worker, now), now) * back
  {
    DueStaysDue(rows, clock, now);
    RoundShrinks(rows, batch, back, worker, limit, now);
  }

  /** As many due jobs given back as a batch holds: however the clock moves and whatever the workers do to other jobs,
      every batch of every sequence of polls is full, and the loop, which ends on a short one, goes on. */
  lemma {:induction false} RefusingPoolSpins(rows: Rows, rounds: seq<Round>, back: set<JobId>, limit: nat,
                                             worker: WorkerId, clock: int, i: nat)
    requires Polls(rows, rounds, back, limit, worker, clock) && |DueJobs(rows, clock) * back| >= limit && i < |rounds|
    ensures |rounds[i].batch| == limit
    decreases i
  {
    var r := rounds[0];
    var wanted, due := DueJobs(rows, clock) * back, DueJobs(rows, r.at);
    DueStaysDue(rows, clock, r.at);
    Shrinks(wanted, due);
    if i > 0 {
      GivenBackStaysDue(rows, r.batch, back, limit, worker, clock, r.at);
      Shrinks(wanted, DueJobs(r.after, r.at) * back);
      RefusingPoolSpins(r.after, rounds[1..], back, limit, worker, r.at, i - 1);
    }
  }

  // ----- at one instant

  /** What workers may do between two polls: settle jobs that were handed to them, so that nothing becomes due, and
      nothing that was given back stops being due. */
  ghost predicate Meanwhile(before: Rows, after: Rows, back: set<JobId>, now: int) {
    DueJobs(after, now) <= DueJobs(before, now) && StillDue(before, after, back, now)
  }

  ghost predicate IsRound(rows: Rows, r: Round, back: set<JobId>, limit: nat, worker: WorkerId, now: int) {
    && r.at == now && ClaimBatch(rows, now, limit, r.batch)
    && Meanwhile(Polled(rows, r.batch, r.batch * back, worker, now), r.after, back, now)
  }

  ghost predicate Rounds(rows: Rows, rounds: seq<Round>, back: set<JobId>, limit: nat, worker: WorkerId, now: int)
    decreases |rounds|
  {
    rounds == []
    || (IsRound(rows, rounds[0], back, limit, worker, now)
        && Rounds(rounds[0].after, rounds[1..], back, limit, worker, now))
  }

  lemma {:induction false} RoundsArePolls(rows: Rows, rounds: seq<Round>, back: set<JobId>, limit: nat,
                                          worker: WorkerId, now: int)
    requires Rounds(rows, rounds, back, limit, worker, now)
    ensures Polls(rows, rounds, back, limit, worker, now)
    decreases |rounds|
  {
    if rounds != [] {
      RoundsArePolls(rounds[0].after, rounds[1..], back, limit, worker, now);
    }
  }

  /** What is due and given back stays so from round to round, and the rest only shrinks. */
  lemma OneRound(rows: Rows, r: Round, back: set<JobId>, limit: nat, worker: WorkerId, now: int)
    requires IsRound(rows, r, back, limit, worker, now)
    ensures var due, after := DueJobs(rows, now), DueJobs(r.after, now);
      && after * back == due * back
      && |after| <= |due| - |r.batch| + |due * back|
      && |r.batch| == Min(limit, |due|)
  {
    var polled := Polled(rows, r.batch, r.batch * back, worker, now);
    RoundShrinks(rows, r.batch, back, worker, limit, now);
    Shrinks(DueJobs(r.after, now), DueJobs(polled, now));
    assert DueJobs(r.after, now) * back == DueJobs(polled, now) * back;
  }

  /** Fewer: one of the first rounds, no more than one past the number of due jobs, comes back short. */
  lemma {:induction false} ShortBatchComes(rows: Rows, rounds: seq<Round>, back: set<JobId>, limit: nat,
                                           worker: WorkerId, now: int) returns (i: nat)
    requires Rounds(rows, rounds, back, limit, worker, now) && |DueJobs(rows, now) * back| < limit
    requires |rounds| > |DueJobs(rows, now)|
    ensures i <= |DueJobs(rows, now)| && |rounds[i].batch| < limit
    decreases |rounds|
  {
    OneRound(rows, rounds[0], back, limit, worker, now);
    if |rounds[0].batch| < limit {
      i := 0;
    } else {
      var j := ShortBatchComes(rounds[0].after, rounds[1..], back, limit, worker, now);
      i := j + 1;
    }
  }

  // ----- rounds exist

  /** A least element, next to everything already taken. */
  lemma {:induction false} LeastDue(rows: Rows, candidates: set<JobId>) returns (first: JobId)
    requires candidates != {} && candidates <= rows.Keys
    ensures first in candidates && forall c | c in candidates :: rows[first].nextRetryAt <= rows[c].nextRetryAt
    decreases |candidates|
  {
    var c :| c in candidates;
    if candidates == {c} {
      first := c;
    } else {
      var other := LeastDue(rows, candidates - {c});
      first := if rows[c].nextRetryAt < rows[other].nextRetryAt then c else other;
    }
  }

  lemma {:induction false} BatchExists(rows: Rows, now: int, limit: nat) returns (batch: set<JobId>)
    ensures ClaimBatch(rows, now, limit, batch)
    decreases limit
  {
    var due := DueJobs(rows, now);
    if limit == 0 {
      batch := {};
    } else {
      var fewer := BatchExists(rows, now, limit - 1);
      Shrinks(fewer, due);
      if |due| < limit {
        batch := fewer;
      } else {
        assert due == fewer + (due - fewer);
        var first := LeastDue(rows, due - fewer);
        batch := fewer + {first};
      }
    }
  }

  lemma {:induction false} RoundsExist(rows: Rows, n: nat, back: set<JobId>, limit: nat, worker: WorkerId, now: int)
    returns (rounds: seq<Round>)
    ensures Rounds(rows, rounds, back, limit, worker, now) && |rounds| == n
    decreases n
  {
    if n == 0 {
      rounds := [];
    } else {
      var batch := BatchExists(rows, now, limit);
      var first := Round(now, batch, Polled(rows, batch, batch * back, worker, now));
      var rest := RoundsExist(first.after, n - 1, back, limit, worker, now);
      rounds := [first] + rest;
      assert rounds[1..] == rest;
    }
  }

  /** However the batches are chosen and whatever the workers do meanwhile, a batch is short within n rounds. */
  ghost predicate EndsWithin(rows: Rows, n: nat, back: set<JobId>, limit: nat, worker: WorkerId, now: int) {
    forall rounds: seq<Round> | Rounds(rows, rounds, back, limit, worker, now) && |rounds| == n ::
      exists i :: 0 <= i < n && |rounds[i].batch| < limit
  }

  /** The loop is bound to end exactly when fewer due jobs are given back than a batch holds. */
  lemma LoopEndsIff(rows: Rows, back: set<JobId>, limit: nat, worker: WorkerId, now: int)
    ensures (exists n: nat :: EndsWithin(rows, n, back, limit, worker, now)) <==> |DueJobs(rows, now) * back| < limit
  {
    if |DueJobs(rows, now) * back| < limit {
      var n := |DueJobs(rows, now)| + 1;
      forall rounds: seq<Round> | Rounds(rows, rounds, back, limit, worker, now) && |rounds| == n
        ensures exists i :: 0 <= i < n && |rounds[i].batch| < limit
      {
        var i := ShortBatchComes(rows, rounds, back, limit, worker, now);
      }
      assert EndsWithin(rows, n, back, limit, worker, now);
    } else {
      forall n: nat
        ensures !EndsWithin(rows, n, back, limit, worker, now)
      {
        var rounds := RoundsExist(rows, n, back, limit, worker, now);
        RoundsArePolls(rows, rounds, back, limit, worker, now);
        forall i | 0 <= i < n
          ensures |rounds[i].batch| == limit
        {
          RefusingPoolSpins(rows, rounds, back, limit, worker, now, i);
        }
      }
    }
  }
}
